# Incremental codon translation over a mutation-annotated tree

This Dafny project models the codon-translation engine of `matUtils translate`
and the two text reports of `matUtils describe`.

The translation engine works in five steps:

- It flattens a FASTA reference into one upper-case nucleotide string (`build_reference`).
- It reads the GTF gene model into an index from 0-based genome position to the shared codon records covering it (`build_codon_map`).
- It walks the tree depth first. At each node `do_mutations` applies the node's mutations to the covering codons and reports the amino-acid and nucleotide changes. When the walk jumps to another branch, `undo_mutations` reverts every node from the last one visited up to the lowest common ancestor.
- The taxodium variant turns every change string into a 1-based code, handed out the first time the string is seen.
- `describe` prints each sample's mutation path from the root, and a table with the first node of each requested clade.

Modules, one per concern:

- `Text` models `split`, `std::to_string`/`std::stoi` and the join and trailing-separator idioms.
- `Reference` models `build_reference`.
- `Gtf` parses GTF rows. Its function `Plan` says which codons, and in which order, the builder creates.
- `CodonMap` holds the codon arena, the position index and `build_codon_map`.
- `Engine` holds the class `CodonState`, with `DoMutations` and `UndoMutations`, and the specification of one `do_mutations` call.
- `Order` shows that the in-place `std::sort` has one outcome when positions are distinct, and that applying a list does not depend on its order.
- `Driver` is the depth-first walk with LCA rollback.
- `Codes` is the first-seen code table.
- `Translate` composes the two entry points end to end.
- `Describe` models `mutation_paths` and `clade_paths`.

The shared `Codon` objects are an arena `seq<Codon>`. The index maps each position to the arena handles of the codons covering it, so a codon shared by three positions (and by several frames) is updated once, as through the `shared_ptr`.

The tree is a parent array: node 0 is the root and every parent has a smaller number. The depth-first order, the mutation lists and the `rsearch` paths are inputs. `MAT::LCA` is the function `Driver.Lca`, whose contract is proved: it returns a common ancestor, and every common ancestor is an ancestor of it.

The main results:

- After each visit the arena equals the reference with every mutation on the root-to-node path applied (`Driver.Walk`, via `Driver.Genome`).
- Applying a node's list and then reverting it restores the arena (`Engine.ApplyRevert`).
- The index holds exactly the codons covering each position (`CodonMap.CoveringSpec`, `CodonMap.BuildCodonMap`).
- The output strings have the exact formats of the source.

Where the code and its design description differ, the model follows the code:

- Each later CDS segment of a gene restarts its frame at its own `start - 1`. The frame is not continued from the previous segment.
- The rollback is exact only for a pre-order walk, where the parent of each node lies on the path to the node visited before it. It is not exact for an arbitrary visiting order, because after the rollback the code applies only the node's own mutations. `Driver.DfsOrder` states this requirement.

## Model

| member | source | states |
|---|---|---|
| Text.Split | src/matUtils/translate.cpp:3-11 | The pieces `getline` yields: `Pieces(s, d)`. An empty string gives no piece, and a trailing delimiter gives no empty last piece. |
| Text.JoinPieces | src/matUtils/translate.cpp:3-11 | Round trip: the pieces joined by the delimiter, plus the trailing delimiter if there was one, give back the input. |
| Text.PiecesNoDelimiter | src/matUtils/translate.cpp:3-11 | No piece contains the delimiter. |
| Text.PiecesAroundColon | src/matUtils/translate.cpp:368-373 | `split(gene + ":" + num, ':')` has at least two pieces, and is exactly `[gene, num]` when the gene name has no colon. |
| Text.ParseNatToString | src/matUtils/translate.cpp:264-269 | `stoi(to_string(n)) == n`, so a code stored as text reads back as the same code. |
| Text.NatToStringInjective | src/matUtils/translate.cpp:347 | `to_string` is one to one: equal numerals come from equal numbers. |
| Text.ColonSplitUnique | src/matUtils/translate.cpp:347 | `gene + ":" + numeral` with a colon-free numeral determines both the gene and the numeral. |
| Text.TerminatedStrip | src/matUtils/translate.cpp:377-391 | Parts each followed by a separator, with the last separator removed, are the parts joined by that separator. |
| Reference.BuildReference | src/matUtils/translate.cpp:13-30 | The loop returns `Flatten(lines)`: the non-header lines in order, each upper-cased with one trailing `\r` removed. |
| Reference.HeaderContributesNothing | src/matUtils/translate.cpp:18-19 | A `>` line adds nothing to the reference. |
| Reference.SequenceLineContributes | src/matUtils/translate.cpp:20-27 | A sequence line appends its cleaned text. The line loses at most one character, and none when it does not end in `\r`. |
| Reference.FlattenAppend | src/matUtils/translate.cpp:17-28 | The reference of two runs of lines is the concatenation of their references. |
| Reference.FlattenIsUpper | src/matUtils/translate.cpp:21 | The reference holds no lower-case letter. |
| Gtf.GeneOfIsQuoted | src/matUtils/translate.cpp:54 | The double `split` on `"` yields the text between the first two quotes. |
| Gtf.SegmentSlotsShape | src/matUtils/translate.cpp:67-77 | Codon `k` of a segment starts at `lo + 3k` and is numbered `counter + k`. Every start is below `stop`, and the codons reach `stop`. |
| Gtf.PlanFails | src/matUtils/translate.cpp:42-52 | The build fails exactly when some row that is not skipped has an attribute field not starting with `gene_id`. |
| Gtf.PlanFromNumbering | src/matUtils/translate.cpp:56-62 | No codon of the remaining rows belongs to a gene already in `done`, and each gene's codons are numbered 0, 1, 2, … without gaps. |
| Gtf.PlanNumbering | src/matUtils/translate.cpp:64-117 | In the whole build, the codons of every gene are numbered 0, 1, 2, … across its first and inner segments. |
| Gtf.PlanDistinctSlots | src/matUtils/translate.cpp:56-117 | No two codons of one gene in the built plan share a number. |
| Gtf.GeneSlotsNumbering | src/matUtils/translate.cpp:64-142 | All codons of one gene carry that gene's name and the numbers 0, 1, 2, … in order. |
| Gtf.PlanFromInReference | src/matUtils/translate.cpp:69-73 | Every planned codon reads three bases inside the reference. |
| CodonMap.CoveringSpec | src/matUtils/translate.cpp:32-33 | The handles listed at `p` are exactly the codons covering `p`, in creation order and without repeats. |
| CodonMap.Register | src/matUtils/translate.cpp:81-86 | `find`/`insert`/`push_back` at one position: a new key gets `[h]`, an existing list gets `h` appended, and other keys are kept. |
| CodonMap.RegisterThree | src/matUtils/translate.cpp:79-100 | After the three registrations, exactly the keys `start`, `start+1` and `start+2` gain the handle. Every other list is unchanged, and every old list is a prefix of the new one. |
| CodonMap.AddCodon | src/matUtils/translate.cpp:76-100 | The new codon is appended to the arena. Its handle is in exactly the lists at its three positions, the index stays exact, and old entries are kept. |
| CodonMap.RegisteredAtThree | src/matUtils/translate.cpp:79-100 | In an exact index, a codon's handle is listed at `p` if and only if `start <= p <= start + 2`. |
| CodonMap.AddSegment | src/matUtils/translate.cpp:67-101 | The segment loop appends the segment's codons, each holding `reference[p..p+3]`, and returns the counter advanced by their number. |
| CodonMap.ScanRow | src/matUtils/translate.cpp:103-140 | One inner row adds its segment only for a CDS row of the same gene whose start differs from the first segment's start. |
| CodonMap.ScanRows | src/matUtils/translate.cpp:102-142 | The inner scan over all rows appends exactly the codons of the gene's later segments. |
| CodonMap.BuildGene | src/matUtils/translate.cpp:63-142 | One gene appends exactly the codons of `GeneSlots` and keeps the index exact. |
| CodonMap.BuildStep | src/matUtils/translate.cpp:41-143 | One outer row either ends the build with the GTF error message or advances the build by the plan's next codons. |
| CodonMap.BuildCodonMap | src/matUtils/translate.cpp:33-146 | The build fails exactly when the plan fails, with the source's message. On success the arena is the planned codons read from the reference, and the index maps each position to exactly the codons covering it. |
| CodonMap.IndexDetermined | src/matUtils/translate.cpp:33-146 | An exact index is a function of the arena. |
| CodonMap.UnindexedUncovered | src/matUtils/translate.cpp:341-343 | A position with no key is covered by no codon. |
| CodonMap.CoveringSameStarts | src/matUtils/translate.cpp:355 | Mutating bases never moves a codon, so the index stays valid. |
| Engine.Mutate | src/matUtils/translate.cpp:355 | `Codon::mutate`: the base at `pos` becomes `nuc` and the other two stay. A position outside the codon changes nothing. |
| Engine.WriteAllAt | src/matUtils/translate.cpp:338-365 | After a list of writes, each base of each codon is the last write at its position, or unchanged if there is none. |
| Engine.ApplyRevert | src/matUtils/translate.cpp:401-416 | `do_mutations` and then `undo_mutations` on the same list restore the arena, when positions are distinct and each `par_nuc` is the base present before. |
| Engine.TourCodons | src/matUtils/translate.cpp:338-365 | The mutation loop leaves the arena that writing `mut_nuc` at every covered position gives. |
| Engine.TourAffected | src/matUtils/translate.cpp:352-354 | A codon is affected if and only if some mutation of the list covers it. Each codon is listed once (`TouchRecorded`). |
| Engine.TourOrig | src/matUtils/translate.cpp:348-351 | The original protein recorded for a codon is its protein before the call. |
| Engine.TourNts | src/matUtils/translate.cpp:334-361 | A codon has an entry in `codon_to_nt_map` if and only if some mutation falls inside it. Its set is ordered by position, and it holds exactly the first mutation of the call at each of the codon's positions that the call touches. |
| Engine.TourNtList | src/matUtils/translate.cpp:357-362 | One more mutation inserts itself into the set of each codon it falls in, and leaves every other set unchanged. |
| Engine.InsertByPosHas | src/matUtils/translate.cpp:359-361 | `std::set::insert` under the position order: the result holds the old elements, plus `m` when no element has its position. |
| Engine.InsertByPosSorted | src/matUtils/translate.cpp:359-361 | The set stays strictly ordered by position after an insertion. |
| Engine.TourAffectedOrder | src/matUtils/translate.cpp:352-354 | `affected_codons` is in first-touched order: by the first mutation covering the codon, then by the position's handle list. |
| Engine.TouchRecorded | src/matUtils/translate.cpp:347-362 | Every affected codon has an original protein and a non-empty set of nucleotide mutations, and no codon is listed twice. |
| Engine.SilentNode | src/matUtils/translate.cpp:341-343 | A list with no position in the index changes nothing, and the report (lines 392-393) is `""`. |
| Engine.ReportEmptyIff | src/matUtils/translate.cpp:392-393 | The report is `""` if and only if no codon was affected. |
| Engine.IdPieces | src/matUtils/translate.cpp:368-373 | `split(codon_id, ':')` gives the gene and `codon_number + 1`. |
| Engine.CodonIdInjective | src/matUtils/translate.cpp:347 | Equal `orf_name:codon_number+1` identifiers mean the same gene and the same codon number. |
| Engine.SortByPosition | src/matUtils/translate.cpp:333 | The result is sorted by position and is a permutation of the input. |
| Engine.StripLast | src/matUtils/translate.cpp:380-391 | Removing one trailing separator from separator-terminated groups gives the groups joined by it. |
| Engine.Render | src/matUtils/translate.cpp:367-398 | The report loop returns `Report`. It is `prot\tnuc` (TSV) or `prot` (taxodium), with groups `gene:OrigNumNew` (or `gene:Orig_Num_New`) joined by `;`, nucleotide strings joined by `,` within a codon, and no trailing separator. It is `""` when either side is empty. |
| Engine.CodonState.UndoMutations | src/matUtils/translate.cpp:401-416 | Every covering codon gets `par_nuc` at each position of the list, and the index stays exact. |
| Engine.CodonState.DoMutations | src/matUtils/translate.cpp:330-399 | The list is sorted in place (a sorted permutation). The arena gets `mut_nuc` at every covered position, and the result is `Outcome` of the old arena and the sorted list. |
| Engine.CodonState.TouchEach | src/matUtils/translate.cpp:338-365 | The loop's arena, `orig_proteins`, `affected_codons` and `codon_to_nt_map` are the tally `Tour` computes. |
| Engine.CodonState.TouchCodons | src/matUtils/translate.cpp:346-363 | The inner loop over a position's handle list leaves the tally that touching each handle in list order gives. |
| Engine.CodonState.TouchCodon | src/matUtils/translate.cpp:347-362 | One codon: its id and original protein are recorded if absent, it joins `affected_codons` once, it takes the mutated base, and `m` joins its nucleotide set. |
| Order.ByPositionSorts | src/matUtils/translate.cpp:333 | The reference sort is sorted by position and is a permutation. |
| Order.SortedIsByPosition | src/matUtils/translate.cpp:333 | With distinct positions, any sorted permutation that `std::sort` picks equals the reference sort. |
| Order.SortedUnique | src/matUtils/translate.cpp:333 | Two sorted permutations of a list with distinct positions are equal. |
| Order.DistinctPermuted | src/matUtils/translate.cpp:333 | Sorting keeps positions distinct. |
| Order.WriteAllPermuted | src/matUtils/translate.cpp:333 | Applying or reverting a list gives the same arena whatever its order, so reverting the sorted list undoes the original. |
| Order.ParentsMatchPermuted | src/matUtils/translate.cpp:403-412 | The parent bases of a reordered list still match the arena. |
| Driver.Lca | src/matUtils/translate.cpp:188 | The result is an ancestor-or-self of both nodes. |
| Driver.LcaLowest | src/matUtils/translate.cpp:188 | Every common ancestor is an ancestor-or-self of the result. |
| Driver.StepLca | src/matUtils/translate.cpp:185-194 | On a pre-order step, the LCA of the new node and the last one is the new node's parent. |
| Driver.GenomeOk | src/matUtils/translate.cpp:179-180 | Every node's genome keeps the index exact and three bases per codon. |
| Driver.GenomeIds | src/matUtils/translate.cpp:179-195 | Every node's genome keeps the arena's genes and numbers, so its `gene:number` identifiers stay unique. |
| Driver.UndoStep | src/matUtils/translate.cpp:190-193 | Reverting a node's list, sorted or not, turns its genome into its parent's. |
| Driver.DoStep | src/matUtils/translate.cpp:195 | Applying a node's list, in any order, turns its parent's genome into its own. |
| Driver.RollBack | src/matUtils/translate.cpp:189-193 | The `trace_to_lca` loop turns the last node's genome into the LCA's genome. |
| Driver.VisitNode | src/matUtils/translate.cpp:195 | From the parent's genome, the visit leaves the node's genome and returns `do_mutations` of the node's sorted list. |
| Driver.WalkStep | src/matUtils/translate.cpp:183-200 | One iteration of the walk keeps the path invariant, `Walked`. |
| Driver.Walk | src/matUtils/translate.cpp:181-200 | Path invariant: the result at each visited node is `do_mutations` on its parent's genome. The final arena is the last node's genome, and each visited node keeps its list sorted. |
| Driver.StoredPermutes | src/matUtils/translate.cpp:333 | A node's stored list, sorted or not, is a permutation of its mutations. |
| Codes.FirstSeenOk | src/matUtils/translate.cpp:261-266 | The code table lists each change string exactly once. |
| Codes.EncodePiece | src/matUtils/translate.cpp:262-270 | A new string gets the next code and is appended to the table. A known string gets back its stored code. Either way the code decodes to the string. |
| Codes.TableAdd | src/matUtils/translate.cpp:263-266 | Handing out the next code keeps the table consistent. |
| Codes.TableLookup | src/matUtils/translate.cpp:269 | `stoi` of the stored text is the string's code. |
| Codes.EncodeNode | src/matUtils/translate.cpp:261-271 | A node's codes decode, in order, to its `;`-separated changes, and the table grows by its new strings in first-seen order. |
| Codes.EncodeResults | src/matUtils/translate.cpp:261-271 | Over the whole walk (with the table and counter of lines 225 and 230), the table is the distinct changes in first-seen order, and each node's list decodes to its own changes. |
| Codes.SameChangeSameCode | src/matUtils/translate.cpp:262-270 | Two changes get the same code if and only if they are the same string. |
| Translate.ReadTriplets | src/matUtils/translate.cpp:69-73 | Codons read from the reference have three bases. |
| Translate.ArenaUniqueIds | src/matUtils/translate.cpp:33-146 | No two codons of the arena built from the files share a `gene:number` identifier. |
| Translate.VisitOrig | src/matUtils/translate.cpp:348-351 | For every visited node, the original protein the visit records for a codon is that codon's protein in the parent's genome. |
| Translate.TranslateWalk | src/matUtils/translate.cpp:170-200 | End to end: the run fails exactly on a malformed GTF file. Otherwise each visited node's result is `do_mutations` on its genome over the arena the files describe. |
| Translate.TranslateNodeData | src/matUtils/translate.cpp:220-271 | The taxodium walk's code table is the first-seen list of its changes, and each node's codes decode to that node's changes. |
| Describe.Reversed | src/matUtils/describe.cpp:8 | `std::reverse`: element `i` of the result is element `n - 1 - i` of the input. |
| Describe.MutationList | src/matUtils/describe.cpp:11-18 | A node's mutation strings joined by `,`, with no trailing comma. |
| Describe.AppendPath | src/matUtils/describe.cpp:10-23 | The path loop appends `PathText`: each node's group, then `" > "` unless it is the back node. |
| Describe.PathTextJoins | src/matUtils/describe.cpp:10-23 | On a path without repeated nodes, the text is the groups joined by `" > "`, with an empty group for a node without mutations. |
| Describe.MutationPaths | src/matUtils/describe.cpp:3-28 | One line per sample, in input order, each `sample + ": "` and the reversed `rsearch` path. |
| Describe.PathLineShape | src/matUtils/describe.cpp:5-25 | A sample's line is its name, `": "`, and the groups from the root down to the sample joined by `" > "`. |
| Describe.ScanNode | src/matUtils/describe.cpp:45-80 | A node's annotation loop is `AnnScan`. A row grows from `id\t` by `unique\t`, `unique` and the path to the root, for each annotation that passes the guard. |
| Describe.CladePaths | src/matUtils/describe.cpp:30-83 | The header line, then the rows of the scan over the breadth-first order, under the guard as written or as intended. |
| Describe.CladeRowsAsWritten | src/matUtils/describe.cpp:41-77 | As written, nothing is ever seen and no row is added, so the result is exactly the header. |
| Describe.CladeRowsCorrected | src/matUtils/describe.cpp:36-77 | With the intended guard, the seen clades are exactly the requested clades annotated in the tree, with one row each. The clades come in the order the breadth-first walk first meets them, and each row is the row of the first node that carries its clade. |
| Describe.CladeRowsFirst | src/matUtils/describe.cpp:36-77 | With the intended guard, the seen set is the clades met, the row of each is that of its first node, and the clades are taken in meeting order. |
| Describe.RowIs | src/matUtils/describe.cpp:44-77 | Row `i` of the table is the row grown at the first node carrying the `i`-th clade met. |
| Describe.ScanSeenMet | src/matUtils/describe.cpp:44-80 | With the intended guard, the scan has seen exactly the clades met, with one row each. |
| Describe.MetHas | src/matUtils/describe.cpp:46-49 | Every requested, non-empty annotation of a node in the walk is among the clades met. |
| Describe.TargetsHas | src/matUtils/describe.cpp:46-49 | The target clades of a node are exactly its non-empty annotations that are requested. |
| Describe.AnnScanCorrected | src/matUtils/describe.cpp:46-80 | With the intended guard, a node adds the requested clades among its annotations, and one row for each new one. |
| Describe.CladeGuardExample | src/matUtils/describe.cpp:49 | For one node annotated `B.1` with `B.1` requested, the code as written gives no row, and the intended guard gives that node's row. |

## Left out

- File opening, the open-failure exits and the TSV header and row writing (translate.cpp 149-172, 196-198) are not modelled. Files are given as their lines. The walk returns every node's `do_mutations` result instead of writing the non-empty ones with `get_leaves(...).size()`, which is a tree query.
- The `exit(1)` on a malformed GTF row is the error value `Err(MalformedGtf)`.
- `uncondense_leaves`, `depth_first_expansion`, `breadth_first_expansion`, `rsearch` and `MAT::LCA` are external tree code. The orders and paths are inputs, and the LCA is a function with a proved contract.
- The taxodium float layout (x/y, `by_level`), the metadata lookups and the protobuf `add_*` calls are not modelled. The layout is floating point and does not compile as written, and the rest is output plumbing.
- `Codon`, the amino-acid table and `MAT::Mutation` are in headers that are not part of this model. The protein is computed from the triplet with the standard genetic code (NCBI table 1), and `X` for other bases. `get_string` is the mutation's `name` field, `get_nuc` is taken as the stored base, and `operator<` is taken as the order by position.
- Codes.EncodeResults: the table runs as a pass over the walk's results rather than inside the walk. `do_mutations` does not read the table, so the codes are the same.
- Codes.EncodeResults: the `int32_t` `mutation_counter` is unbounded here. It does not model wrap-around past 2^31 - 1 distinct changes.
- Reference.BuildReference requires every line to be non-empty. The source reads `fasta_line[0]` and `fasta_line[length-1]` without a check.
- CodonMap.BuildCodonMap requires `RowsOk`, which the source reads without checking:
  - every row that is not skipped has nine fields;
  - when some gene is built, every row has a readable gene name in field 8;
  - every CDS row has decimal start and stop;
  - every codon lies inside the reference.
- Driver.Walk requires a pre-order walk with root 0 and parents numbered below their children (`Driver.DfsOrder`).
- Driver.Walk requires `Driver.Consistent`: one mutation per position on each node, and `par_nuc` equal to the parent's base. The exact-rollback property depends on both.
- Engine.TourOrig requires every codon to have a unique `gene:number` identifier, since `orig_proteins` is keyed by that text. The built arena meets this (`Translate.ArenaUniqueIds`), and so does every node genome (`Driver.GenomeIds`), which is how `Translate.VisitOrig` drops the requirement.
- Engine.CodonState.DoMutations ensures only that the sorted list is some sorted permutation, as `std::sort` promises. `Order.SortedIsByPosition` pins it down when positions are distinct.
- Describe: node identity (the `n != back()` test) is a numeric `id`. Clade rows are built from given `rsearch` paths.

## Findings

| source | as written | input that shows it | evidently intended | confidence | as-written member | corrected member |
|---|---|---|---|---|---|---|
| src/matUtils/describe.cpp:49 | `clades_seen.find(ann) != clades_seen.end()`: a clade row is taken only for a clade already seen, but `clades_seen` starts empty and grows only inside that branch | one node `node_1` annotated `B.1`, with `clades = ["B.1"]`: the result is only the header | `== clades_seen.end()`: take the first node of each requested clade, as the comment at 48 says | not executed | Describe.CladeRowsAsWritten | Describe.CladeRowsCorrected |
