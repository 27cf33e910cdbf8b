// The two entry points of `translate.cpp` end to end: the reference from the
// FASTA rows, the codon index from the GTF rows, then the depth-first walk.
// `translate_main` keeps each node's TSV result; the taxodium variant turns
// each node's result into its list of first-seen codes.
module Translate {
  import Reference
  import opened Gtf
  import opened CodonMap
  import opened Engine
  import opened Driver
  import opened Order
  import Codes

  /** The codon arena the two input files describe, before any mutation. */
  function Arena(fasta: seq<string>, gtf: seq<string>): seq<Codon>
    requires RowsOk(gtf, |Reference.Flatten(fasta)|) && Plan(gtf, |Reference.Flatten(fasta)|).Ok?
  {
    var reference := Reference.Flatten(fasta);
    Realize(Plan(gtf, |reference|).value, reference)
  }

  /** What the walk expects of the tree over the arena the files describe. */
  ghost predicate TreeFits(fasta: seq<string>, gtf: seq<string>, parent: seq<int>, muts: seq<seq<Mutation>>)
    requires RowsOk(gtf, |Reference.Flatten(fasta)|)
    requires IsTree(parent) && |muts| == |parent|
  {
    Plan(gtf, |Reference.Flatten(fasta)|).Ok? ==>
      Consistent(Arena(fasta, gtf), IndexOf(Arena(fasta, gtf)), parent, muts)
  }

  /** Codons read from the reference have three bases. */
  lemma ReadTriplets(codons: seq<Codon>, reference: string)
    requires ReadFrom(codons, reference)
    ensures TripletsOk(codons)
  {
    forall h | 0 <= h < |codons| ensures |codons[h].triplet| == 3 {
      assert codons[h].triplet == reference[codons[h].start..codons[h].start + 3];
    }
  }

  /** No two codons of the arena the files describe share a `gene:number`
      identifier: each gene's codons are numbered 0, 1, 2, ... once. */
  lemma ArenaUniqueIds(fasta: seq<string>, gtf: seq<string>)
    requires RowsOk(gtf, |Reference.Flatten(fasta)|) && Plan(gtf, |Reference.Flatten(fasta)|).Ok?
    ensures UniqueIds(Arena(fasta, gtf))
  {
    var v := Plan(gtf, |Reference.Flatten(fasta)|).value;
    var c := Arena(fasta, gtf);
    PlanDistinctSlots(gtf, |Reference.Flatten(fasta)|);
    forall a, b | 0 <= a < b < |c| ensures CodonId(c[a]) != CodonId(c[b]) {
      assert c[a].gene == v[a].gene && c[a].number == v[a].number;
      assert c[b].gene == v[b].gene && c[b].number == v[b].number;
      if CodonId(c[a]) == CodonId(c[b]) {
        CodonIdInjective(c[a], c[b]);
        assert false;
      }
    }
  }

  /** The original amino acid that the visit of node `x` reports for a codon
      is the codon's amino acid in the parent's genome, before the call. */
  lemma VisitOrig(fasta: seq<string>, gtf: seq<string>, parent: seq<int>, muts: seq<seq<Mutation>>, x: nat)
    requires RowsOk(gtf, |Reference.Flatten(fasta)|) && Plan(gtf, |Reference.Flatten(fasta)|).Ok?
    requires IsTree(parent) && |muts| == |parent| && x < |parent|
    ensures var c0 := Arena(fasta, gtf);
      var before := Genome(c0, IndexOf(c0), parent, muts, parent[x]);
      OrigOk(before, Tour(Fresh(before), IndexOf(c0), ByPosition(muts[x])))
  {
    var c0 := Arena(fasta, gtf);
    ArenaUniqueIds(fasta, gtf);
    GenomeIds(c0, IndexOf(c0), parent, muts, parent[x]);
    var before := Genome(c0, IndexOf(c0), parent, muts, parent[x]);
    TourOrig(before, IndexOf(c0), ByPosition(muts[x]));
  }

  /** Lines 170-200 (and 220-260): build the reference and the codon index,
      then walk the tree. A malformed GTF file ends the run with the
      builder's message; otherwise the result of every visited node is the
      one `do_mutations` gives on the node's genome. */
  method TranslateWalk(fasta: seq<string>, gtf: seq<string>, parent: seq<int>, muts: seq<seq<Mutation>>,
                       dfs: seq<nat>, taxodium: bool)
    returns (r: Result<seq<string>>)
    requires Reference.LinesOk(fasta) && RowsOk(gtf, |Reference.Flatten(fasta)|)
    requires IsTree(parent) && |muts| == |parent| && DfsOrder(parent, dfs)
    requires TreeFits(fasta, gtf, parent, muts)
    ensures r.Err? <==> Plan(gtf, |Reference.Flatten(fasta)|).Err?
    ensures r.Err? ==> r.message == MalformedGtf
    ensures r.Ok? ==> r.value == Visits(Arena(fasta, gtf), IndexOf(Arena(fasta, gtf)), parent, muts, dfs, taxodium)
  {
    var reference := Reference.BuildReference(fasta);
    var table := BuildCodonMap(gtf, reference);
    if table.Err? {
      return Err(table.message);
    }
    IndexDetermined(table.value.codons, table.value.index);
    ReadTriplets(table.value.codons, reference);
    var state := new CodonState(table.value);
    var results, _ := Walk(state, parent, muts, dfs, taxodium);
    return Ok(results);
  }

  /** The per-node output of the taxodium variant: the code list of every
      visited node and the table of change strings by code. */
  datatype NodeCodes = NodeCodes(codes: seq<seq<nat>>, mapping: seq<string>)

  /** `translate_and_populate_node_data`, its codon part (lines 220-271):
      every amino-acid change of the walk gets the next code the first time
      it is seen, and each node's list decodes back to its own changes. */
  method TranslateNodeData(fasta: seq<string>, gtf: seq<string>, parent: seq<int>, muts: seq<seq<Mutation>>,
                           dfs: seq<nat>)
    returns (r: Result<NodeCodes>)
    requires Reference.LinesOk(fasta) && RowsOk(gtf, |Reference.Flatten(fasta)|)
    requires IsTree(parent) && |muts| == |parent| && DfsOrder(parent, dfs)
    requires TreeFits(fasta, gtf, parent, muts)
    ensures r.Err? <==> Plan(gtf, |Reference.Flatten(fasta)|).Err?
    ensures r.Ok? ==>
      var results := Visits(Arena(fasta, gtf), IndexOf(Arena(fasta, gtf)), parent, muts, dfs, true);
      && r.value.mapping == Codes.FirstSeen(Codes.Changes(results))
      && Codes.NoDuplicates(r.value.mapping)
      && |r.value.codes| == |dfs|
      && Codes.AllDecode(r.value.codes, r.value.mapping, results)
  {
    var walked := TranslateWalk(fasta, gtf, parent, muts, dfs, true);
    if walked.Err? {
      return Err(walked.message);
    }
    var codes, mapping := Codes.EncodeResults(walked.value);
    return Ok(NodeCodes(codes, mapping));
  }
}
