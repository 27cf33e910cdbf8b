// The codon index of `build_codon_map`: an arena of codon records (the shared
// `Codon` objects) and a map from 0-based genome position to the arena
// handles of every codon covering that position, in creation order.
module CodonMap {
  import opened Text
  import opened Gtf

  /** One codon: gene, 0-based number within the gene, 0-based genome start
      and its current three bases. */
  datatype Codon = Codon(gene: string, number: nat, start: int, triplet: string)

  /** The standard genetic code, bases in the order T, C, A, G. */
  const CodeTable := "FFLLSSSSYY**CC*WLLLLPPPPHHQQRRRRIIIMTTTTNNKKSSRRVVVVAAAADDEEGGGG"

  function BaseIndex(b: char): int
  {
    match b
    case 'T' => 0
    case 'C' => 1
    case 'A' => 2
    case 'G' => 3
    case _ => -1
  }

  /** The amino acid a triplet encodes; 'X' when a base is not A, C, G or T. */
  function AminoAcid(t: string): char
  {
    if |t| == 3 && BaseIndex(t[0]) >= 0 && BaseIndex(t[1]) >= 0 && BaseIndex(t[2]) >= 0
    then CodeTable[16 * BaseIndex(t[0]) + 4 * BaseIndex(t[1]) + BaseIndex(t[2])]
    else 'X'
  }

  function Protein(c: Codon): char
  {
    AminoAcid(c.triplet)
  }

  /** Does codon `c` span genome position `p`? */
  predicate Covers(c: Codon, p: int)
  {
    c.start <= p < c.start + 3
  }

  /** Handles, in creation order, of the codons covering `p`. */
  function Covering(codons: seq<Codon>, p: int): seq<nat>
  {
    if codons == [] then []
    else
      var n := |codons| - 1;
      Covering(codons[..n], p) + (if Covers(codons[n], p) then [n] else [])
  }

  /** A handle list is in creation order, hence without repeats. */
  predicate Increasing(hs: seq<nat>)
  {
    forall i, j :: 0 <= i < j < |hs| ==> hs[i] < hs[j]
  }

  /** `Covering` holds exactly the covering handles, in increasing order. */
  lemma {:induction false} CoveringSpec(codons: seq<Codon>, p: int)
    ensures forall h: nat :: h in Covering(codons, p) <==> h < |codons| && Covers(codons[h], p)
    ensures Increasing(Covering(codons, p))
    decreases |codons|
  {
    if codons != [] {
      var n := |codons| - 1;
      var init := codons[..n];
      CoveringSpec(init, p);
      var ci := Covering(init, p);
      var cov := Covering(codons, p);
      assert cov == ci + (if Covers(codons[n], p) then [n] else []);
      forall h: nat ensures h in cov <==> h < |codons| && Covers(codons[h], p) {
        if h < n { assert init[h] == codons[h]; }
      }
      forall i, j | 0 <= i < j < |cov| ensures cov[i] < cov[j] {
        if j >= |ci| {
          assert cov[i] == ci[i] && ci[i] in ci;
        }
      }
    }
  }

  lemma {:induction false} CoveringEmpty(codons: seq<Codon>, p: int)
    requires forall h :: 0 <= h < |codons| ==> !Covers(codons[h], p)
    ensures Covering(codons, p) == []
    decreases |codons|
  {
    if codons != [] {
      var n := |codons| - 1;
      CoveringEmpty(codons[..n], p);
    }
  }

  /** Two arenas with the same starts have the same index. */
  lemma {:induction false} CoveringSameStarts(a: seq<Codon>, b: seq<Codon>, p: int)
    requires |a| == |b| && forall h :: 0 <= h < |a| ==> a[h].start == b[h].start
    ensures Covering(a, p) == Covering(b, p)
    decreases |a|
  {
    if a != [] {
      var n := |a| - 1;
      CoveringSameStarts(a[..n], b[..n], p);
    }
  }

  /** At `p` the map holds exactly the handles of the codons covering `p`. */
  predicate MappedAt(codons: seq<Codon>, index: map<int, seq<nat>>, p: int)
  {
    p in index ==> index[p] == Covering(codons, p) && index[p] != []
  }

  /** All three positions of `c` are keys of the map. */
  predicate Spanned(index: map<int, seq<nat>>, c: Codon)
  {
    c.start in index && c.start + 1 in index && c.start + 2 in index
  }

  /** The map is exactly the covering relation of the arena: every position
      a codon spans is a key, and each key maps to its covering handles. */
  ghost predicate IndexOk(codons: seq<Codon>, index: map<int, seq<nat>>)
  {
    && (forall p :: MappedAt(codons, index, p))
    && (forall h :: 0 <= h < |codons| ==> Spanned(index, codons[h]))
  }

  /** A position that is not a key is covered by no codon. */
  lemma UnindexedUncovered(codons: seq<Codon>, index: map<int, seq<nat>>, p: int)
    requires IndexOk(codons, index) && p !in index
    ensures Covering(codons, p) == []
  {
    forall h | 0 <= h < |codons| ensures !Covers(codons[h], p) {
      assert Spanned(index, codons[h]);
    }
    CoveringEmpty(codons, p);
  }

  /** Every handle in the map names a codon covering that position. */
  lemma IndexHandles(codons: seq<Codon>, index: map<int, seq<nat>>, p: int)
    requires IndexOk(codons, index) && p in index
    ensures forall h :: h in index[p] ==> h < |codons| && Covers(codons[h], p)
    ensures Increasing(index[p])
  {
    assert MappedAt(codons, index, p);
    CoveringSpec(codons, p);
  }

  /** Each codon is registered at exactly its three positions. */
  lemma RegisteredAtThree(codons: seq<Codon>, index: map<int, seq<nat>>, h: nat, p: int)
    requires IndexOk(codons, index) && h < |codons|
    ensures (p in index && h in index[p]) <==> codons[h].start <= p <= codons[h].start + 2
  {
    assert MappedAt(codons, index, p);
    assert Spanned(index, codons[h]);
    CoveringSpec(codons, p);
  }

  /** `find`, then `insert({p, {h}})` or `push_back(h)`. */
  function Register(index: map<int, seq<nat>>, p: int, h: nat): (r: map<int, seq<nat>>)
    ensures r.Keys == index.Keys + {p}
    ensures r[p] == (if p in index then index[p] else []) + [h]
    ensures forall q :: q in index && q != p ==> r[q] == index[q]
  {
    if p in index then index[p := index[p] + [h]] else index[p := [h]]
  }

  /** Creating codon `c` and registering it at `c.start`, `c.start + 1` and
      `c.start + 2` (lines 76-100 and 116-138). */
  method AddCodon(codons: seq<Codon>, index: map<int, seq<nat>>, c: Codon)
    returns (codons': seq<Codon>, index': map<int, seq<nat>>)
    requires IndexOk(codons, index)
    ensures codons' == codons + [c] && IndexOk(codons', index')
    ensures index'.Keys == index.Keys + {c.start, c.start + 1, c.start + 2}
    ensures forall p :: p in index ==> index[p] <= index'[p]
    ensures forall p :: p in index' ==> (|codons| in index'[p] <==> c.start <= p <= c.start + 2)
  {
    var h := |codons|;
    codons' := codons + [c];
    index' := Register(index, c.start, h);
    index' := Register(index', c.start + 1, h);
    index' := Register(index', c.start + 2, h);
    RegisterThree(index, c, h);
    AddCodonIndex(codons, index, c, index');
  }

  /** Registering handle `h` at the three positions of `c`. */
  lemma RegisterThree(index: map<int, seq<nat>>, c: Codon, h: nat)
    ensures var r := Register(Register(Register(index, c.start, h), c.start + 1, h), c.start + 2, h);
      && r.Keys == index.Keys + {c.start, c.start + 1, c.start + 2}
      && (forall q :: q in r && Covers(c, q) ==> r[q] == (if q in index then index[q] else []) + [h])
      && (forall q :: q in index && !Covers(c, q) ==> r[q] == index[q])
      && (forall q :: q in index ==> index[q] <= r[q])
  {
    var r := Register(Register(Register(index, c.start, h), c.start + 1, h), c.start + 2, h);
    forall q
      ensures q in r ==> r[q] == (if q in index then index[q] else []) + (if Covers(c, q) then [h] else [])
    {
      RegisterThreeAt(index, c, h, q);
    }
  }

  /** The same, at one position `q`. */
  lemma RegisterThreeAt(index: map<int, seq<nat>>, c: Codon, h: nat, q: int)
    ensures var r := Register(Register(Register(index, c.start, h), c.start + 1, h), c.start + 2, h);
      q in r ==> r[q] == (if q in index then index[q] else []) + (if Covers(c, q) then [h] else [])
  {
    var r1 := Register(index, c.start, h);
    var r2 := Register(r1, c.start + 1, h);
    var r := Register(r2, c.start + 2, h);
    if q in r && !Covers(c, q) {
      assert r[q] == r2[q] == r1[q] == index[q];
      assert index[q] + [] == index[q];
    }
  }

  /** The map after registering `c` at its three positions is the index of
      the arena with `c` appended. */
  lemma AddCodonIndex(codons: seq<Codon>, index: map<int, seq<nat>>, c: Codon, index': map<int, seq<nat>>)
    requires IndexOk(codons, index)
    requires index'.Keys == index.Keys + {c.start, c.start + 1, c.start + 2}
    requires forall q :: q in index' && Covers(c, q) ==> index'[q] == (if q in index then index[q] else []) + [|codons|]
    requires forall q :: q in index && !Covers(c, q) ==> index'[q] == index[q]
    ensures IndexOk(codons + [c], index')
    ensures forall p :: p in index' ==> (|codons| in index'[p] <==> c.start <= p <= c.start + 2)
  {
    var h := |codons|;
    var codons' := codons + [c];
    forall q ensures MappedAt(codons', index', q) {
      AddCodonAt(codons, index, c, index', q);
    }
    forall h' | 0 <= h' < |codons'| ensures Spanned(index', codons'[h']) {
      if h' < h { assert codons'[h'] == codons[h'] && Spanned(index, codons[h']); }
    }
    forall q | q in index' ensures (h in index'[q] <==> c.start <= q <= c.start + 2) {
      assert MappedAt(codons', index', q);
      assert codons'[h] == c;
      CoveringSpec(codons', q);
    }
  }

  lemma AddCodonCovering(codons: seq<Codon>, c: Codon, q: int)
    ensures Covering(codons + [c], q) == Covering(codons, q) + (if Covers(c, q) then [|codons|] else [])
  {
    assert (codons + [c])[..|codons|] == codons;
  }

  lemma AddCodonAt(codons: seq<Codon>, index: map<int, seq<nat>>, c: Codon, index': map<int, seq<nat>>, q: int)
    requires IndexOk(codons, index)
    requires index'.Keys == index.Keys + {c.start, c.start + 1, c.start + 2}
    requires q in index' && Covers(c, q) ==> index'[q] == (if q in index then index[q] else []) + [|codons|]
    requires q in index && !Covers(c, q) ==> index'[q] == index[q]
    ensures MappedAt(codons + [c], index', q)
  {
    AddCodonCovering(codons, c, q);
    assert MappedAt(codons, index, q);
    if q !in index {
      UnindexedUncovered(codons, index, q);
    }
  }

  /** The bases at `p`, `p + 1`, `p + 2` of the reference. */
  function Triplet(reference: string, p: int): string
  {
    if 0 <= p && p + 3 <= |reference| then reference[p..p + 3] else ""
  }

  function MakeCodon(s: Slot, reference: string): Codon
  {
    Codon(s.gene, s.number, s.start, Triplet(reference, s.start))
  }

  /** The arena the slots describe, each codon read from the unmutated reference. */
  function Realize(slots: seq<Slot>, reference: string): (r: seq<Codon>)
    ensures |r| == |slots|
  {
    seq(|slots|, k requires 0 <= k < |slots| => MakeCodon(slots[k], reference))
  }

  lemma RealizeAppend(a: seq<Slot>, b: seq<Slot>, reference: string)
    ensures Realize(a + b, reference) == Realize(a, reference) + Realize(b, reference)
  {
    var l, r := Realize(a + b, reference), Realize(a, reference) + Realize(b, reference);
    forall k | 0 <= k < |l| ensures l[k] == r[k] {
      if k < |a| { assert (a + b)[k] == a[k]; } else { assert (a + b)[k] == b[k - |a|]; }
    }
  }

  /** Appending the codons of `more` to an arena built from `slots`. */
  lemma RealizeGrows(base: seq<Codon>, slots: seq<Slot>, more: seq<Slot>, reference: string,
                     before: seq<Codon>, after: seq<Codon>)
    requires before == base + Realize(slots, reference)
    requires after == before + Realize(more, reference)
    ensures after == base + Realize(slots + more, reference)
  {
    RealizeAppend(slots, more, reference);
  }

  /** Every codon holds the three reference bases from its start on. */
  predicate ReadFrom(codons: seq<Codon>, reference: string)
  {
    forall h :: 0 <= h < |codons| ==>
      0 <= codons[h].start && codons[h].start + 3 <= |reference| &&
      codons[h].triplet == reference[codons[h].start..codons[h].start + 3]
  }

  lemma RealizeReads(slots: seq<Slot>, reference: string)
    requires InReference(slots, |reference|)
    ensures ReadFrom(Realize(slots, reference), reference)
  {
  }

  /** The codon loop over one CDS segment (lines 67-101 and 110-139). */
  method AddSegment(codons: seq<Codon>, index: map<int, seq<nat>>, reference: string,
                    gene: string, counter: nat, lo: int, stop: int)
    returns (codons': seq<Codon>, index': map<int, seq<nat>>, counter': nat)
    requires IndexOk(codons, index) && SegmentFits(|reference|, lo, stop)
    ensures IndexOk(codons', index')
    ensures codons' == codons + Realize(SegmentSlots(gene, counter, lo, stop), reference)
    ensures counter' == counter + |SegmentSlots(gene, counter, lo, stop)|
    ensures forall p :: p in index ==> p in index' && index[p] <= index'[p]
  {
    codons', index', counter' := codons, index, counter;
    var pos := lo;
    ghost var added: seq<Slot> := [];
    while pos < stop
      invariant IndexOk(codons', index')
      invariant pos == lo + 3 * |added| && counter' == counter + |added|
      invariant SegmentSlots(gene, counter, lo, stop) == added + SegmentSlots(gene, counter', pos, stop)
      invariant codons' == codons + Realize(added, reference)
      invariant forall p :: p in index ==> p in index' && index[p] <= index'[p]
      decreases stop - pos
    {
      FitsAt(|reference|, lo, stop, |added|);
      var nt := [reference[pos], reference[pos + 1], reference[pos + 2]];
      var c := Codon(gene, counter', pos, nt);
      ghost var before := codons';
      codons', index' := AddCodon(codons', index', c);
      SegmentAdvance(gene, counter, lo, stop, counter', pos, added, reference, codons, before, codons');
      added := added + [Slot(gene, counter', pos)];
      counter' := counter' + 1;
      pos := pos + 3;
    }
  }

  /** One turn of the codon loop moves codon `pos` from the part of the
      segment still to scan to the part already built. */
  lemma SegmentAdvance(gene: string, counter: nat, lo: int, stop: int, c: nat, pos: int,
                       added: seq<Slot>, reference: string, codons: seq<Codon>, before: seq<Codon>, after: seq<Codon>)
    requires pos < stop && 0 <= pos && pos + 3 <= |reference|
    requires SegmentSlots(gene, counter, lo, stop) == added + SegmentSlots(gene, c, pos, stop)
    requires before == codons + Realize(added, reference)
    requires after == before + [Codon(gene, c, pos, [reference[pos], reference[pos + 1], reference[pos + 2]])]
    ensures SegmentSlots(gene, counter, lo, stop) == (added + [Slot(gene, c, pos)]) + SegmentSlots(gene, c + 1, pos + 3, stop)
    ensures after == codons + Realize(added + [Slot(gene, c, pos)], reference)
  {
    var slot := Slot(gene, c, pos);
    assert SegmentSlots(gene, c, pos, stop) == [slot] + SegmentSlots(gene, c + 1, pos + 3, stop);
    assert added + ([slot] + SegmentSlots(gene, c + 1, pos + 3, stop)) == (added + [slot]) + SegmentSlots(gene, c + 1, pos + 3, stop);
    assert MakeCodon(slot, reference) == after[|after| - 1];
    RealizeGrows(codons, added, [slot], reference, before, after);
  }

  /** The result of a successful build: the arena and the position index. */
  datatype CodonTable = CodonTable(codons: seq<Codon>, index: map<int, seq<nat>>)

  lemma PrependAssoc(a: seq<Slot>, b: seq<Slot>, r: Result<seq<Slot>>)
    ensures Prepend(a, Prepend(b, r)) == Prepend(a + b, r)
  {
    match r
    case Ok(v) => assert a + (b + v) == (a + b) + v;
    case Err(_) =>
  }

  /** The row is readable and, if a CDS, its codons lie in the reference. */
  predicate RowFits(line: string, refLength: nat)
  {
    Readable(line) && (IsCds(line) ==> SegmentFits(refLength, Start(line) - 1, Stop(line)))
  }

  /** What the inner scan demands of every row once some gene is built. */
  predicate GeneRowsOk(lines: seq<string>, refLength: nat)
  {
    && AllReadable(lines)
    && forall k {:trigger RowFits(lines[k], refLength)} :: 0 <= k < |lines| ==> RowFits(lines[k], refLength)
  }

  lemma ProcessedRows(lines: seq<string>, refLength: nat, k: nat)
    requires RowsOk(lines, refLength) && k < |lines| && Processed(lines[k])
    ensures GeneRowsOk(lines, refLength)
  {
    ProcessedReadable(lines, refLength, k);
    forall j | 0 <= j < |lines| ensures RowFits(lines[j], refLength) {
      assert Readable(lines[j]);
    }
  }

  /** One gene: its first CDS segment, then the inner scan over every row
      for further CDS segments of the gene with a different start
      (lines 64-142). */
  method BuildGene(lines: seq<string>, line: string, reference: string,
                   codons: seq<Codon>, index: map<int, seq<nat>>)
    returns (codons': seq<Codon>, index': map<int, seq<nat>>)
    requires GeneRowsOk(lines, |reference|)
    requires NumbersOk(line) && IsCds(line) && SegmentFits(|reference|, Start(line) - 1, Stop(line))
    requires IndexOk(codons, index)
    ensures IndexOk(codons', index')
    ensures codons' == codons + Realize(GeneSlots(lines, line), reference)
  {
    var gene, firstStart, firstStop := ReadRow(line);
    var counter;
    codons', index', counter := AddSegment(codons, index, reference, gene, 0, firstStart - 1, firstStop);
    ghost var head := SegmentSlots(gene, 0, firstStart - 1, firstStop);
    ghost var inner := InnerFrom(Infos(lines), 0, gene, firstStart, |head|);
    assert GeneSlots(lines, line) == head + inner;
    ghost var mid := codons';
    codons', index', counter := ScanRows(lines, reference, gene, firstStart, codons', index', counter);
    RealizeGrows(codons, head, inner, reference, mid, codons');
  }

  /** The inner scan over every row of the file (lines 103-141). */
  method ScanRows(lines: seq<string>, reference: string, gene: string, firstStart: int,
                  codons: seq<Codon>, index: map<int, seq<nat>>, counter: nat)
    returns (codons': seq<Codon>, index': map<int, seq<nat>>, counter': nat)
    requires GeneRowsOk(lines, |reference|)
    requires IndexOk(codons, index)
    ensures IndexOk(codons', index')
    ensures codons' == codons + Realize(InnerFrom(Infos(lines), 0, gene, firstStart, counter), reference)
  {
    codons', index', counter' := codons, index, counter;
    ghost var rows := Infos(lines);
    ghost var inner: seq<Slot> := [];
    var j := 0;
    while j < |lines|
      invariant 0 <= j <= |lines|
      invariant Scanned(rows, reference, gene, firstStart, codons, counter, j, codons', index', counter', inner)
    {
      codons', index', counter', inner := ScanStep(lines, rows, reference, gene, firstStart, codons, counter, j, codons', index', counter', inner);
      j := j + 1;
    }
    assert inner + [] == inner;
  }

  /** The inner scan after `j` rows: the codons of the slots `inner` added,
      and the rest of the specification still to come. */
  ghost predicate Scanned(rows: seq<RowInfo>, reference: string, gene: string, firstStart: int,
                          codons0: seq<Codon>, counter0: nat, j: nat,
                          codons: seq<Codon>, index: map<int, seq<nat>>, counter: nat, inner: seq<Slot>)
  {
    && j <= |rows|
    && counter == counter0 + |inner|
    && IndexOk(codons, index)
    && InnerFrom(rows, 0, gene, firstStart, counter0) == inner + InnerFrom(rows, j, gene, firstStart, counter)
    && codons == codons0 + Realize(inner, reference)
  }

  /** One row of the inner scan. */
  method ScanStep(lines: seq<string>, ghost rows: seq<RowInfo>, reference: string, gene: string, firstStart: int,
                  ghost codons0: seq<Codon>, ghost counter0: nat, j: nat,
                  codons: seq<Codon>, index: map<int, seq<nat>>, counter: nat, ghost inner: seq<Slot>)
    returns (codons': seq<Codon>, index': map<int, seq<nat>>, counter': nat, ghost inner': seq<Slot>)
    requires GeneRowsOk(lines, |reference|) && rows == Infos(lines) && j < |lines|
    requires Scanned(rows, reference, gene, firstStart, codons0, counter0, j, codons, index, counter, inner)
    ensures Scanned(rows, reference, gene, firstStart, codons0, counter0, j + 1, codons', index', counter', inner')
  {
    RowFitsAt(lines, |reference|, j);
    InfosAt(lines, j);
    codons', index', counter' := ScanRow(lines[j], rows[j], reference, gene, firstStart, codons, index, counter);
    inner' := inner + RowSlots(rows[j], gene, firstStart, counter);
    ScannedStep(rows, reference, gene, firstStart, codons0, counter0, j, codons, index, counter, inner,
                codons', index', counter');
  }

  lemma ScannedStep(rows: seq<RowInfo>, reference: string, gene: string, firstStart: int,
                    codons0: seq<Codon>, counter0: nat, j: nat,
                    codons: seq<Codon>, index: map<int, seq<nat>>, counter: nat, inner: seq<Slot>,
                    codons': seq<Codon>, index': map<int, seq<nat>>, counter': nat)
    requires j < |rows|
    requires Scanned(rows, reference, gene, firstStart, codons0, counter0, j, codons, index, counter, inner)
    requires IndexOk(codons', index')
    requires codons' == codons + Realize(RowSlots(rows[j], gene, firstStart, counter), reference)
    requires counter' == counter + |RowSlots(rows[j], gene, firstStart, counter)|
    ensures Scanned(rows, reference, gene, firstStart, codons0, counter0, j + 1, codons', index', counter',
                    inner + RowSlots(rows[j], gene, firstStart, counter))
  {
    ScanAdvance(rows, j, gene, firstStart, counter0, counter, inner, reference, codons0, codons, codons');
  }

  /** One row of the inner scan, on the specification side. */
  lemma ScanAdvance(rows: seq<RowInfo>, j: nat, gene: string, firstStart: int, counter: nat, c: nat,
                    inner: seq<Slot>, reference: string, codons: seq<Codon>, before: seq<Codon>, after: seq<Codon>)
    requires j < |rows|
    requires InnerFrom(rows, 0, gene, firstStart, counter) == inner + InnerFrom(rows, j, gene, firstStart, c)
    requires before == codons + Realize(inner, reference)
    requires after == before + Realize(RowSlots(rows[j], gene, firstStart, c), reference)
    ensures var row := RowSlots(rows[j], gene, firstStart, c);
      && InnerFrom(rows, 0, gene, firstStart, counter) == (inner + row) + InnerFrom(rows, j + 1, gene, firstStart, c + |row|)
      && after == codons + Realize(inner + row, reference)
  {
    InnerFromAdvance(rows, j, gene, firstStart, counter, c, inner);
    RealizeGrows(codons, inner, RowSlots(rows[j], gene, firstStart, c), reference, before, after);
  }

  lemma RowFitsAt(lines: seq<string>, refLength: nat, j: nat)
    requires GeneRowsOk(lines, refLength) && j < |lines|
    ensures RowFits(lines[j], refLength)
  {
  }

  /** The gene, start and stop of a CDS row (`split` on tabs, then on quotes). */
  method ReadRow(line: string) returns (gene: string, start: int, stop: int)
    requires NumbersOk(line)
    ensures gene == Gene(line) && start == Start(line) && stop == Stop(line)
  {
    var fields := Split(line, '\t');
    var quoted := Split(fields[8], '"');
    var parts := Split(quoted[1], '"');
    gene := parts[0];
    start := ParseNat(fields[3]);
    stop := ParseNat(fields[4]);
  }

  /** One step of the inner scan: a CDS row of the same gene with a start
      other than the first segment's adds its codons (lines 103-141). */
  method ScanRow(line: string, ghost row: RowInfo, reference: string, gene: string, firstStart: int,
                 codons: seq<Codon>, index: map<int, seq<nat>>, counter: nat)
    returns (codons': seq<Codon>, index': map<int, seq<nat>>, counter': nat)
    requires RowFits(line, |reference|) && row == Info(line)
    requires IndexOk(codons, index)
    ensures IndexOk(codons', index')
    ensures codons' == codons + Realize(RowSlots(row, gene, firstStart, counter), reference)
    ensures counter' == counter + |RowSlots(row, gene, firstStart, counter)|
  {
    codons', index', counter' := codons, index, counter;
    var fields := Split(line, '\t');
    var feature := fields[2];
    var quoted := Split(fields[8], '"');
    var parts := Split(quoted[1], '"');
    var innerGene := parts[0];
    if feature == "CDS" && gene == innerGene {
      var innerStart := ParseNat(fields[3]);
      var innerStop := ParseNat(fields[4]);
      if innerStart != firstStart {
        codons', index', counter' := AddSegment(codons, index, reference, gene, counter, innerStart - 1, innerStop);
      }
    }
    assert RowSlots(row, gene, firstStart, counter) == [] ==> codons + Realize([], reference) == codons;
  }

  /** `build_codon_map` over the rows of the GTF file and the reference. */
  method BuildCodonMap(lines: seq<string>, reference: string) returns (r: Result<CodonTable>)
    requires RowsOk(lines, |reference|)
    ensures r.Err? <==> Plan(lines, |reference|).Err?
    ensures r.Err? ==> r.message == MalformedGtf
    ensures r.Ok? ==> r.value.codons == Realize(Plan(lines, |reference|).value, reference)
    ensures r.Ok? ==> IndexOk(r.value.codons, r.value.index)
    ensures r.Ok? ==> ReadFrom(r.value.codons, reference)
  {
    PlanFromFails(lines, |reference|, 0, []);
    assert Prepend([], Plan(lines, |reference|)) == Plan(lines, |reference|) by {
      match Plan(lines, |reference|)
      case Ok(v) => assert [] + v == v;
      case Err(_) =>
    }
    var codons: seq<Codon> := [];
    var index: map<int, seq<nat>> := map[];
    var done: seq<string> := [];
    ghost var slots: seq<Slot> := [];
    var k := 0;
    while k < |lines|
      invariant 0 <= k <= |lines|
      invariant Built(lines, reference, k, done, codons, index, slots)
    {
      var failed;
      failed, done, codons, index, slots := BuildStep(lines, reference, k, done, codons, index, slots);
      if failed {
        return Err(MalformedGtf);
      }
      k := k + 1;
    }
    assert PlanFrom(lines, |reference|, k, done) == Ok([]) && slots + [] == slots;
    PlanFromInReference(lines, |reference|, 0, []);
    RealizeReads(slots, reference);
    return Ok(CodonTable(codons, index));
  }

  /** The outer scan after `k` rows: the codons of the slots `slots` built,
      and the rest of the plan still to come. */
  ghost predicate Built(lines: seq<string>, reference: string, k: nat, done: seq<string>,
                        codons: seq<Codon>, index: map<int, seq<nat>>, slots: seq<Slot>)
    requires RowsOk(lines, |reference|)
  {
    && IndexOk(codons, index)
    && codons == Realize(slots, reference)
    && Plan(lines, |reference|) == Prepend(slots, PlanFrom(lines, |reference|, k, done))
  }

  /** One row of the outer scan (lines 60-145): skipped, rejected, or the
      start of a gene not built yet. */
  method BuildStep(lines: seq<string>, reference: string, k: nat, done: seq<string>,
                   codons: seq<Codon>, index: map<int, seq<nat>>, ghost slots: seq<Slot>)
    returns (failed: bool, done': seq<string>, codons': seq<Codon>, index': map<int, seq<nat>>, ghost slots': seq<Slot>)
    requires RowsOk(lines, |reference|) && k < |lines|
    requires Built(lines, reference, k, done, codons, index, slots)
    ensures failed ==> Plan(lines, |reference|).Err? && Plan(lines, |reference|).message == MalformedGtf
    ensures !failed ==> Built(lines, reference, k + 1, done', codons', index', slots')
  {
    failed, done', codons', index', slots' := false, done, codons, index, slots;
    var line := lines[k];
    if line != [] && (line[0] == '#' || line[0] == '\n') {
      return;
    }
    var fields := Split(line, '\t');
    if |fields| <= 1 {
      return;
    }
    if !(|fields[8]| >= 7 && fields[8][..7] == "gene_id") {
      PlanFromFails(lines, |reference|, k, done);
      return true, done, codons, index, slots;
    }
    var feature := fields[2];
    var quoted := Split(fields[8], '"');
    var geneParts := Split(quoted[1], '"');
    var gene := geneParts[0];
    if feature != "CDS" || gene in done {
      return;
    }
    ProcessedRows(lines, |reference|, k);
    done' := done + [gene];
    codons', index' := BuildGene(lines, line, reference, codons, index);
    ghost var added := GeneSlots(lines, line);
    RealizeAppend(slots, added, reference);
    PrependAssoc(slots, added, PlanFrom(lines, |reference|, k + 1, done'));
    slots' := slots + added;
  }

  /** The genome positions some codon of the arena spans. */
  function Spots(codons: seq<Codon>): set<int>
  {
    set h, p | 0 <= h < |codons| && p in Span(codons[h]) :: p
  }

  function Span(c: Codon): set<int>
  {
    {c.start, c.start + 1, c.start + 2}
  }

  /** The position index an arena determines. */
  function IndexOf(codons: seq<Codon>): map<int, seq<nat>>
  {
    map p | p in Spots(codons) :: Covering(codons, p)
  }

  /** The index is a function of the arena: any map satisfying `IndexOk`
      is `IndexOf` of it. */
  lemma IndexDetermined(codons: seq<Codon>, index: map<int, seq<nat>>)
    requires IndexOk(codons, index)
    ensures index == IndexOf(codons)
  {
    var other := IndexOf(codons);
    assert other.Keys == Spots(codons);
    forall p ensures p in index <==> p in Spots(codons) {
      IndexDeterminedAt(codons, index, p);
    }
    forall p | p in index ensures index[p] == other[p] {
      IndexDeterminedAt(codons, index, p);
    }
    MapsEqual(index, other);
  }

  lemma IndexDeterminedAt(codons: seq<Codon>, index: map<int, seq<nat>>, p: int)
    requires IndexOk(codons, index)
    ensures p in index <==> p in Spots(codons)
    ensures p in index ==> index[p] == Covering(codons, p)
  {
    assert MappedAt(codons, index, p);
    if p in index {
      CoveringSpec(codons, p);
      var h := Covering(codons, p)[0];
      assert h in Covering(codons, p);
      assert p in Span(codons[h]);
    }
    if p in Spots(codons) {
      var h :| 0 <= h < |codons| && p in Span(codons[h]);
      assert Spanned(index, codons[h]);
    }
  }

  lemma MapsEqual(a: map<int, seq<nat>>, b: map<int, seq<nat>>)
    requires forall p :: p in a <==> p in b
    requires forall p :: p in a ==> a[p] == b[p]
    ensures a == b
  {
    forall p ensures p in a.Keys <==> p in b.Keys {
      assert p in a <==> p in b;
    }
    assert a.Keys == b.Keys;
    forall p | p in a.Keys ensures a[p] == b[p] {
      assert p in a;
    }
  }
}
