// The gene model as `build_codon_map` reads it: tab-separated GTF rows, and
// the codons (gene, number, genome start) the rows call for, in the order the
// builder creates them.
module Gtf {
  import opened Text

  datatype Result<T> = Ok(value: T) | Err(message: string)

  const MalformedGtf := "ERROR: GTF file formatted incorrectly. Please see the wiki for details.\n"

  /** Identity and placement of one codon: its gene, its 0-based number within
      the gene and the 0-based genome position of its first base. */
  datatype Slot = Slot(gene: string, number: nat, start: int)

  function Fields(line: string): seq<string>
  {
    Pieces(line, '\t')
  }

  /** Rows the outer scan passes over: comments, lines read as starting with a
      newline, and rows with at most one field. */
  predicate OuterSkipped(line: string)
  {
    (line != [] && (line[0] == '#' || line[0] == '\n')) || |Fields(line)| <= 1
  }

  /** `attr.substr(0, 7) == "gene_id"`. */
  predicate HasGeneId(attr: string)
  {
    |attr| >= 7 && attr[..7] == "gene_id"
  }

  /** The attribute has a first quoted value that `split` can index. */
  predicate GeneOk(attr: string)
  {
    |Pieces(attr, '"')| >= 2 && |Pieces(Pieces(attr, '"')[1], '"')| >= 1
  }

  /** `split(split(attr, '"')[1], '"')[0]`. */
  function GeneOf(attr: string): string
    requires GeneOk(attr)
  {
    Pieces(Pieces(attr, '"')[1], '"')[0]
  }

  /** The gene name is the text between the first two double quotes. */
  lemma GeneOfIsQuoted(attr: string)
    requires GeneOk(attr)
    ensures GeneOf(attr) == Pieces(attr, '"')[1]
  {
    PiecesNoDelimiter(attr, '"');
    var q := Pieces(attr, '"')[1];
    CutPlain([], q, '"');
    assert [] + q == q;
  }

  /** The inner scan reads fields 2, 3, 4 and 8 of every row. */
  predicate Indexable(line: string)
  {
    |Fields(line)| >= 9 && GeneOk(Fields(line)[8])
  }

  predicate IsCds(line: string)
    requires Indexable(line)
  {
    Fields(line)[2] == "CDS"
  }

  function Gene(line: string): string
    requires Indexable(line)
  {
    GeneOf(Fields(line)[8])
  }

  predicate NumbersOk(line: string)
  {
    Indexable(line) && IsNumeral(Fields(line)[3]) && IsNumeral(Fields(line)[4])
  }

  /** 1-based first base of the segment (`stoi(fields[3])`). */
  function Start(line: string): int
    requires NumbersOk(line)
  {
    ParseNat(Fields(line)[3])
  }

  /** 1-based last base of the segment (`stoi(fields[4])`). */
  function Stop(line: string): int
    requires NumbersOk(line)
  {
    ParseNat(Fields(line)[4])
  }

  /** A row the outer scan turns into a gene: not skipped, `gene_id`
      attribute, feature `CDS`. */
  predicate Processed(line: string)
  {
    !OuterSkipped(line) && |Fields(line)| >= 9 && HasGeneId(Fields(line)[8]) && Fields(line)[2] == "CDS"
  }

  /** Every codon of the segment whose 0-based frame starts at `lo` lies
      inside the reference: the codon loop reads three bases from each start
      `lo, lo + 3, ...` below `stop`. */
  predicate SegmentFits(refLength: nat, lo: int, stop: int)
  {
    lo >= stop || (0 <= lo && lo + 3 * ((stop - lo - 1) / 3) + 3 <= refLength)
  }

  /** What the builder demands of its input without checking it. */
  predicate RowsOk(lines: seq<string>, refLength: nat)
  {
    && (forall k :: 0 <= k < |lines| && !OuterSkipped(lines[k]) ==>
          |Fields(lines[k])| >= 9 && (HasGeneId(Fields(lines[k])[8]) ==> GeneOk(Fields(lines[k])[8])))
    && ((exists k :: 0 <= k < |lines| && Processed(lines[k])) ==>
          forall k :: 0 <= k < |lines| ==> Indexable(lines[k]))
    && (forall k :: 0 <= k < |lines| && Indexable(lines[k]) && IsCds(lines[k]) ==>
          NumbersOk(lines[k]) && SegmentFits(refLength, Start(lines[k]) - 1, Stop(lines[k])))
  }

  /** The codons of one CDS segment: starts `lo, lo + 3, ...` below `stop`,
      numbered on from `counter`. */
  function SegmentSlots(gene: string, counter: nat, lo: int, stop: int): seq<Slot>
    decreases stop - lo
  {
    if lo >= stop then [] else [Slot(gene, counter, lo)] + SegmentSlots(gene, counter + 1, lo + 3, stop)
  }

  /** Codon `k` of a segment starts `3 * k` bases after the segment's first
      base and is numbered `counter + k`; the starts are exactly those below
      `stop`. */
  lemma {:induction false} SegmentSlotsShape(gene: string, counter: nat, lo: int, stop: int)
    ensures var r := SegmentSlots(gene, counter, lo, stop);
      && (forall k :: 0 <= k < |r| ==> r[k] == Slot(gene, counter + k, lo + 3 * k))
      && (forall k :: 0 <= k < |r| ==> r[k].start < stop)
      && lo + 3 * |r| >= stop
    decreases stop - lo
  {
    if lo < stop {
      SegmentSlotsShape(gene, counter + 1, lo + 3, stop);
      var r := SegmentSlots(gene, counter, lo, stop);
      var rest := SegmentSlots(gene, counter + 1, lo + 3, stop);
      forall k | 0 <= k < |r| ensures r[k] == Slot(gene, counter + k, lo + 3 * k) {
        if k > 0 { assert r[k] == rest[k - 1]; }
      }
    }
  }

  /** The inner scan can read the row: fields 2 and 8 always, and fields 3
      and 4 as numbers when the row is a CDS. */
  predicate Readable(line: string)
  {
    Indexable(line) && (IsCds(line) ==> NumbersOk(line))
  }

  predicate AllReadable(lines: seq<string>)
  {
    forall k {:trigger Readable(lines[k])} :: 0 <= k < |lines| ==> Readable(lines[k])
  }

  /** Once some row is processed, the inner scans read every row. */
  lemma ProcessedReadable(lines: seq<string>, refLength: nat, k: nat)
    requires RowsOk(lines, refLength) && k < |lines| && Processed(lines[k])
    ensures AllReadable(lines)
  {
    forall j | 0 <= j < |lines| ensures Readable(lines[j]) {
      assert Indexable(lines[j]);
    }
  }

  /** What the inner scan reads from a row: whether it is a CDS, its gene
      and, for a CDS, its 1-based start and stop. An unreadable row (one the
      scan would crash on) reads as a non-CDS row. */
  datatype RowInfo = RowInfo(cds: bool, gene: string, start: int, stop: int)

  function Info(line: string): (r: RowInfo)
    ensures Readable(line) ==> r.cds == IsCds(line) && r.gene == Gene(line)
    ensures Readable(line) && IsCds(line) ==> r.start == Start(line) && r.stop == Stop(line)
  {
    if !Readable(line) then RowInfo(false, "", 0, 0)
    else if IsCds(line) then RowInfo(true, Gene(line), Start(line), Stop(line))
    else RowInfo(false, Gene(line), 0, 0)
  }

  /** The rows of the file as the inner scan reads them. */
  function Infos(lines: seq<string>): (r: seq<RowInfo>)
    ensures |r| == |lines|
  {
    if lines == [] then [] else [Info(lines[0])] + Infos(lines[1..])
  }

  lemma {:induction false} InfosAt(lines: seq<string>, j: nat)
    requires j < |lines|
    ensures Infos(lines)[j] == Info(lines[j])
  {
    if j > 0 {
      InfosAt(lines[1..], j - 1);
    }
  }

  /** Does the inner scan build codons from this row for `gene`? */
  predicate InnerRow(row: RowInfo, gene: string, firstStart: int)
  {
    row.cds && row.gene == gene && row.start != firstStart
  }

  /** The codons the inner scan adds for one row. */
  function RowSlots(row: RowInfo, gene: string, firstStart: int, counter: nat): (r: seq<Slot>)
  {
    if InnerRow(row, gene, firstStart) then SegmentSlots(gene, counter, row.start - 1, row.stop) else []
  }

  lemma RowSlotsNumbering(row: RowInfo, gene: string, firstStart: int, counter: nat)
    ensures forall k :: 0 <= k < |RowSlots(row, gene, firstStart, counter)| ==>
      RowSlots(row, gene, firstStart, counter)[k].gene == gene &&
      RowSlots(row, gene, firstStart, counter)[k].number == counter + k
  {
    SegmentSlotsShape(gene, counter, row.start - 1, row.stop);
  }

  /** The codons the inner scan adds from row `j` on, scanning the rows in
      file order and numbering on from `counter`. */
  function InnerFrom(rows: seq<RowInfo>, j: nat, gene: string, firstStart: int, counter: nat): (r: seq<Slot>)
    decreases |rows| - j
  {
    if j >= |rows| then []
    else
      var here := RowSlots(rows[j], gene, firstStart, counter);
      here + InnerFrom(rows, j + 1, gene, firstStart, counter + |here|)
  }

  /** The inner scan only makes codons of `gene`, numbered on from `counter`
      without gaps. */
  lemma {:induction false} InnerFromNumbering(rows: seq<RowInfo>, j: nat, gene: string, firstStart: int, counter: nat)
    ensures forall k :: 0 <= k < |InnerFrom(rows, j, gene, firstStart, counter)| ==>
      InnerFrom(rows, j, gene, firstStart, counter)[k].gene == gene &&
      InnerFrom(rows, j, gene, firstStart, counter)[k].number == counter + k
    decreases |rows| - j
  {
    if j < |rows| {
      var here := RowSlots(rows[j], gene, firstStart, counter);
      RowSlotsNumbering(rows[j], gene, firstStart, counter);
      InnerFromNumbering(rows, j + 1, gene, firstStart, counter + |here|);
      var rest := InnerFrom(rows, j + 1, gene, firstStart, counter + |here|);
      var r := here + rest;
      forall k | 0 <= k < |r| ensures r[k].gene == gene && r[k].number == counter + k {
        if k < |here| { assert r[k] == here[k]; } else { assert r[k] == rest[k - |here|]; }
      }
    }
  }

  /** Scanning row `j` moves its codons from the part still to scan to the
      part already scanned. */
  lemma InnerFromAdvance(rows: seq<RowInfo>, j: nat, gene: string, firstStart: int,
                         counter: nat, c: nat, inner: seq<Slot>)
    requires j < |rows|
    requires InnerFrom(rows, 0, gene, firstStart, counter) == inner + InnerFrom(rows, j, gene, firstStart, c)
    ensures var here := RowSlots(rows[j], gene, firstStart, c);
      InnerFrom(rows, 0, gene, firstStart, counter) == (inner + here) + InnerFrom(rows, j + 1, gene, firstStart, c + |here|)
  {
    var here := RowSlots(rows[j], gene, firstStart, c);
    var rest := InnerFrom(rows, j + 1, gene, firstStart, c + |here|);
    InnerFromUnfold(rows, j, gene, firstStart, c);
    assert inner + (here + rest) == (inner + here) + rest;
  }

  lemma InnerFromUnfold(rows: seq<RowInfo>, j: nat, gene: string, firstStart: int, c: nat)
    requires j < |rows|
    ensures var here := RowSlots(rows[j], gene, firstStart, c);
      InnerFrom(rows, j, gene, firstStart, c) == here + InnerFrom(rows, j + 1, gene, firstStart, c + |here|)
  {
  }

  /** All codons of the gene whose first CDS row is `first`: that segment,
      then every other CDS row of the gene with a different start. */
  function GeneSlots(lines: seq<string>, first: string): (r: seq<Slot>)
    requires NumbersOk(first) && IsCds(first)
  {
    var g := Gene(first);
    var head := SegmentSlots(g, 0, Start(first) - 1, Stop(first));
    head + InnerFrom(Infos(lines), 0, g, Start(first), |head|)
  }

  /** A gene's codons are its own, numbered 0, 1, 2, ... */
  lemma GeneSlotsNumbering(lines: seq<string>, first: string)
    requires NumbersOk(first) && IsCds(first)
    ensures var r := GeneSlots(lines, first);
      forall k :: 0 <= k < |r| ==> r[k].gene == Gene(first) && r[k].number == k
  {
    var g := Gene(first);
    var head := SegmentSlots(g, 0, Start(first) - 1, Stop(first));
    var inner := InnerFrom(Infos(lines), 0, g, Start(first), |head|);
    InnerFromNumbering(Infos(lines), 0, g, Start(first), |head|);
    SegmentSlotsShape(g, 0, Start(first) - 1, Stop(first));
    var r := head + inner;
    forall k | 0 <= k < |r| ensures r[k].gene == g && r[k].number == k {
      if k < |head| { assert r[k] == head[k]; } else { assert r[k] == inner[k - |head|]; }
    }
  }

  function Prepend(xs: seq<Slot>, r: Result<seq<Slot>>): Result<seq<Slot>>
  {
    match r
    case Ok(v) => Ok(xs + v)
    case Err(e) => Err(e)
  }

  /** The codons `build_codon_map` creates from row `k` on, with the genes in
      `done` already built, or the fatal error. */
  function PlanFrom(lines: seq<string>, refLength: nat, k: nat, done: seq<string>): Result<seq<Slot>>
    requires RowsOk(lines, refLength)
    decreases |lines| - k
  {
    if k >= |lines| then Ok([])
    else
      var line := lines[k];
      if OuterSkipped(line) then PlanFrom(lines, refLength, k + 1, done)
      else if !HasGeneId(Fields(line)[8]) then Err(MalformedGtf)
      else if Fields(line)[2] != "CDS" then PlanFrom(lines, refLength, k + 1, done)
      else if Gene(line) in done then PlanFrom(lines, refLength, k + 1, done)
      else
        assert Processed(lines[k]);
        Prepend(GeneSlots(lines, line), PlanFrom(lines, refLength, k + 1, done + [Gene(line)]))
  }

  function Plan(lines: seq<string>, refLength: nat): Result<seq<Slot>>
    requires RowsOk(lines, refLength)
  {
    PlanFrom(lines, refLength, 0, [])
  }

  /** A row the outer scan reaches and rejects. */
  predicate Malformed(line: string)
  {
    !OuterSkipped(line) && |Fields(line)| >= 9 && !HasGeneId(Fields(line)[8])
  }

  /** The build fails exactly when some row is malformed. */
  lemma {:induction false} PlanFromFails(lines: seq<string>, refLength: nat, k: nat, done: seq<string>)
    requires RowsOk(lines, refLength)
    ensures PlanFrom(lines, refLength, k, done).Err? <==>
            exists j :: k <= j < |lines| && Malformed(lines[j])
    ensures PlanFrom(lines, refLength, k, done).Err? ==> PlanFrom(lines, refLength, k, done).message == MalformedGtf
    decreases |lines| - k
  {
    if k < |lines| {
      var line := lines[k];
      if OuterSkipped(line) || HasGeneId(Fields(line)[8]) {
        if !OuterSkipped(line) && Fields(line)[2] == "CDS" && Gene(line) !in done {
          PlanFromFails(lines, refLength, k + 1, done + [Gene(line)]);
        } else {
          PlanFromFails(lines, refLength, k + 1, done);
        }
      }
    }
  }

  lemma PlanFails(lines: seq<string>, refLength: nat)
    requires RowsOk(lines, refLength)
    ensures Plan(lines, refLength).Err? <==> exists j :: 0 <= j < |lines| && Malformed(lines[j])
  {
    PlanFromFails(lines, refLength, 0, []);
  }

  /** The codons of gene `g`, in creation order. */
  function OfGene(slots: seq<Slot>, g: string): seq<Slot>
  {
    if slots == [] then []
    else (if slots[0].gene == g then [slots[0]] else []) + OfGene(slots[1..], g)
  }

  lemma {:induction false} OfGeneAppend(a: seq<Slot>, b: seq<Slot>, g: string)
    ensures OfGene(a + b, g) == OfGene(a, g) + OfGene(b, g)
    decreases |a|
  {
    if a != [] {
      assert (a + b)[1..] == a[1..] + b;
      OfGeneAppend(a[1..], b, g);
    } else {
      assert a + b == b;
    }
  }

  lemma {:induction false} OfGeneAll(slots: seq<Slot>, g: string)
    requires forall k :: 0 <= k < |slots| ==> slots[k].gene == g
    ensures OfGene(slots, g) == slots
    decreases |slots|
  {
    if slots != [] {
      OfGeneAll(slots[1..], g);
    }
  }

  lemma {:induction false} OfGeneNone(slots: seq<Slot>, g: string)
    requires forall k :: 0 <= k < |slots| ==> slots[k].gene != g
    ensures OfGene(slots, g) == []
    decreases |slots|
  {
    if slots != [] {
      OfGeneNone(slots[1..], g);
    }
  }

  /** Each gene is built once, and its codons are numbered 0, 1, 2, ...
      without gaps across all of its segments. */
  lemma {:induction false} PlanFromNumbering(lines: seq<string>, refLength: nat, k: nat, done: seq<string>)
    requires RowsOk(lines, refLength)
    requires PlanFrom(lines, refLength, k, done).Ok?
    ensures var v := PlanFrom(lines, refLength, k, done).value;
      && (forall j :: 0 <= j < |v| ==> v[j].gene !in done)
      && (forall g :: forall j :: 0 <= j < |OfGene(v, g)| ==> OfGene(v, g)[j].number == j)
    decreases |lines| - k
  {
    if k < |lines| {
      var line := lines[k];
      if OuterSkipped(line) || Fields(line)[2] != "CDS" || Gene(line) in done {
        PlanFromNumbering(lines, refLength, k + 1, done);
      } else {
        assert Processed(lines[k]);
        var g := Gene(line);
        PlanFromNumbering(lines, refLength, k + 1, done + [g]);
        var head := GeneSlots(lines, line);
        GeneSlotsNumbering(lines, line);
        var rest := PlanFrom(lines, refLength, k + 1, done + [g]).value;
        var v := head + rest;
        assert PlanFrom(lines, refLength, k, done).value == v;
        forall g' ensures forall j :: 0 <= j < |OfGene(v, g')| ==> OfGene(v, g')[j].number == j {
          OfGeneAppend(head, rest, g');
          if g' == g {
            OfGeneAll(head, g);
            OfGeneNone(rest, g);
          } else {
            OfGeneNone(head, g');
          }
        }
      }
    }
  }

  lemma PlanNumbering(lines: seq<string>, refLength: nat, g: string)
    requires RowsOk(lines, refLength)
    requires Plan(lines, refLength).Ok?
    ensures var v := OfGene(Plan(lines, refLength).value, g);
      forall j :: 0 <= j < |v| ==> v[j].number == j
  {
    PlanFromNumbering(lines, refLength, 0, []);
  }

  /** A codon of gene `g` sits in `OfGene` just after the codons of `g`
      created before it. */
  lemma OfGeneAt(slots: seq<Slot>, g: string, a: nat)
    requires a < |slots| && slots[a].gene == g
    ensures |OfGene(slots[..a], g)| < |OfGene(slots, g)|
    ensures OfGene(slots, g)[|OfGene(slots[..a], g)|] == slots[a]
  {
    assert slots == slots[..a] + slots[a..];
    OfGeneAppend(slots[..a], slots[a..], g);
    assert slots[a..][0] == slots[a];
  }

  /** Two codons of the same gene in the built plan never share a number, so
      the `gene:number` identifiers are distinct. */
  lemma PlanDistinctSlots(lines: seq<string>, refLength: nat)
    requires RowsOk(lines, refLength)
    requires Plan(lines, refLength).Ok?
    ensures var v := Plan(lines, refLength).value;
      forall a, b :: 0 <= a < b < |v| && v[a].gene == v[b].gene ==> v[a].number != v[b].number
  {
    var v := Plan(lines, refLength).value;
    forall a, b | 0 <= a < b < |v| && v[a].gene == v[b].gene ensures v[a].number != v[b].number {
      var g := v[a].gene;
      PlanNumbering(lines, refLength, g);
      OfGeneAt(v, g, a);
      OfGeneAt(v, g, b);
      assert v[..b] == v[..a] + v[a..b];
      OfGeneAppend(v[..a], v[a..b], g);
      assert v[a..b][0] == v[a];
    }
  }

  /** Every codon start lies in the reference, three bases before its end. */
  predicate InReference(slots: seq<Slot>, refLength: nat)
  {
    forall k :: 0 <= k < |slots| ==> 0 <= slots[k].start && slots[k].start + 3 <= refLength
  }

  /** Each codon start the loop reaches lies in the reference. */
  lemma FitsAt(refLength: nat, lo: int, stop: int, k: nat)
    requires SegmentFits(refLength, lo, stop) && lo + 3 * k < stop
    ensures 0 <= lo && lo + 3 * k + 3 <= refLength
  {
    var q := (stop - lo - 1) / 3;
    assert 3 * q <= stop - lo - 1 < 3 * q + 3;
    assert k <= q;
  }

  lemma SegmentInReference(gene: string, counter: nat, lo: int, stop: int, refLength: nat)
    requires SegmentFits(refLength, lo, stop)
    ensures InReference(SegmentSlots(gene, counter, lo, stop), refLength)
  {
    var r := SegmentSlots(gene, counter, lo, stop);
    SegmentSlotsShape(gene, counter, lo, stop);
    forall k | 0 <= k < |r| ensures 0 <= r[k].start && r[k].start + 3 <= refLength {
      assert r[k].start == lo + 3 * k && r[k].start < stop;
      FitsAt(refLength, lo, stop, k);
    }
  }

  lemma InReferenceAppend(a: seq<Slot>, b: seq<Slot>, refLength: nat)
    requires InReference(a, refLength) && InReference(b, refLength)
    ensures InReference(a + b, refLength)
  {
    forall k | 0 <= k < |a + b| ensures 0 <= (a + b)[k].start && (a + b)[k].start + 3 <= refLength {
      if k >= |a| { assert (a + b)[k] == b[k - |a|]; }
    }
  }

  /** Every CDS row, as the inner scan reads it, fits the reference. */
  predicate RowsFit(rows: seq<RowInfo>, refLength: nat)
  {
    forall i :: 0 <= i < |rows| && rows[i].cds ==> SegmentFits(refLength, rows[i].start - 1, rows[i].stop)
  }

  lemma InfosFit(lines: seq<string>, refLength: nat)
    requires RowsOk(lines, refLength)
    ensures RowsFit(Infos(lines), refLength)
  {
    var rows := Infos(lines);
    forall i | 0 <= i < |rows| && rows[i].cds
      ensures SegmentFits(refLength, rows[i].start - 1, rows[i].stop)
    {
      InfosAt(lines, i);
    }
  }

  lemma {:induction false} InnerFromInReference(rows: seq<RowInfo>, j: nat, gene: string, firstStart: int,
                                                counter: nat, refLength: nat)
    requires RowsFit(rows, refLength)
    ensures InReference(InnerFrom(rows, j, gene, firstStart, counter), refLength)
    decreases |rows| - j
  {
    if j < |rows| {
      var here := RowSlots(rows[j], gene, firstStart, counter);
      if InnerRow(rows[j], gene, firstStart) {
        SegmentInReference(gene, counter, rows[j].start - 1, rows[j].stop, refLength);
      }
      InnerFromInReference(rows, j + 1, gene, firstStart, counter + |here|, refLength);
      InReferenceAppend(here, InnerFrom(rows, j + 1, gene, firstStart, counter + |here|), refLength);
    }
  }

  /** Every codon the builder plans reads three bases of the reference. */
  lemma {:induction false} PlanFromInReference(lines: seq<string>, refLength: nat, k: nat, done: seq<string>)
    requires RowsOk(lines, refLength)
    ensures PlanFrom(lines, refLength, k, done).Ok? ==> InReference(PlanFrom(lines, refLength, k, done).value, refLength)
    decreases |lines| - k
  {
    if k < |lines| {
      var line := lines[k];
      if !OuterSkipped(line) && HasGeneId(Fields(line)[8]) && Fields(line)[2] == "CDS" {
        if Gene(line) !in done {
          var g := Gene(line);
          var head := SegmentSlots(g, 0, Start(line) - 1, Stop(line));
          SegmentInReference(g, 0, Start(line) - 1, Stop(line), refLength);
          InfosFit(lines, refLength);
          InnerFromInReference(Infos(lines), 0, g, Start(line), |head|, refLength);
          InReferenceAppend(head, InnerFrom(Infos(lines), 0, g, Start(line), |head|), refLength);
          PlanFromInReference(lines, refLength, k + 1, done + [g]);
          var rest := PlanFrom(lines, refLength, k + 1, done + [g]);
          if rest.Ok? {
            InReferenceAppend(GeneSlots(lines, line), rest.value, refLength);
          }
        } else {
          PlanFromInReference(lines, refLength, k + 1, done);
        }
      } else {
        PlanFromInReference(lines, refLength, k + 1, done);
      }
    }
  }
}
