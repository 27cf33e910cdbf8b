// The per-node mutation engine: `do_mutations` applies a node's nucleotide
// mutations to every codon covering their positions and reports the
// amino-acid changes; `undo_mutations` writes the parent bases back.
module Engine {
  import opened Text
  import opened CodonMap

  /** A nucleotide mutation on a tree edge: 1-based genome position, parent
      and mutated base, and the text `get_string` renders for it. */
  datatype Mutation = Mutation(position: int, parNuc: char, mutNuc: char, name: string)

  /** The base a write uses: the mutated base when applying, the parent base
      when reverting. */
  function Nuc(m: Mutation, useParent: bool): char
  {
    if useParent then m.parNuc else m.mutNuc
  }

  /** Every codon of the arena has three bases. */
  predicate TripletsOk(codons: seq<Codon>)
  {
    forall h :: 0 <= h < |codons| ==> |codons[h].triplet| == 3
  }

  /** `Codon::mutate(pos, nuc)`: the base at `pos` becomes `nuc`; the protein
      follows from the triplet. A position outside the codon changes nothing. */
  function Mutate(c: Codon, pos: int, nuc: char): (r: Codon)
    ensures r.gene == c.gene && r.number == c.number && r.start == c.start && |r.triplet| == |c.triplet|
    ensures Covers(c, pos) && |c.triplet| == 3 ==>
      r.triplet[pos - c.start] == nuc &&
      forall o :: 0 <= o < 3 && o != pos - c.start ==> r.triplet[o] == c.triplet[o]
    ensures !(Covers(c, pos) && |c.triplet| == 3) ==> r == c
  {
    if Covers(c, pos) && |c.triplet| == 3 then c.(triplet := c.triplet[pos - c.start := nuc]) else c
  }

  /** The inner loop of both `do_mutations` and `undo_mutations`: mutate, at
      `p`, every codon on the handle list `hs`, in list order. */
  function SetBase(codons: seq<Codon>, hs: seq<nat>, p: int, nuc: char): (r: seq<Codon>)
    ensures |r| == |codons|
  {
    if hs == [] then codons
    else
      var prev := SetBase(codons, hs[..|hs| - 1], p, nuc);
      var h := hs[|hs| - 1];
      if h < |prev| then prev[h := Mutate(prev[h], p, nuc)] else prev
  }

  /** The arena after writing, mutation by mutation in list order, each
      mutation's base into every codon the index lists at its position. */
  function WriteAll(codons: seq<Codon>, index: map<int, seq<nat>>, ms: seq<Mutation>, useParent: bool): (r: seq<Codon>)
    ensures |r| == |codons|
  {
    if ms == [] then codons
    else
      var prev := WriteAll(codons, index, ms[..|ms| - 1], useParent);
      var m := ms[|ms| - 1];
      var p := m.position - 1;
      if p in index then SetBase(prev, index[p], p, Nuc(m, useParent)) else prev
  }

  /** The base at 0-based genome position `q` after the writes of `ms`, when
      it was `before`: the base of the last mutation at `q`, if any. */
  function Written(ms: seq<Mutation>, q: int, before: char, useParent: bool): char
  {
    if ms == [] then before
    else if ms[|ms| - 1].position - 1 == q then Nuc(ms[|ms| - 1], useParent)
    else Written(ms[..|ms| - 1], q, before, useParent)
  }

  /** Codon `h` after mutating the handle list at `p`: mutated at `p` when
      listed, untouched otherwise. */
  lemma {:induction false} SetBaseAt(codons: seq<Codon>, hs: seq<nat>, p: int, nuc: char, h: nat)
    requires h < |codons|
    ensures SetBase(codons, hs, p, nuc)[h] == if h in hs then Mutate(codons[h], p, nuc) else codons[h]
    decreases |hs|
  {
    if hs != [] {
      var init := hs[..|hs| - 1];
      SetBaseAt(codons, init, p, nuc, h);
      assert h in hs <==> h in init || h == hs[|hs| - 1];
    }
  }

  /** One codon after `WriteAll`: identity and start kept, and each of its
      three bases is the last base written at that genome position. */
  lemma {:induction false} WriteAllAt(codons: seq<Codon>, index: map<int, seq<nat>>, ms: seq<Mutation>, useParent: bool, h: nat)
    requires IndexOk(codons, index) && TripletsOk(codons) && h < |codons|
    ensures var r := WriteAll(codons, index, ms, useParent)[h];
      && r.gene == codons[h].gene && r.number == codons[h].number && r.start == codons[h].start
      && |r.triplet| == 3
      && forall o :: 0 <= o < 3 ==> r.triplet[o] == Written(ms, codons[h].start + o, codons[h].triplet[o], useParent)
    decreases |ms|
  {
    if ms != [] {
      var init := ms[..|ms| - 1];
      WriteAllAt(codons, index, init, useParent, h);
      var prev := WriteAll(codons, index, init, useParent);
      var m := ms[|ms| - 1];
      var p := m.position - 1;
      if p in index {
        SetBaseAt(prev, index[p], p, Nuc(m, useParent), h);
        RegisteredAtThree(codons, index, h, p);
      }
    }
  }

  /** Positions are pairwise distinct. */
  predicate DistinctPositions(ms: seq<Mutation>)
  {
    forall i, j :: 0 <= i < j < |ms| ==> ms[i].position != ms[j].position
  }

  /** With distinct positions, the base written at `q` is that of the one
      mutation at `q`, whatever the order of the list. */
  lemma {:induction false} WrittenAt(ms: seq<Mutation>, q: int, before: char, useParent: bool, i: nat)
    requires DistinctPositions(ms) && i < |ms| && ms[i].position - 1 == q
    ensures Written(ms, q, before, useParent) == Nuc(ms[i], useParent)
    decreases |ms|
  {
    if i < |ms| - 1 {
      WrittenAt(ms[..|ms| - 1], q, before, useParent, i);
    }
  }

  lemma {:induction false} WrittenNone(ms: seq<Mutation>, q: int, before: char, useParent: bool)
    requires forall i :: 0 <= i < |ms| ==> ms[i].position - 1 != q
    ensures Written(ms, q, before, useParent) == before
    decreases |ms|
  {
    if ms != [] {
      WrittenNone(ms[..|ms| - 1], q, before, useParent);
    }
  }

  /** Two arenas agreeing codon by codon on identity, start and bases are equal. */
  lemma SameArena(a: seq<Codon>, b: seq<Codon>)
    requires |a| == |b|
    requires forall h :: 0 <= h < |a| ==> a[h].gene == b[h].gene && a[h].number == b[h].number && a[h].start == b[h].start
    requires forall h :: 0 <= h < |a| ==> |a[h].triplet| == 3 && |b[h].triplet| == 3
    requires forall h, o :: 0 <= h < |a| && 0 <= o < 3 ==> a[h].triplet[o] == b[h].triplet[o]
    ensures a == b
  {
    forall h | 0 <= h < |a| ensures a[h] == b[h] {
      assert a[h].triplet == b[h].triplet;
    }
  }

  /** The bases `ms` overwrites are the parent bases it names: every codon
      covering a mutated position holds that mutation's parent base there. */
  predicate ParentsMatch(codons: seq<Codon>, ms: seq<Mutation>)
  {
    forall i, h :: 0 <= i < |ms| && 0 <= h < |codons| && Covers(codons[h], ms[i].position - 1) && |codons[h].triplet| == 3 ==>
      codons[h].triplet[ms[i].position - 1 - codons[h].start] == ms[i].parNuc
  }

  /** Writing the mutated bases, then the parent bases, restores the arena
      (the apply/undo round trip). */
  lemma ApplyRevert(codons: seq<Codon>, index: map<int, seq<nat>>, ms: seq<Mutation>)
    requires IndexOk(codons, index) && TripletsOk(codons)
    requires DistinctPositions(ms) && ParentsMatch(codons, ms)
    ensures WriteAll(WriteAll(codons, index, ms, false), index, ms, true) == codons
  {
    var mid := WriteAll(codons, index, ms, false);
    var fin := WriteAll(mid, index, ms, true);
    forall h | 0 <= h < |codons|
      ensures mid[h].start == codons[h].start && |mid[h].triplet| == 3
    {
      WriteAllAt(codons, index, ms, false, h);
    }
    SameStartsIndex(codons, mid, index);
    forall h | 0 <= h < |codons|
      ensures fin[h].gene == codons[h].gene && fin[h].number == codons[h].number && fin[h].start == codons[h].start
      ensures |fin[h].triplet| == 3 && |codons[h].triplet| == 3
      ensures forall o :: 0 <= o < 3 ==> fin[h].triplet[o] == codons[h].triplet[o]
    {
      WriteAllAt(codons, index, ms, false, h);
      WriteAllAt(mid, index, ms, true, h);
      forall o | 0 <= o < 3 ensures fin[h].triplet[o] == codons[h].triplet[o] {
        var q := codons[h].start + o;
        if i :| 0 <= i < |ms| && ms[i].position - 1 == q {
          WrittenAt(ms, q, mid[h].triplet[o], true, i);
        } else {
          WrittenNone(ms, q, codons[h].triplet[o], false);
          WrittenNone(ms, q, mid[h].triplet[o], true);
        }
      }
    }
    SameArena(fin, codons);
  }

  /** The arena after `WriteAll` keeps the index: starts do not move. */
  lemma SameStartsIndex(a: seq<Codon>, b: seq<Codon>, index: map<int, seq<nat>>)
    requires IndexOk(a, index) && |a| == |b|
    requires forall h :: 0 <= h < |a| ==> a[h].start == b[h].start
    ensures IndexOk(b, index)
  {
    forall p ensures MappedAt(b, index, p) {
      assert MappedAt(a, index, p);
      CoveringSameStarts(a, b, p);
    }
    forall h | 0 <= h < |b| ensures Spanned(index, b[h]) {
      assert Spanned(index, a[h]);
    }
  }

  // ---------------------------------------------------------------------
  // One `do_mutations` call as a specification: the running tally of the
  // arena, `orig_proteins`, `affected_codons` and `codon_to_nt_map`.

  /** `orf_name + ':' + to_string(codon_number + 1)`. */
  function CodonId(c: Codon): string
  {
    c.gene + ":" + NatToString(c.number + 1)
  }

  /** `split(codon_id, ':')`: at least the two pieces the report reads. */
  function IdPieces(c: Codon): (r: seq<string>)
    ensures |r| >= 2
    ensures ':' !in c.gene ==> r == [c.gene, NatToString(c.number + 1)]
  {
    var num := NatToString(c.number + 1);
    assert forall k :: 0 <= k < |num| ==> num[k] != ':';
    PiecesAroundColon(c.gene, num);
    Pieces(CodonId(c), ':')
  }

  /** Inserting into a `std::set<Mutation>` ordered by position: a mutation
      whose position is already present is not added. */
  function InsertByPos(l: seq<Mutation>, m: Mutation): (r: seq<Mutation>)
    ensures r != []
  {
    if l == [] then [m]
    else if m.position < l[0].position then [m] + l
    else if m.position == l[0].position then l
    else [l[0]] + InsertByPos(l[1..], m)
  }

  datatype Tally = Tally(codons: seq<Codon>, orig: map<string, char>, affected: seq<nat>, nts: map<string, seq<Mutation>>)

  /** Nothing recorded yet over the arena `codons`. */
  function Fresh(codons: seq<Codon>): Tally
  {
    Tally(codons, map[], [], map[])
  }

  /** Lines 347-364 for one mutation `m` and one codon handle `h`. */
  function Touch(t: Tally, m: Mutation, h: nat): Tally
  {
    if h < |t.codons| then
      var c := t.codons[h];
      var id := CodonId(c);
      Tally(t.codons[h := Mutate(c, m.position - 1, m.mutNuc)],
            if id in t.orig then t.orig else t.orig[id := Protein(c)],
            if h in t.affected then t.affected else t.affected + [h],
            t.nts[id := InsertByPos(if id in t.nts then t.nts[id] else [], m)])
    else t
  }

  /** Touching, in list order, every handle of `hs`. */
  function TouchAll(t: Tally, m: Mutation, hs: seq<nat>): Tally
  {
    if hs == [] then t else Touch(TouchAll(t, m, hs[..|hs| - 1]), m, hs[|hs| - 1])
  }

  lemma TouchAllNext(t: Tally, m: Mutation, hs: seq<nat>, k: nat)
    requires k < |hs|
    ensures TouchAll(t, m, hs[..k + 1]) == Touch(TouchAll(t, m, hs[..k]), m, hs[k])
  {
    assert hs[..k + 1][..k] == hs[..k];
  }

  /** The tally after the mutation loop (lines 338-365) over `ms`. */
  function Tour(t: Tally, index: map<int, seq<nat>>, ms: seq<Mutation>): Tally
  {
    if ms == [] then t
    else
      var prev := Tour(t, index, ms[..|ms| - 1]);
      var m := ms[|ms| - 1];
      if m.position - 1 in index then TouchAll(prev, m, index[m.position - 1]) else prev
  }

  /** Every affected handle names a codon whose id has an original protein
      and a non-empty mutation set. */
  predicate Recorded(t: Tally)
  {
    forall k :: 0 <= k < |t.affected| ==>
      t.affected[k] < |t.codons| && CodonId(t.codons[t.affected[k]]) in t.orig &&
      CodonId(t.codons[t.affected[k]]) in t.nts && t.nts[CodonId(t.codons[t.affected[k]])] != []
  }

  /** The protein group of one codon (lines 370-374). */
  function ProtGroup(t: Tally, h: nat, taxodium: bool): string
    requires h < |t.codons| && CodonId(t.codons[h]) in t.orig
  {
    var c := t.codons[h];
    var ps := IdPieces(c);
    var orig := t.orig[CodonId(c)];
    if taxodium then ps[0] + ":" + [orig] + "_" + ps[1] + "_" + [Protein(c)]
    else ps[0] + ":" + [orig] + ps[1] + [Protein(c)]
  }

  function Names(l: seq<Mutation>): (r: seq<string>)
    ensures |r| == |l|
  {
    seq(|l|, k requires 0 <= k < |l| => l[k].name)
  }

  /** The nucleotide group of one codon: its mutation strings joined by ','. */
  function NucGroup(t: Tally, h: nat): string
    requires h < |t.codons| && CodonId(t.codons[h]) in t.nts
  {
    Join(Names(t.nts[CodonId(t.codons[h])]), ",")
  }

  function ProtGroups(t: Tally, taxodium: bool): (r: seq<string>)
    requires Recorded(t)
    ensures |r| == |t.affected|
  {
    seq(|t.affected|, k requires 0 <= k < |t.affected| => ProtGroup(t, t.affected[k], taxodium))
  }

  function NucGroups(t: Tally): (r: seq<string>)
    requires Recorded(t)
    ensures |r| == |t.affected|
  {
    seq(|t.affected|, k requires 0 <= k < |t.affected| => NucGroup(t, t.affected[k]))
  }

  /** Lines 385-398: the groups joined by ';', and "" when either side is empty. */
  function Report(t: Tally, taxodium: bool): string
    requires Recorded(t)
  {
    var prot := Join(ProtGroups(t, taxodium), ";");
    var nuc := Join(NucGroups(t), ";");
    if nuc == "" || prot == "" then ""
    else if taxodium then prot
    else prot + "\t" + nuc
  }

  /** The string `do_mutations` returns for the (sorted) list `ms` on the
      arena `codons`. */
  function Outcome(codons: seq<Codon>, index: map<int, seq<nat>>, ms: seq<Mutation>, taxodium: bool): string
  {
    TourOk(codons, index, ms);
    Report(Tour(Fresh(codons), index, ms), taxodium)
  }

  /** No handle appears twice. */
  predicate NoRepeats(hs: seq<nat>)
  {
    forall i, j :: 0 <= i < j < |hs| ==> hs[i] != hs[j]
  }

  /** The bookkeeping invariant of the mutation loop over the arena `c0` it
      started from: codon identities kept, every affected codon recorded once,
      and a codon whose id has no original protein yet is still untouched. */
  predicate TallyOk(c0: seq<Codon>, t: Tally)
  {
    && |t.codons| == |c0|
    && (forall h :: 0 <= h < |c0| ==> t.codons[h].gene == c0[h].gene && t.codons[h].number == c0[h].number)
    && Recorded(t)
    && NoRepeats(t.affected)
    && (forall h :: 0 <= h < |c0| && CodonId(c0[h]) !in t.orig ==> t.codons[h] == c0[h])
  }

  lemma TouchOk(c0: seq<Codon>, t: Tally, m: Mutation, h: nat)
    requires TallyOk(c0, t)
    ensures TallyOk(c0, Touch(t, m, h))
  {
    if h < |t.codons| {
      TouchRecorded(t, m, h);
      TouchUntouched(c0, t, m, h);
    }
  }

  lemma TouchRecorded(t: Tally, m: Mutation, h: nat)
    requires Recorded(t) && NoRepeats(t.affected) && h < |t.codons|
    ensures Recorded(Touch(t, m, h)) && NoRepeats(Touch(t, m, h).affected)
  {
    var t' := Touch(t, m, h);
    var id := CodonId(t.codons[h]);
    assert CodonId(t'.codons[h]) == id;
    forall k | 0 <= k < |t'.affected|
      ensures t'.affected[k] < |t'.codons|
      ensures CodonId(t'.codons[t'.affected[k]]) in t'.orig && CodonId(t'.codons[t'.affected[k]]) in t'.nts
      ensures t'.nts[CodonId(t'.codons[t'.affected[k]])] != []
    {
      var a := t'.affected[k];
      if a != h {
        assert k < |t.affected| && t.affected[k] == a;
        assert t'.codons[a] == t.codons[a];
      }
    }
  }

  lemma TouchUntouched(c0: seq<Codon>, t: Tally, m: Mutation, h: nat)
    requires TallyOk(c0, t) && h < |t.codons|
    ensures var t' := Touch(t, m, h);
      && |t'.codons| == |c0|
      && (forall g :: 0 <= g < |c0| ==> t'.codons[g].gene == c0[g].gene && t'.codons[g].number == c0[g].number)
      && (forall g :: 0 <= g < |c0| && CodonId(c0[g]) !in t'.orig ==> t'.codons[g] == c0[g])
  {
    var t' := Touch(t, m, h);
    forall g | 0 <= g < |c0| && CodonId(c0[g]) !in t'.orig ensures t'.codons[g] == c0[g] {
      assert CodonId(c0[g]) !in t.orig;
      assert CodonId(t.codons[g]) == CodonId(c0[g]);
    }
  }

  lemma {:induction false} TouchAllOk(c0: seq<Codon>, t: Tally, m: Mutation, hs: seq<nat>)
    requires TallyOk(c0, t)
    ensures TallyOk(c0, TouchAll(t, m, hs))
    decreases |hs|
  {
    if hs != [] {
      TouchAllOk(c0, t, m, hs[..|hs| - 1]);
      TouchOk(c0, TouchAll(t, m, hs[..|hs| - 1]), m, hs[|hs| - 1]);
    }
  }

  /** The mutation loop keeps the bookkeeping invariant. */
  lemma {:induction false} TourOk(c0: seq<Codon>, index: map<int, seq<nat>>, ms: seq<Mutation>)
    ensures TallyOk(c0, Tour(Fresh(c0), index, ms))
    decreases |ms|
  {
    if ms != [] {
      var m := ms[|ms| - 1];
      TourOk(c0, index, ms[..|ms| - 1]);
      if m.position - 1 in index {
        TouchAllOk(c0, Tour(Fresh(c0), index, ms[..|ms| - 1]), m, index[m.position - 1]);
      }
    }
  }

  lemma {:induction false} TouchAllCodons(t: Tally, m: Mutation, hs: seq<nat>)
    ensures TouchAll(t, m, hs).codons == SetBase(t.codons, hs, m.position - 1, m.mutNuc)
    decreases |hs|
  {
    if hs != [] {
      TouchAllCodons(t, m, hs[..|hs| - 1]);
    }
  }

  /** The codons after the loop are the arena with every mutated base written. */
  lemma {:induction false} TourCodons(t: Tally, index: map<int, seq<nat>>, ms: seq<Mutation>)
    ensures Tour(t, index, ms).codons == WriteAll(t.codons, index, ms, false)
    decreases |ms|
  {
    if ms != [] {
      var m := ms[|ms| - 1];
      TourCodons(t, index, ms[..|ms| - 1]);
      if m.position - 1 in index {
        TouchAllCodons(Tour(t, index, ms[..|ms| - 1]), m, index[m.position - 1]);
      }
    }
  }

  /** No two codons of the arena share a `gene:number` id. */
  predicate UniqueIds(codons: seq<Codon>)
  {
    forall a, b :: 0 <= a < b < |codons| ==> CodonId(codons[a]) != CodonId(codons[b])
  }

  /** The identifier determines the gene and the codon number: the numeral
      after the last ':' has no colon, and `to_string` is one to one. */
  lemma CodonIdInjective(c1: Codon, c2: Codon)
    requires CodonId(c1) == CodonId(c2)
    ensures c1.gene == c2.gene && c1.number == c2.number
  {
    var n1, n2 := NatToString(c1.number + 1), NatToString(c2.number + 1);
    assert forall k :: 0 <= k < |n1| ==> n1[k] != ':';
    assert forall k :: 0 <= k < |n2| ==> n2[k] != ':';
    ColonSplitUnique(c1.gene, n1, c2.gene, n2);
    NatToStringInjective(c1.number + 1, c2.number + 1);
  }

  /** Arenas agreeing codon by codon on gene and number agree on unique ids. */
  lemma UniqueIdsKept(a: seq<Codon>, b: seq<Codon>)
    requires UniqueIds(a) && |a| == |b|
    requires forall h :: 0 <= h < |a| ==> a[h].gene == b[h].gene && a[h].number == b[h].number
    ensures UniqueIds(b)
  {
    forall x, y | 0 <= x < y < |b| ensures CodonId(b[x]) != CodonId(b[y]) {
      assert CodonId(b[x]) == CodonId(a[x]) && CodonId(b[y]) == CodonId(a[y]);
    }
  }

  /** Writing bases changes no codon's gene or number. */
  lemma {:induction false} WriteAllIds(codons: seq<Codon>, index: map<int, seq<nat>>, ms: seq<Mutation>, useParent: bool, h: nat)
    requires h < |codons|
    ensures WriteAll(codons, index, ms, useParent)[h].gene == codons[h].gene
    ensures WriteAll(codons, index, ms, useParent)[h].number == codons[h].number
    decreases |ms|
  {
    if ms != [] {
      var init := ms[..|ms| - 1];
      WriteAllIds(codons, index, init, useParent, h);
      var prev := WriteAll(codons, index, init, useParent);
      var m := ms[|ms| - 1];
      if m.position - 1 in index {
        SetBaseAt(prev, index[m.position - 1], m.position - 1, Nuc(m, useParent), h);
      }
    }
  }

  /** Each recorded original protein is the codon's protein before the call. */
  predicate OrigOk(c0: seq<Codon>, t: Tally)
  {
    forall h :: 0 <= h < |c0| && CodonId(c0[h]) in t.orig ==> t.orig[CodonId(c0[h])] == Protein(c0[h])
  }

  lemma TouchOrig(c0: seq<Codon>, t: Tally, m: Mutation, h: nat)
    requires UniqueIds(c0) && TallyOk(c0, t) && OrigOk(c0, t)
    ensures OrigOk(c0, Touch(t, m, h))
  {
    if h < |t.codons| {
      var t' := Touch(t, m, h);
      var id := CodonId(t.codons[h]);
      assert id == CodonId(c0[h]);
      forall g | 0 <= g < |c0| && CodonId(c0[g]) in t'.orig ensures t'.orig[CodonId(c0[g])] == Protein(c0[g]) {
        if CodonId(c0[g]) !in t.orig {
          assert CodonId(c0[g]) == id;
          assert g == h;
        }
      }
    }
  }

  lemma {:induction false} TouchAllOrig(c0: seq<Codon>, t: Tally, m: Mutation, hs: seq<nat>)
    requires UniqueIds(c0) && TallyOk(c0, t) && OrigOk(c0, t)
    ensures OrigOk(c0, TouchAll(t, m, hs))
    decreases |hs|
  {
    if hs != [] {
      var prev := TouchAll(t, m, hs[..|hs| - 1]);
      TouchAllOrig(c0, t, m, hs[..|hs| - 1]);
      TouchAllOk(c0, t, m, hs[..|hs| - 1]);
      TouchOrig(c0, prev, m, hs[|hs| - 1]);
    }
  }

  /** The original amino acid reported for a codon is its protein before the
      first mutation of the call touched it. */
  lemma {:induction false} TourOrig(c0: seq<Codon>, index: map<int, seq<nat>>, ms: seq<Mutation>)
    requires UniqueIds(c0)
    ensures OrigOk(c0, Tour(Fresh(c0), index, ms))
    decreases |ms|
  {
    if ms != [] {
      var m := ms[|ms| - 1];
      var prev := Tour(Fresh(c0), index, ms[..|ms| - 1]);
      TourOrig(c0, index, ms[..|ms| - 1]);
      TourOk(c0, index, ms[..|ms| - 1]);
      if m.position - 1 in index {
        TouchAllOrig(c0, prev, m, index[m.position - 1]);
      }
    }
  }

  lemma {:induction false} TouchAllAffected(t: Tally, m: Mutation, hs: seq<nat>, h: nat)
    ensures h in TouchAll(t, m, hs).affected <==> h in t.affected || (h in hs && h < |t.codons|)
    ensures |TouchAll(t, m, hs).codons| == |t.codons|
    decreases |hs|
  {
    if hs != [] {
      TouchAllAffected(t, m, hs[..|hs| - 1], h);
      assert h in hs <==> h in hs[..|hs| - 1] || h == hs[|hs| - 1];
    }
  }

  /** Some mutation of `ms` falls inside codon `c`. */
  predicate Hit(c: Codon, ms: seq<Mutation>)
  {
    exists i :: 0 <= i < |ms| && Covers(c, ms[i].position - 1)
  }

  /** A codon is reported exactly when some mutation of the call falls inside it. */
  lemma {:induction false} TourAffected(c0: seq<Codon>, index: map<int, seq<nat>>, ms: seq<Mutation>, h: nat)
    requires IndexOk(c0, index) && h < |c0|
    ensures h in Tour(Fresh(c0), index, ms).affected <==> Hit(c0[h], ms)
    decreases |ms|
  {
    if ms != [] {
      var init := ms[..|ms| - 1];
      var m := ms[|ms| - 1];
      var p := m.position - 1;
      var prev := Tour(Fresh(c0), index, init);
      TourAffected(c0, index, init, h);
      TourOk(c0, index, init);
      RegisteredAtThree(c0, index, h, p);
      if p in index {
        TouchAllAffected(prev, m, index[p], h);
      }
      HitLast(c0[h], ms);
    }
  }

  lemma HitLast(c: Codon, ms: seq<Mutation>)
    requires ms != []
    ensures Hit(c, ms) <==> Hit(c, ms[..|ms| - 1]) || Covers(c, ms[|ms| - 1].position - 1)
  {
    var init := ms[..|ms| - 1];
    if Hit(c, ms) && !Covers(c, ms[|ms| - 1].position - 1) {
      var i :| 0 <= i < |ms| && Covers(c, ms[i].position - 1);
      assert ms[i] == init[i];
    }
    if Hit(c, init) {
      var i :| 0 <= i < |init| && Covers(c, init[i].position - 1);
      assert ms[i] == init[i];
    }
  }

  // ---------------------------------------------------------------------
  // What the tally records: each codon's `std::set<MAT::Mutation>` and the
  // order of `affected_codons`.

  /** The index in `ms` of the first mutation inside `c`, or `|ms|` when
      there is none. */
  function FirstHit(c: Codon, ms: seq<Mutation>): (i: nat)
    ensures i <= |ms|
    ensures i < |ms| ==> Covers(c, ms[i].position - 1)
    ensures forall j :: 0 <= j < i ==> !Covers(c, ms[j].position - 1)
    decreases |ms|
  {
    if ms == [] then 0
    else
      var i := FirstHit(c, ms[..|ms| - 1]);
      assert forall j :: 0 <= j < |ms| - 1 ==> ms[j] == ms[..|ms| - 1][j];
      if i < |ms| - 1 || Covers(c, ms[|ms| - 1].position - 1) then i else |ms|
  }

  /** The index in `ms` of the first mutation at 1-based position `q`, or
      `|ms|` when there is none. */
  function FirstAt(ms: seq<Mutation>, q: int): (i: nat)
    ensures i <= |ms|
    ensures i < |ms| ==> ms[i].position == q
    ensures forall j :: 0 <= j < i ==> ms[j].position != q
    decreases |ms|
  {
    if ms == [] then 0
    else
      var i := FirstAt(ms[..|ms| - 1], q);
      assert forall j :: 0 <= j < |ms| - 1 ==> ms[j] == ms[..|ms| - 1][j];
      if i < |ms| - 1 || ms[|ms| - 1].position == q then i else |ms|
  }

  /** `x` belongs in the mutation set of codon `c` after the call: it falls
      inside `c` and is the first mutation of `ms` at its position (a
      `std::set` ordered by position keeps the first one inserted). */
  predicate InNtSet(c: Codon, ms: seq<Mutation>, x: Mutation)
  {
    Covers(c, x.position - 1) && FirstAt(ms, x.position) < |ms| && ms[FirstAt(ms, x.position)] == x
  }

  /** Positions strictly increase along the list. */
  predicate StrictlyByPosition(l: seq<Mutation>)
  {
    forall i, j :: 0 <= i < j < |l| ==> l[i].position < l[j].position
  }

  /** No element of `l` is at position `q`. */
  predicate PositionFree(l: seq<Mutation>, q: int)
  {
    forall y :: y in l ==> y.position != q
  }

  /** The mutation set recorded under `id`, empty when there is none. */
  function NtList(t: Tally, id: string): seq<Mutation>
  {
    if id in t.nts then t.nts[id] else []
  }

  lemma {:induction false} InsertByPosSorted(l: seq<Mutation>, m: Mutation)
    requires StrictlyByPosition(l)
    ensures StrictlyByPosition(InsertByPos(l, m))
    decreases |l|
  {
    if l != [] && m.position > l[0].position {
      var rest := InsertByPos(l[1..], m);
      InsertByPosSorted(l[1..], m);
      forall k | 0 <= k < |rest| ensures l[0].position < rest[k].position {
        InsertByPosFrom(l[1..], m, rest[k]);
        if rest[k] != m {
          var j :| 0 <= j < |l[1..]| && l[1..][j] == rest[k];
          assert l[j + 1] == rest[k];
        }
      }
      var r := [l[0]] + rest;
      forall i, j | 0 <= i < j < |r| ensures r[i].position < r[j].position {
        if i > 0 {
          assert r[i] == rest[i - 1] && r[j] == rest[j - 1];
        } else {
          assert r[j] == rest[j - 1];
        }
      }
    }
  }

  /** Inserting into the ordered set: `x` is in the result exactly when it
      was in the set, or it is `m` and no element shares `m`'s position. */
  lemma {:induction false} InsertByPosHas(l: seq<Mutation>, m: Mutation, x: Mutation)
    requires StrictlyByPosition(l)
    ensures x in InsertByPos(l, m) <==> x in l || (x == m && PositionFree(l, m.position))
    decreases |l|
  {
    if l != [] {
      if m.position < l[0].position {
        forall y | y in l ensures y.position != m.position {
          var j :| 0 <= j < |l| && l[j] == y;
          assert j == 0 || l[0].position < l[j].position;
        }
      } else if m.position == l[0].position {
        assert l[0] in l;
      } else {
        InsertByPosHas(l[1..], m, x);
        assert l == [l[0]] + l[1..];
        assert PositionFree(l, m.position) <==> PositionFree(l[1..], m.position);
      }
    }
  }

  /** The arena keeps the genes and numbers of `c0`. */
  predicate SameIds(c0: seq<Codon>, codons: seq<Codon>)
  {
    |codons| == |c0| && forall g :: 0 <= g < |c0| ==> codons[g].gene == c0[g].gene && codons[g].number == c0[g].number
  }

  /** No other codon of `c0` shares codon `h`'s identifier. */
  predicate IdOwn(c0: seq<Codon>, h: nat)
  {
    h < |c0| && forall g :: 0 <= g < |c0| && g != h ==> CodonId(c0[g]) != CodonId(c0[h])
  }

  lemma UniqueIdOwn(c0: seq<Codon>, h: nat)
    requires UniqueIds(c0) && h < |c0|
    ensures IdOwn(c0, h)
  {
    forall g | 0 <= g < |c0| && g != h ensures CodonId(c0[g]) != CodonId(c0[h]) {
      if g > h {
        assert CodonId(c0[h]) != CodonId(c0[g]);
      }
    }
  }

  /** One touch of handle `g`: codon `h`'s set gains `m` when `g == h` and
      is kept otherwise, identifiers being unique. */
  lemma TouchNts(c0: seq<Codon>, t: Tally, m: Mutation, g: nat, h: nat)
    requires SameIds(c0, t.codons) && IdOwn(c0, h) && g < |c0| && h < |c0|
    ensures var t' := Touch(t, m, g); var id := CodonId(c0[h]);
      && SameIds(c0, t'.codons)
      && (id in t'.nts <==> id in t.nts || g == h)
      && NtList(t', id) == if g == h then InsertByPos(NtList(t, id), m) else NtList(t, id)
  {
    assert CodonId(t.codons[g]) == CodonId(c0[g]);
  }

  /** Touching the handles `hs` once each: codon `h`'s set gains `m` when `h`
      is among them, and is kept otherwise. */
  lemma {:induction false} TouchAllNts(c0: seq<Codon>, t: Tally, m: Mutation, hs: seq<nat>, h: nat)
    requires SameIds(c0, t.codons) && IdOwn(c0, h) && NoRepeats(hs) && h < |c0|
    requires forall g :: g in hs ==> g < |c0|
    ensures var t' := TouchAll(t, m, hs); var id := CodonId(c0[h]);
      && SameIds(c0, t'.codons)
      && (id in t'.nts <==> id in t.nts || h in hs)
      && NtList(t', id) == if h in hs then InsertByPos(NtList(t, id), m) else NtList(t, id)
    decreases |hs|
  {
    if hs != [] {
      var init := hs[..|hs| - 1];
      var g := hs[|hs| - 1];
      assert NoRepeats(init);
      assert forall g' :: g' in init ==> g' in hs;
      TouchAllNts(c0, t, m, init, h);
      assert g in hs;
      TouchNts(c0, TouchAll(t, m, init), m, g, h);
      assert h in hs <==> h in init || h == g;
      assert g == h ==> h !in init;
    }
  }

  /** Over the call, codon `h` has a mutation set exactly when some mutation
      falls inside it, and the set is ordered by position. */
  lemma {:induction false} TourNtsSorted(c0: seq<Codon>, index: map<int, seq<nat>>, ms: seq<Mutation>, h: nat)
    requires IndexOk(c0, index) && IdOwn(c0, h) && h < |c0|
    ensures var t := Tour(Fresh(c0), index, ms); var id := CodonId(c0[h]);
      (id in t.nts <==> Hit(c0[h], ms)) && StrictlyByPosition(NtList(t, id))
    decreases |ms|
  {
    if ms != [] {
      var init := ms[..|ms| - 1];
      var m := ms[|ms| - 1];
      var p := m.position - 1;
      var prev := Tour(Fresh(c0), index, init);
      TourNtsSorted(c0, index, init, h);
      TourOk(c0, index, init);
      RegisteredAtThree(c0, index, h, p);
      HitLast(c0[h], ms);
      if p in index {
        IndexHandles(c0, index, p);
        TouchAllNts(c0, prev, m, index[p], h);
        InsertByPosSorted(NtList(prev, CodonId(c0[h])), m);
      }
    }
  }

  /** What the index says about one position `p`: its list has no repeats
      and names codons of `c0`, and a codon is on it exactly when it covers
      `p`. */
  predicate IndexAt(c0: seq<Codon>, index: map<int, seq<nat>>, p: int)
  {
    && (p in index ==> NoRepeats(index[p]) && forall g :: g in index[p] ==> g < |c0|)
    && forall h :: 0 <= h < |c0| ==> ((p in index && h in index[p]) <==> Covers(c0[h], p))
  }

  lemma IndexAtOk(c0: seq<Codon>, index: map<int, seq<nat>>, p: int)
    requires IndexOk(c0, index)
    ensures IndexAt(c0, index, p)
  {
    if p in index {
      IndexHandles(c0, index, p);
    }
    forall h | 0 <= h < |c0| ensures (p in index && h in index[p]) <==> Covers(c0[h], p) {
      RegisteredAtThree(c0, index, h, p);
    }
  }

  /** One more mutation inserts itself into the set of every codon it falls
      in, and leaves the other sets alone. */
  lemma TourNtList(c0: seq<Codon>, index: map<int, seq<nat>>, ms: seq<Mutation>, h: nat)
    requires IdOwn(c0, h) && ms != [] && IndexAt(c0, index, ms[|ms| - 1].position - 1)
    requires SameIds(c0, Tour(Fresh(c0), index, ms[..|ms| - 1]).codons)
    ensures var m := ms[|ms| - 1]; var id := CodonId(c0[h]);
      var l0 := NtList(Tour(Fresh(c0), index, ms[..|ms| - 1]), id);
      NtList(Tour(Fresh(c0), index, ms), id) == if Covers(c0[h], m.position - 1) then InsertByPos(l0, m) else l0
  {
    TourSnoc(Fresh(c0), index, ms);
    var m := ms[|ms| - 1];
    var p := m.position - 1;
    if p in index {
      TouchAllNts(c0, Tour(Fresh(c0), index, ms[..|ms| - 1]), m, index[p], h);
    }
  }

  /** The mutation loop's last step, as `Tour` defines it. */
  lemma TourSnoc(t: Tally, index: map<int, seq<nat>>, ms: seq<Mutation>)
    requires ms != []
    ensures var m := ms[|ms| - 1]; var prev := Tour(t, index, ms[..|ms| - 1]);
      Tour(t, index, ms) == if m.position - 1 in index then TouchAll(prev, m, index[m.position - 1]) else prev
  {
  }

  /** `InNtSet` after one more mutation: the old members, and the new
      mutation when it falls in the codon at a position not seen before. */
  lemma InNtSetSnoc(c: Codon, ms: seq<Mutation>, x: Mutation)
    requires ms != []
    ensures var init, m := ms[..|ms| - 1], ms[|ms| - 1];
      InNtSet(c, ms, x) <==> InNtSet(c, init, x) || (x == m && Covers(c, m.position - 1) && FirstAt(init, m.position) == |init|)
  {
    var init, m := ms[..|ms| - 1], ms[|ms| - 1];
    var i := FirstAt(init, x.position);
    if i < |init| {
      assert ms[i] == init[i];
    }
  }

  /** Codon `h`'s recorded set holds exactly the mutations `InNtSet` names. */
  lemma {:induction false} TourNtsMembers(c0: seq<Codon>, index: map<int, seq<nat>>, ms: seq<Mutation>, h: nat, x: Mutation)
    requires IndexOk(c0, index) && IdOwn(c0, h) && h < |c0|
    ensures x in NtList(Tour(Fresh(c0), index, ms), CodonId(c0[h])) <==> InNtSet(c0[h], ms, x)
    decreases |ms|, 0
  {
    if ms != [] {
      var init := ms[..|ms| - 1];
      var m := ms[|ms| - 1];
      var c := c0[h];
      var l0 := NtList(Tour(Fresh(c0), index, init), CodonId(c));
      TourNtsMembers(c0, index, init, h, x);
      TourOk(c0, index, init);
      IndexAtOk(c0, index, m.position - 1);
      TourNtList(c0, index, ms, h);
      InNtSetSnoc(c, ms, x);
      if Covers(c, m.position - 1) {
        TourNtsSorted(c0, index, init, h);
        InsertByPosHas(l0, m, x);
        NtSetFree(c0, index, init, h, m.position);
      }
    }
  }

  /** A touched position has no element in codon `h`'s set exactly when no
      earlier mutation of the call is at that position. */
  lemma {:induction false} NtSetFree(c0: seq<Codon>, index: map<int, seq<nat>>, ms: seq<Mutation>, h: nat, q: int)
    requires IndexOk(c0, index) && IdOwn(c0, h) && h < |c0| && Covers(c0[h], q - 1)
    ensures PositionFree(NtList(Tour(Fresh(c0), index, ms), CodonId(c0[h])), q) <==> FirstAt(ms, q) == |ms|
    decreases |ms|, 1
  {
    var l := NtList(Tour(Fresh(c0), index, ms), CodonId(c0[h]));
    if FirstAt(ms, q) < |ms| {
      var y := ms[FirstAt(ms, q)];
      TourNtsMembers(c0, index, ms, h, y);
      assert y in l;
    } else {
      forall y | y in l ensures y.position != q {
        TourNtsMembers(c0, index, ms, h, y);
      }
    }
  }

  /** The nucleotide half of the report: codon `h` has a set in
      `codon_to_nt_map` exactly when some mutation falls inside it, and the
      set lists, ordered by position, the first mutation of the call at each
      position of the codon that the call touches. */
  lemma TourNts(c0: seq<Codon>, index: map<int, seq<nat>>, ms: seq<Mutation>, h: nat)
    requires IndexOk(c0, index) && UniqueIds(c0) && h < |c0|
    ensures var t := Tour(Fresh(c0), index, ms); var id := CodonId(c0[h]);
      && (id in t.nts <==> Hit(c0[h], ms))
      && StrictlyByPosition(NtList(t, id))
      && forall x :: x in NtList(t, id) <==> InNtSet(c0[h], ms, x)
  {
    UniqueIdOwn(c0, h);
    TourNtsSorted(c0, index, ms, h);
    forall x ensures x in NtList(Tour(Fresh(c0), index, ms), CodonId(c0[h])) <==> InNtSet(c0[h], ms, x) {
      TourNtsMembers(c0, index, ms, h, x);
    }
  }

  /** A codon is hit exactly when its first covering mutation exists. */
  lemma HitFirst(c: Codon, ms: seq<Mutation>)
    ensures Hit(c, ms) <==> FirstHit(c, ms) < |ms|
  {
    if Hit(c, ms) {
      var i :| 0 <= i < |ms| && Covers(c, ms[i].position - 1);
      assert FirstHit(c, ms) <= i;
    }
  }

  /** The handles of `hs` not already in `aff`, in the order of `hs`. */
  function NewHandles(hs: seq<nat>, aff: seq<nat>): seq<nat>
  {
    if hs == [] then []
    else NewHandles(hs[..|hs| - 1], aff) + (if hs[|hs| - 1] in aff then [] else [hs[|hs| - 1]])
  }

  lemma {:induction false} NewHandlesIncreasing(hs: seq<nat>, aff: seq<nat>)
    requires Increasing(hs)
    ensures Increasing(NewHandles(hs, aff))
    ensures forall x :: x in NewHandles(hs, aff) ==> x in hs && x !in aff
    decreases |hs|
  {
    if hs != [] {
      var init := hs[..|hs| - 1];
      var g := hs[|hs| - 1];
      NewHandlesIncreasing(init, aff);
      var r := NewHandles(hs, aff);
      var prev := NewHandles(init, aff);
      forall i, j | 0 <= i < j < |r| ensures r[i] < r[j] {
        if j >= |prev| {
          assert r[i] == prev[i] && prev[i] in init;
          var k :| 0 <= k < |init| && init[k] == prev[i];
          assert hs[k] < hs[|hs| - 1];
        }
      }
    }
  }

  /** The affected list grows by the touched handles not yet in it, in the
      order of the position's list. */
  lemma {:induction false} TouchAllAffectedList(t: Tally, m: Mutation, hs: seq<nat>)
    requires NoRepeats(hs) && forall g :: g in hs ==> g < |t.codons|
    ensures TouchAll(t, m, hs).affected == t.affected + NewHandles(hs, t.affected)
    decreases |hs|
  {
    if hs != [] {
      var init := hs[..|hs| - 1];
      var g := hs[|hs| - 1];
      assert NoRepeats(init);
      assert forall g' :: g' in init ==> g' in hs;
      TouchAllAffectedList(t, m, init);
      TouchAllAffected(t, m, init, g);
      assert g in hs && g !in init;
      assert t.affected + NewHandles(hs, t.affected) == (t.affected + NewHandles(init, t.affected)) +
        (if g in t.affected then [] else [g]);
    }
  }

  /** Codon `a` comes before codon `b` in `affected_codons`: its first
      covering mutation is earlier, or it is the same and `a` comes first in
      that position's handle list. */
  predicate Precedes(c0: seq<Codon>, ms: seq<Mutation>, a: nat, b: nat)
    requires a < |c0| && b < |c0|
  {
    FirstHit(c0[a], ms) < FirstHit(c0[b], ms) || (FirstHit(c0[a], ms) == FirstHit(c0[b], ms) && a < b)
  }

  /** Every listed handle names a codon, and the list is in first-affected
      order. */
  predicate FirstOrdered(c0: seq<Codon>, ms: seq<Mutation>, aff: seq<nat>)
  {
    forall k, k' :: 0 <= k < k' < |aff| ==> aff[k] < |c0| && aff[k'] < |c0| && Precedes(c0, ms, aff[k], aff[k'])
  }

  /** Appending handles whose first covering mutation is the newest keeps
      the first-affected order. */
  lemma OrderStep(c0: seq<Codon>, ms: seq<Mutation>, prior: seq<nat>, added: seq<nat>, r: nat)
    requires forall k :: 0 <= k < |prior| ==> prior[k] < |c0| && FirstHit(c0[prior[k]], ms) < r
    requires forall k :: 0 <= k < |added| ==> added[k] < |c0| && FirstHit(c0[added[k]], ms) == r
    requires forall k, k' :: 0 <= k < k' < |prior| ==> Precedes(c0, ms, prior[k], prior[k'])
    requires Increasing(added)
    ensures FirstOrdered(c0, ms, prior + added)
  {
    var aff := prior + added;
    forall k, k' | 0 <= k < k' < |aff| ensures aff[k] < |c0| && aff[k'] < |c0| && Precedes(c0, ms, aff[k], aff[k']) {
      if k' < |prior| {
        assert aff[k] == prior[k] && aff[k'] == prior[k'];
      } else if k < |prior| {
        assert aff[k] == prior[k] && aff[k'] == added[k' - |prior|];
      } else {
        assert aff[k] == added[k - |prior|] && aff[k'] == added[k' - |prior|];
      }
    }
  }

  /** The codons affected before the last mutation keep their first
      covering mutation, which comes before the last one. */
  lemma PriorRanks(c0: seq<Codon>, index: map<int, seq<nat>>, ms: seq<Mutation>)
    requires IndexOk(c0, index) && ms != []
    requires FirstOrdered(c0, ms[..|ms| - 1], Tour(Fresh(c0), index, ms[..|ms| - 1]).affected)
    ensures var init := ms[..|ms| - 1]; var prior := Tour(Fresh(c0), index, init).affected;
      && (forall k :: 0 <= k < |prior| ==> prior[k] < |c0| && FirstHit(c0[prior[k]], ms) < |init|)
      && (forall k, k' :: 0 <= k < k' < |prior| ==> Precedes(c0, ms, prior[k], prior[k']))
  {
    var init := ms[..|ms| - 1];
    var prior := Tour(Fresh(c0), index, init).affected;
    TourOk(c0, index, init);
    forall k | 0 <= k < |prior|
      ensures prior[k] < |c0| && FirstHit(c0[prior[k]], ms) == FirstHit(c0[prior[k]], init) < |init|
    {
      TourAffected(c0, index, init, prior[k]);
      HitFirst(c0[prior[k]], init);
    }
    forall k, k' | 0 <= k < k' < |prior| ensures Precedes(c0, ms, prior[k], prior[k']) {
      assert Precedes(c0, init, prior[k], prior[k']);
    }
  }

  /** The codons the last mutation affects first have it as their first
      covering mutation, and join in the order of the position's list. */
  lemma AddedRanks(c0: seq<Codon>, index: map<int, seq<nat>>, ms: seq<Mutation>)
    requires IndexOk(c0, index) && ms != [] && ms[|ms| - 1].position - 1 in index
    ensures var init := ms[..|ms| - 1]; var prev := Tour(Fresh(c0), index, init);
      var added := NewHandles(index[ms[|ms| - 1].position - 1], prev.affected);
      && Tour(Fresh(c0), index, ms).affected == prev.affected + added
      && Increasing(added)
      && (forall k :: 0 <= k < |added| ==> added[k] < |c0| && FirstHit(c0[added[k]], ms) == |init|)
  {
    var init := ms[..|ms| - 1];
    var m := ms[|ms| - 1];
    var p := m.position - 1;
    var prev := Tour(Fresh(c0), index, init);
    var hs := index[p];
    IndexHandles(c0, index, p);
    TourCodons(Fresh(c0), index, init);
    TouchAllAffectedList(prev, m, hs);
    NewHandlesIncreasing(hs, prev.affected);
    var added := NewHandles(hs, prev.affected);
    forall k | 0 <= k < |added| ensures added[k] < |c0| && FirstHit(c0[added[k]], ms) == |init| {
      assert added[k] in added;
      TourAffected(c0, index, init, added[k]);
      HitFirst(c0[added[k]], init);
    }
  }

  /** `affected_codons` is in first-affected order: by first covering
      mutation, then by the position's handle list. */
  lemma {:induction false} TourAffectedOrder(c0: seq<Codon>, index: map<int, seq<nat>>, ms: seq<Mutation>)
    requires IndexOk(c0, index)
    ensures FirstOrdered(c0, ms, Tour(Fresh(c0), index, ms).affected)
    decreases |ms|
  {
    if ms != [] {
      var init := ms[..|ms| - 1];
      var prior := Tour(Fresh(c0), index, init).affected;
      var p := ms[|ms| - 1].position - 1;
      TourAffectedOrder(c0, index, init);
      PriorRanks(c0, index, ms);
      // The facts of `PriorRanks`, in the form `OrderStep` asks for.
      assert var init' := ms[..|ms| - 1]; var prior' := Tour(Fresh(c0), index, init').affected;
        forall k :: 0 <= k < |prior'| ==> prior'[k] < |c0| && FirstHit(c0[prior'[k]], ms) < |init'|;
      var added := if p in index then NewHandles(index[p], prior) else [];
      if p in index {
        AddedRanks(c0, index, ms);
      } else {
        assert Tour(Fresh(c0), index, ms).affected == prior + added;
      }
      OrderStep(c0, ms, prior, added, |init|);
    }
  }

  /** A node none of whose positions is in the map changes no codon and
      reports nothing. */
  lemma {:induction false} SilentNode(c0: seq<Codon>, index: map<int, seq<nat>>, ms: seq<Mutation>, taxodium: bool)
    requires forall i :: 0 <= i < |ms| ==> ms[i].position - 1 !in index
    ensures Tour(Fresh(c0), index, ms) == Fresh(c0)
    ensures Outcome(c0, index, ms, taxodium) == ""
    ensures WriteAll(c0, index, ms, false) == c0
    decreases |ms|
  {
    if ms != [] {
      SilentNode(c0, index, ms[..|ms| - 1], taxodium);
    }
  }

  lemma JoinAtLeastFirst(parts: seq<string>, sep: string)
    requires parts != []
    ensures |Join(parts, sep)| >= |parts[0]|
  {
  }

  /** Every mutation recorded in the nucleotide sets has a non-empty name. */
  predicate NamesOk(t: Tally)
  {
    forall id, x :: id in t.nts && x in t.nts[id] ==> x.name != []
  }

  lemma {:induction false} InsertByPosFrom(l: seq<Mutation>, m: Mutation, x: Mutation)
    requires x in InsertByPos(l, m)
    ensures x in l || x == m
    decreases |l|
  {
    if l != [] && m.position > l[0].position {
      if x != l[0] {
        InsertByPosFrom(l[1..], m, x);
      }
    }
  }

  lemma {:induction false} TourNames(t: Tally, index: map<int, seq<nat>>, ms: seq<Mutation>)
    requires NamesOk(t) && forall i :: 0 <= i < |ms| ==> ms[i].name != []
    ensures NamesOk(Tour(t, index, ms))
    decreases |ms|
  {
    if ms != [] {
      TourNames(t, index, ms[..|ms| - 1]);
      var m := ms[|ms| - 1];
      if m.position - 1 in index {
        TouchAllNames(Tour(t, index, ms[..|ms| - 1]), m, index[m.position - 1]);
      }
    }
  }

  lemma {:induction false} TouchAllNames(t: Tally, m: Mutation, hs: seq<nat>)
    requires NamesOk(t) && m.name != []
    ensures NamesOk(TouchAll(t, m, hs))
    decreases |hs|
  {
    if hs != [] {
      var prev := TouchAll(t, m, hs[..|hs| - 1]);
      TouchAllNames(t, m, hs[..|hs| - 1]);
      var h := hs[|hs| - 1];
      if h < |prev.codons| {
        var id := CodonId(prev.codons[h]);
        var l := if id in prev.nts then prev.nts[id] else [];
        forall x | x in InsertByPos(l, m) ensures x.name != [] {
          InsertByPosFrom(l, m, x);
        }
      }
    }
  }

  /** With non-empty mutation strings, the call reports "" exactly when no
      codon was touched. */
  lemma ReportEmptyIff(c0: seq<Codon>, index: map<int, seq<nat>>, ms: seq<Mutation>, taxodium: bool)
    requires forall i :: 0 <= i < |ms| ==> ms[i].name != []
    ensures Outcome(c0, index, ms, taxodium) == "" <==> Tour(Fresh(c0), index, ms).affected == []
  {
    var t := Tour(Fresh(c0), index, ms);
    TourOk(c0, index, ms);
    TourNames(Fresh(c0), index, ms);
    if t.affected != [] {
      var pg := ProtGroups(t, taxodium);
      var ng := NucGroups(t);
      JoinAtLeastFirst(pg, ";");
      JoinAtLeastFirst(ng, ";");
      var h := t.affected[0];
      var l := t.nts[CodonId(t.codons[h])];
      assert l[0] in l;
      JoinAtLeastFirst(Names(l), ",");
      assert |ng[0]| > 0;
      assert |pg[0]| > 0;
    }
  }

  // ---------------------------------------------------------------------
  // `std::sort` with `operator<` on positions.

  predicate SortedByPosition(ms: seq<Mutation>)
  {
    forall i, j :: 0 <= i < j < |ms| ==> ms[i].position <= ms[j].position
  }

  /** Where `m` goes in the sorted list `l`: before the first element with
      a larger position. */
  function InsertionPoint(l: seq<Mutation>, m: Mutation): (k: nat)
    ensures k <= |l|
    ensures forall j :: 0 <= j < k ==> l[j].position <= m.position
    ensures k < |l| ==> l[k].position > m.position
  {
    if l == [] || l[0].position > m.position then 0
    else 1 + InsertionPoint(l[1..], m)
  }

  /** `l` with `m` inserted at its insertion point. */
  function Inserted(l: seq<Mutation>, m: Mutation): seq<Mutation>
  {
    var k := InsertionPoint(l, m);
    l[..k] + [m] + l[k..]
  }

  lemma InsertedAt(l: seq<Mutation>, m: Mutation)
    ensures var k := InsertionPoint(l, m);
      |Inserted(l, m)| == |l| + 1 &&
      forall i :: 0 <= i < |l| + 1 ==> Inserted(l, m)[i] == if i < k then l[i] else if i == k then m else l[i - 1]
  {
  }

  lemma InsertedSorted(l: seq<Mutation>, m: Mutation)
    requires SortedByPosition(l)
    ensures SortedByPosition(Inserted(l, m))
  {
    var r := Inserted(l, m);
    var k := InsertionPoint(l, m);
    InsertedAt(l, m);
    forall i, j | 0 <= i < j < |r| ensures r[i].position <= r[j].position {
      if i == k {
        assert l[j - 1].position >= l[k].position;
      } else if j == k {
        assert l[i].position <= m.position;
      }
    }
  }

  lemma InsertedMultiset(l: seq<Mutation>, m: Mutation)
    ensures multiset(Inserted(l, m)) == multiset(l) + multiset{m}
  {
    var k := InsertionPoint(l, m);
    assert l == l[..k] + l[k..];
  }

  lemma SortStep(ms: seq<Mutation>, i: nat, sorted: seq<Mutation>)
    requires i < |ms| && SortedByPosition(sorted) && multiset(sorted) == multiset(ms[..i])
    ensures SortedByPosition(Inserted(sorted, ms[i])) && multiset(Inserted(sorted, ms[i])) == multiset(ms[..i + 1])
  {
    InsertedSorted(sorted, ms[i]);
    InsertedMultiset(sorted, ms[i]);
    assert ms[..i + 1] == ms[..i] + [ms[i]];
  }

  /** Sorts a node's mutations by position: some ordering `std::sort` may
      produce. */
  method SortByPosition(ms: seq<Mutation>) returns (sorted: seq<Mutation>)
    ensures SortedByPosition(sorted) && multiset(sorted) == multiset(ms)
  {
    sorted := [];
    var i := 0;
    while i < |ms|
      invariant 0 <= i <= |ms|
      invariant SortedByPosition(sorted) && multiset(sorted) == multiset(ms[..i])
    {
      SortStep(ms, i, sorted);
      var k := InsertionPoint(sorted, ms[i]);
      sorted := sorted[..k] + [ms[i]] + sorted[k..];
      i := i + 1;
    }
    assert ms[..i] == ms;
  }

  /** Writing bases keeps the index and the three-base shape of every codon. */
  lemma WriteAllKeeps(codons: seq<Codon>, index: map<int, seq<nat>>, ms: seq<Mutation>, useParent: bool)
    requires IndexOk(codons, index) && TripletsOk(codons)
    ensures IndexOk(WriteAll(codons, index, ms, useParent), index)
    ensures TripletsOk(WriteAll(codons, index, ms, useParent))
  {
    var r := WriteAll(codons, index, ms, useParent);
    forall h | 0 <= h < |codons| ensures r[h].start == codons[h].start && |r[h].triplet| == 3 {
      WriteAllAt(codons, index, ms, useParent, h);
    }
    SameStartsIndex(codons, r, index);
  }

  /** The codon map of `translate_main`: the shared codon records, mutated in
      place as the tree is walked, and the fixed position index. */
  class CodonState {
    var codons: seq<Codon>
    const index: map<int, seq<nat>>

    ghost predicate Valid()
      reads this
    {
      IndexOk(codons, index) && TripletsOk(codons)
    }

    constructor (table: CodonTable)
      requires IndexOk(table.codons, table.index) && TripletsOk(table.codons)
      ensures Valid() && codons == table.codons && index == table.index
    {
      codons := table.codons;
      index := table.index;
    }

    /** `undo_mutations`: every codon covering a mutated position gets the
        parent base back there, mutation by mutation. */
    method UndoMutations(ms: seq<Mutation>)
      requires Valid()
      modifies this
      ensures Valid()
      ensures codons == WriteAll(old(codons), index, ms, true)
    {
      ghost var c0 := codons;
      var i := 0;
      while i < |ms|
        invariant 0 <= i <= |ms|
        invariant codons == WriteAll(c0, index, ms[..i], true)
      {
        var m := ms[i];
        var pos := m.position - 1;
        if pos in index {
          var hs := index[pos];
          IndexHandles(c0, index, pos);
          ghost var start := codons;
          var k := 0;
          while k < |hs|
            invariant 0 <= k <= |hs|
            invariant codons == SetBase(start, hs[..k], pos, m.parNuc)
            invariant |codons| == |c0|
          {
            var h := hs[k];
            assert h in hs;
            codons := codons[h := Mutate(codons[h], pos, m.parNuc)];
            assert hs[..k + 1][..k] == hs[..k];
            k := k + 1;
          }
          assert hs[..k] == hs;
        }
        assert ms[..i + 1][..i] == ms[..i];
        i := i + 1;
      }
      assert ms[..i] == ms;
      WriteAllKeeps(c0, index, ms, true);
    }

    /** `do_mutations`: sorts the node's mutations (returned as `sorted`, the
        node's list as left behind), writes each mutated base into every codon
        covering its position, and reports the changed codons. */
    method DoMutations(ms: seq<Mutation>, taxodium: bool) returns (sorted: seq<Mutation>, result: string)
      requires Valid()
      modifies this
      ensures Valid()
      ensures SortedByPosition(sorted) && multiset(sorted) == multiset(ms)
      ensures codons == WriteAll(old(codons), index, sorted, false)
      ensures result == Outcome(old(codons), index, sorted, taxodium)
    {
      sorted := SortByPosition(ms);
      ghost var c0 := codons;
      var orig, affected, nts := TouchEach(sorted);
      TourOk(c0, index, sorted);
      TourCodons(Fresh(c0), index, sorted);
      WriteAllKeeps(c0, index, sorted, false);
      result := Render(Tally(codons, orig, affected, nts), taxodium);
    }

    /** The loop of `do_mutations` over the sorted mutations: every codon
        covering a mutated position is recorded and mutated. */
    method TouchEach(sorted: seq<Mutation>)
      returns (orig: map<string, char>, affected: seq<nat>, nts: map<string, seq<Mutation>>)
      requires Valid()
      modifies this
      ensures Tally(codons, orig, affected, nts) == Tour(Fresh(old(codons)), index, sorted)
      ensures |codons| == |old(codons)|
    {
      ghost var c0 := codons;
      orig, affected, nts := map[], [], map[];
      var i := 0;
      while i < |sorted|
        invariant 0 <= i <= |sorted|
        invariant Tally(codons, orig, affected, nts) == Tour(Fresh(c0), index, sorted[..i])
        invariant |codons| == |c0|
      {
        var m := sorted[i];
        var pos := m.position - 1;
        if pos in index {
          IndexHandles(c0, index, pos);
          orig, affected, nts := TouchCodons(m, index[pos], orig, affected, nts);
        }
        assert sorted[..i + 1][..i] == sorted[..i];
        i := i + 1;
      }
      assert sorted[..i] == sorted;
    }

    /** Lines 349-363 for one codon `h` on the position's list: its id is
        recorded, it joins the affected list once, takes the mutated base and
        gains `m` in its nucleotide set. */
    method TouchCodon(m: Mutation, h: nat, orig: map<string, char>, affected: seq<nat>,
                      nts: map<string, seq<Mutation>>)
      returns (orig': map<string, char>, affected': seq<nat>, nts': map<string, seq<Mutation>>)
      requires h < |codons|
      modifies this
      ensures Tally(codons, orig', affected', nts') == Touch(Tally(old(codons), orig, affected, nts), m, h)
    {
      var c := codons[h];
      var id := c.gene + ":" + NatToString(c.number + 1);
      assert id == CodonId(c);
      // orig_proteins: insert if absent; affected_codons: push if absent
      orig' := if id in orig then orig else orig[id := Protein(c)];
      affected' := if h in affected then affected else affected + [h];
      codons := codons[h := Mutate(c, m.position - 1, m.mutNuc)];
      nts' := nts[id := InsertByPos(if id in nts then nts[id] else [], m)];
    }

    /** Lines 347-363 for one mutation: every codon on the position's list
        records its id, joins the affected list once, takes the mutated base
        and gains `m` in its nucleotide set. */
    method TouchCodons(m: Mutation, hs: seq<nat>, orig: map<string, char>, affected: seq<nat>,
                       nts: map<string, seq<Mutation>>)
      returns (orig': map<string, char>, affected': seq<nat>, nts': map<string, seq<Mutation>>)
      requires forall h :: h in hs ==> h < |codons|
      modifies this
      ensures Tally(codons, orig', affected', nts') == TouchAll(Tally(old(codons), orig, affected, nts), m, hs)
      ensures |codons| == |old(codons)|
    {
      ghost var start := Tally(codons, orig, affected, nts);
      orig', affected', nts' := orig, affected, nts;
      var k := 0;
      while k < |hs|
        invariant 0 <= k <= |hs|
        invariant Tally(codons, orig', affected', nts') == TouchAll(start, m, hs[..k])
        invariant |codons| == |start.codons|
      {
        var h := hs[k];
        assert h in hs;
        orig', affected', nts' := TouchCodon(m, h, orig', affected', nts');
        TouchAllNext(start, m, hs, k);
        k := k + 1;
      }
      assert hs[..k] == hs;
    }
  }

  /** Lines 367-398 of `do_mutations`: one protein group and one nucleotide
      group per affected codon, each closed by ';', then the last ';' cut. */
  method Render(t: Tally, taxodium: bool) returns (result: string)
    requires Recorded(t)
    ensures result == Report(t, taxodium)
  {
    var prot, nuc := "", "";
    ghost var pg, ng := ProtGroups(t, taxodium), NucGroups(t);
    var j := 0;
    while j < |t.affected|
      invariant 0 <= j <= |t.affected|
      invariant prot == Terminated(pg[..j], ";") && nuc == Terminated(ng[..j], ";")
    {
      prot, nuc := AddGroups(t, taxodium, j, prot, nuc);
      TerminatedNext(pg, j, ";");
      TerminatedNext(ng, j, ";");
      j := j + 1;
    }
    assert pg[..j] == pg && ng[..j] == ng;
    result := Finish(t, taxodium, prot, nuc);
  }

  /** Lines 386-398: the final ';' cut from both strings, then the result. */
  method Finish(t: Tally, taxodium: bool, prot: string, nuc: string) returns (result: string)
    requires Recorded(t)
    requires prot == Terminated(ProtGroups(t, taxodium), ";") && nuc == Terminated(NucGroups(t), ";")
    ensures result == Report(t, taxodium)
  {
    var prot, nuc := prot, nuc;
    StripLast(NucGroups(t), ';');
    if |nuc| > 0 && nuc[|nuc| - 1] == ';' {
      nuc := nuc[..|nuc| - 1];
    }
    StripLast(ProtGroups(t, taxodium), ';');
    if |prot| > 0 && prot[|prot| - 1] == ';' {
      prot := prot[..|prot| - 1];
    }
    if nuc == "" || prot == "" {
      result := "";
    } else if taxodium {
      result := prot;
    } else {
      result := prot + "\t" + nuc;
    }
  }

  lemma TerminatedNext(parts: seq<string>, j: nat, sep: string)
    requires j < |parts|
    ensures Terminated(parts[..j + 1], sep) == Terminated(parts[..j], sep) + parts[j] + sep
  {
    assert parts[..j + 1][..j] == parts[..j];
  }

  /** Lines 368-384 for the `j`-th affected codon. */
  method AddGroups(t: Tally, taxodium: bool, j: nat, prot: string, nuc: string) returns (prot': string, nuc': string)
    requires Recorded(t) && j < |t.affected|
    ensures prot' == prot + ProtGroups(t, taxodium)[j] + ";"
    ensures nuc' == nuc + NucGroups(t)[j] + ";"
  {
    var h := t.affected[j];
    var group := GroupText(t, h, taxodium);
    prot' := prot + group + ";";
    var c := t.codons[h];
    ghost var l := t.nts[CodonId(c)];
    var names := NamesText(t.nts[c.gene + ":" + NatToString(c.number + 1)]);
    nuc' := nuc + names;
    CloseGroup(nuc, Names(l));
    if |nuc'| > 0 && nuc'[|nuc'| - 1] == ',' {
      nuc' := nuc'[..|nuc'| - 1] + ";";
    }
  }

  /** Line 371 or 373 for codon `h`, without the closing ';'. */
  method GroupText(t: Tally, h: nat, taxodium: bool) returns (group: string)
    requires h < |t.codons| && CodonId(t.codons[h]) in t.orig
    ensures group == ProtGroup(t, h, taxodium)
  {
    var c := t.codons[h];
    var id := c.gene + ":" + NatToString(c.number + 1);
    var pieces := Split(id, ':');
    assert pieces == IdPieces(c);
    var o := t.orig[id];
    if taxodium {
      group := pieces[0] + ":" + [o] + "_" + pieces[1] + "_" + [Protein(c)];
    } else {
      group := pieces[0] + ":" + [o] + pieces[1] + [Protein(c)];
    }
  }

  /** Lines 376-378: every mutation string of the set followed by ','. */
  method NamesText(l: seq<Mutation>) returns (text: string)
    ensures text == Terminated(Names(l), ",")
  {
    text := "";
    var x := 0;
    while x < |l|
      invariant 0 <= x <= |l|
      invariant text == Terminated(Names(l)[..x], ",")
    {
      text := text + l[x].name + ",";
      assert Names(l)[..x + 1][..x] == Names(l)[..x];
      x := x + 1;
    }
    assert Names(l)[..x] == Names(l);
  }

  /** Lines 380-383: the codon's trailing ',' becomes ';'. */
  lemma CloseGroup(before: string, names: seq<string>)
    requires names != []
    ensures var s := before + Terminated(names, ",");
      |s| > 0 && s[|s| - 1] == ',' && s[..|s| - 1] + ";" == before + Join(names, ",") + ";"
  {
    TerminatedStrip(names, ',');
    var t := Terminated(names, ",");
    assert (before + t)[..|before + t| - 1] == before + t[..|t| - 1];
  }

  /** Lines 386-391: cutting the final separator of a terminated list leaves
      the joined list. */
  lemma StripLast(parts: seq<string>, sep: char)
    ensures var s := Terminated(parts, [sep]);
      (if |s| > 0 && s[|s| - 1] == sep then s[..|s| - 1] else s) == Join(parts, [sep])
  {
    if parts != [] {
      TerminatedStrip(parts, sep);
    }
  }
}
