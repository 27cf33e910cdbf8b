// Reordering a node's mutation list: `do_mutations` sorts the vector it is
// given in place, and the tree keeps the sorted vector. With one mutation per
// position the sort has exactly one possible outcome, and applying or
// reverting the list does not depend on its order.
module Order {
  import opened CodonMap
  import opened Engine

  /** The list sorted by position: each mutation inserted in turn at its
      insertion point. */
  function ByPosition(ms: seq<Mutation>): seq<Mutation>
  {
    if ms == [] then [] else Inserted(ByPosition(ms[..|ms| - 1]), ms[|ms| - 1])
  }

  lemma {:induction false} ByPositionSorts(ms: seq<Mutation>)
    ensures SortedByPosition(ByPosition(ms))
    ensures multiset(ByPosition(ms)) == multiset(ms)
  {
    if ms != [] {
      var init := ms[..|ms| - 1];
      ByPositionSorts(init);
      InsertedSorted(ByPosition(init), ms[|ms| - 1]);
      InsertedMultiset(ByPosition(init), ms[|ms| - 1]);
      assert ms == init + [ms[|ms| - 1]];
    }
  }

  /** An element found twice in a list is found at two indices of any
      permutation of it. */
  lemma SecondIndex(a: seq<Mutation>, k: nat) returns (l: nat)
    requires k < |a| && multiset(a)[a[k]] >= 2
    ensures l < |a| && l != k && a[l] == a[k]
  {
    assert a == a[..k] + [a[k]] + a[k + 1..];
    assert multiset(a) == multiset(a[..k]) + multiset{a[k]} + multiset(a[k + 1..]);
    if a[k] in a[..k] {
      var i :| 0 <= i < k && a[..k][i] == a[k];
      l := i;
    } else {
      assert a[k] in multiset(a[k + 1..]);
      var i :| 0 <= i < |a| - k - 1 && a[k + 1..][i] == a[k];
      l := k + 1 + i;
    }
  }

  /** Two entries of `b` come from two different entries of its permutation `a`. */
  lemma TwoIndices(a: seq<Mutation>, b: seq<Mutation>, i: nat, j: nat) returns (k: nat, l: nat)
    requires multiset(a) == multiset(b) && i < j < |b|
    ensures k < |a| && l < |a| && k != l && a[k] == b[i] && a[l] == b[j]
  {
    assert b[i] in multiset(b) && b[j] in multiset(b);
    k :| 0 <= k < |a| && a[k] == b[i];
    l :| 0 <= l < |a| && a[l] == b[j];
    if k == l {
      assert b == b[..j] + b[j..];
      assert b[i] == b[..j][i] && b[j] == b[j..][0];
      assert multiset(b)[b[i]] == multiset(b[..j])[b[i]] + multiset(b[j..])[b[i]];
      l := SecondIndex(a, k);
    }
  }

  /** A permutation of a list with distinct positions has distinct positions. */
  lemma DistinctPermuted(a: seq<Mutation>, b: seq<Mutation>)
    requires DistinctPositions(a) && multiset(a) == multiset(b)
    ensures DistinctPositions(b)
  {
    forall i, j | 0 <= i < j < |b| ensures b[i].position != b[j].position {
      var k, l := TwoIndices(a, b, i, j);
      if k < l {
        assert a[k].position != a[l].position;
      } else {
        assert a[l].position != a[k].position;
      }
    }
  }

  /** With distinct positions, a sorted permutation is unique. */
  lemma {:induction false} SortedUnique(a: seq<Mutation>, b: seq<Mutation>)
    requires SortedByPosition(a) && SortedByPosition(b) && DistinctPositions(a)
    requires multiset(a) == multiset(b)
    ensures a == b
    decreases |a|
  {
    if a == [] {
      assert |multiset(b)| == 0;
    } else {
      assert |b| == |multiset(b)| == |multiset(a)| == |a|;
      SameFirst(a, b);
      SameTail(a, b);
      assert SortedByPosition(a[1..]) && SortedByPosition(b[1..]) && DistinctPositions(a[1..]);
      SortedUnique(a[1..], b[1..]);
      assert a == [a[0]] + a[1..] && b == [b[0]] + b[1..];
    }
  }

  /** Both sorted permutations start with the mutation of least position. */
  lemma SameFirst(a: seq<Mutation>, b: seq<Mutation>)
    requires SortedByPosition(a) && SortedByPosition(b) && DistinctPositions(a)
    requires multiset(a) == multiset(b) && a != [] && b != []
    ensures a[0] == b[0]
  {
    assert a[0] in multiset(b) && b[0] in multiset(a);
    var i :| 0 <= i < |a| && a[i] == b[0];
    var j :| 0 <= j < |b| && b[j] == a[0];
    assert a[0].position <= a[i].position == b[0].position <= b[j].position == a[0].position;
    assert i == 0;
  }

  lemma SameTail(a: seq<Mutation>, b: seq<Mutation>)
    requires multiset(a) == multiset(b) && a != [] && b != [] && a[0] == b[0]
    ensures multiset(a[1..]) == multiset(b[1..])
  {
    assert a == [a[0]] + a[1..] && b == [b[0]] + b[1..];
    assert multiset(a[1..]) == multiset(a) - multiset{a[0]};
    assert multiset(b[1..]) == multiset(b) - multiset{b[0]};
  }

  /** Whatever order `std::sort` picks, with one mutation per position the
      sorted list is `ByPosition` of the original. */
  lemma SortedIsByPosition(ms: seq<Mutation>, sorted: seq<Mutation>)
    requires DistinctPositions(ms)
    requires SortedByPosition(sorted) && multiset(sorted) == multiset(ms)
    ensures sorted == ByPosition(ms)
  {
    ByPositionSorts(ms);
    DistinctPermuted(ms, ByPosition(ms));
    SortedUnique(ByPosition(ms), sorted);
  }

  /** The base written at `q` does not depend on the order of the list. */
  lemma WrittenPermuted(a: seq<Mutation>, b: seq<Mutation>, q: int, before: char, useParent: bool)
    requires DistinctPositions(a) && DistinctPositions(b) && multiset(a) == multiset(b)
    ensures Written(a, q, before, useParent) == Written(b, q, before, useParent)
  {
    if i :| 0 <= i < |a| && a[i].position - 1 == q {
      assert a[i] in multiset(b);
      var j :| 0 <= j < |b| && b[j] == a[i];
      WrittenAt(a, q, before, useParent, i);
      WrittenAt(b, q, before, useParent, j);
    } else {
      forall j | 0 <= j < |b| ensures b[j].position - 1 != q {
        assert b[j] in multiset(a);
      }
      WrittenNone(a, q, before, useParent);
      WrittenNone(b, q, before, useParent);
    }
  }

  /** Applying (or reverting) a permutation of the list gives the same arena. */
  lemma WriteAllPermuted(codons: seq<Codon>, index: map<int, seq<nat>>, a: seq<Mutation>, b: seq<Mutation>, useParent: bool)
    requires IndexOk(codons, index) && TripletsOk(codons)
    requires DistinctPositions(a) && multiset(a) == multiset(b)
    ensures WriteAll(codons, index, a, useParent) == WriteAll(codons, index, b, useParent)
  {
    DistinctPermuted(a, b);
    var ra := WriteAll(codons, index, a, useParent);
    var rb := WriteAll(codons, index, b, useParent);
    forall h | 0 <= h < |codons| ensures ra[h] == rb[h] {
      WriteAllPermutedAt(codons, index, a, b, useParent, h);
    }
  }

  lemma WriteAllPermutedAt(codons: seq<Codon>, index: map<int, seq<nat>>, a: seq<Mutation>, b: seq<Mutation>,
                           useParent: bool, h: nat)
    requires IndexOk(codons, index) && TripletsOk(codons) && h < |codons|
    requires DistinctPositions(a) && DistinctPositions(b) && multiset(a) == multiset(b)
    ensures WriteAll(codons, index, a, useParent)[h] == WriteAll(codons, index, b, useParent)[h]
  {
    var c := codons[h];
    var ra := WriteAll(codons, index, a, useParent)[h];
    var rb := WriteAll(codons, index, b, useParent)[h];
    WriteAllAt(codons, index, a, useParent, h);
    WriteAllAt(codons, index, b, useParent, h);
    WrittenPermuted(a, b, c.start, c.triplet[0], useParent);
    WrittenPermuted(a, b, c.start + 1, c.triplet[1], useParent);
    WrittenPermuted(a, b, c.start + 2, c.triplet[2], useParent);
    assert ra.triplet == [ra.triplet[0], ra.triplet[1], ra.triplet[2]];
    assert rb.triplet == [rb.triplet[0], rb.triplet[1], rb.triplet[2]];
  }

  /** The parent bases of a permuted list still match. */
  lemma ParentsMatchPermuted(codons: seq<Codon>, a: seq<Mutation>, b: seq<Mutation>)
    requires ParentsMatch(codons, a) && multiset(a) == multiset(b)
    ensures ParentsMatch(codons, b)
  {
    forall i, h | 0 <= i < |b| && 0 <= h < |codons| && Covers(codons[h], b[i].position - 1) && |codons[h].triplet| == 3
      ensures codons[h].triplet[b[i].position - 1 - codons[h].start] == b[i].parNuc
    {
      assert b[i] in multiset(a);
      var k :| 0 <= k < |a| && a[k] == b[i];
    }
  }
}
