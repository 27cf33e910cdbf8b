// The depth-first driver of `translate_main` (and of the taxodium variant):
// one codon arena mutated along the walk, rolled back to the common ancestor
// whenever the walk jumps to another branch, and the first-seen code table
// for amino-acid changes.
module Driver {
  import opened Text
  import opened CodonMap
  import opened Engine
  import opened Order

  /** The tree as a parent array: node 0 is the root (its parent, -1, is the
      null parent) and every other node's parent has a smaller number. */
  predicate IsTree(parent: seq<int>)
  {
    |parent| > 0 && parent[0] == -1 && forall x :: 0 < x < |parent| ==> 0 <= parent[x] < x
  }

  /** `a` is `x` or an ancestor of `x`. */
  predicate AncOrSelf(parent: seq<int>, a: int, x: nat)
    requires IsTree(parent) && x < |parent|
    decreases x
  {
    x == a || (x > 0 && AncOrSelf(parent, a, parent[x]))
  }

  /** An ancestor never has a larger number than its descendant. */
  lemma {:induction false} AncBelow(parent: seq<int>, a: int, x: nat)
    requires IsTree(parent) && x < |parent| && AncOrSelf(parent, a, x)
    ensures 0 <= a <= x
    decreases x
  {
    if x != a {
      AncBelow(parent, a, parent[x]);
    }
  }

  /** `MAT::LCA`: climb from the deeper-numbered node until both meet. The
      result is a common ancestor. */
  function Lca(parent: seq<int>, a: nat, b: nat): (r: nat)
    requires IsTree(parent) && a < |parent| && b < |parent|
    ensures r < |parent| && AncOrSelf(parent, r, a) && AncOrSelf(parent, r, b)
    decreases a + b
  {
    if a == b then a
    else if a > b then Lca(parent, parent[a], b)
    else Lca(parent, a, parent[b])
  }

  /** ... and every common ancestor is an ancestor of it: it is the lowest. */
  lemma {:induction false} LcaLowest(parent: seq<int>, a: nat, b: nat, c: int)
    requires IsTree(parent) && a < |parent| && b < |parent|
    requires AncOrSelf(parent, c, a) && AncOrSelf(parent, c, b)
    ensures AncOrSelf(parent, c, Lca(parent, a, b))
    decreases a + b
  {
    if a > b {
      AncBelow(parent, c, b);
      LcaLowest(parent, parent[a], b, c);
    } else if a < b {
      AncBelow(parent, c, a);
      LcaLowest(parent, a, parent[b], c);
    }
  }

  /** The arena at node `x`: the built arena with the mutations of every node
      from the root down to `x` applied in turn (`x == -1` is the built arena). */
  function Genome(c0: seq<Codon>, index: map<int, seq<nat>>, parent: seq<int>, muts: seq<seq<Mutation>>, x: int): seq<Codon>
    requires IsTree(parent) && |muts| == |parent| && -1 <= x < |parent|
    decreases x + 1
  {
    if x < 0 then c0 else WriteAll(Genome(c0, index, parent, muts, parent[x]), index, muts[x], false)
  }

  lemma {:induction false} GenomeOk(c0: seq<Codon>, index: map<int, seq<nat>>, parent: seq<int>, muts: seq<seq<Mutation>>, x: int)
    requires IsTree(parent) && |muts| == |parent| && -1 <= x < |parent|
    requires IndexOk(c0, index) && TripletsOk(c0)
    ensures IndexOk(Genome(c0, index, parent, muts, x), index) && TripletsOk(Genome(c0, index, parent, muts, x))
    decreases x + 1
  {
    if x >= 0 {
      GenomeOk(c0, index, parent, muts, parent[x]);
      WriteAllKeeps(Genome(c0, index, parent, muts, parent[x]), index, muts[x], false);
    }
  }

  /** Every node's genome keeps the genes and numbers of the built arena, so
      its `gene:number` identifiers stay unique. */
  lemma {:induction false} GenomeIds(c0: seq<Codon>, index: map<int, seq<nat>>, parent: seq<int>, muts: seq<seq<Mutation>>, x: int)
    requires IsTree(parent) && |muts| == |parent| && -1 <= x < |parent|
    requires UniqueIds(c0)
    ensures UniqueIds(Genome(c0, index, parent, muts, x))
    decreases x + 1
  {
    if x >= 0 {
      var before := Genome(c0, index, parent, muts, parent[x]);
      GenomeIds(c0, index, parent, muts, parent[x]);
      forall h | 0 <= h < |before|
        ensures WriteAll(before, index, muts[x], false)[h].gene == before[h].gene
        ensures WriteAll(before, index, muts[x], false)[h].number == before[h].number
      {
        WriteAllIds(before, index, muts[x], false, h);
      }
      UniqueIdsKept(before, WriteAll(before, index, muts[x], false));
    }
  }

  /** What the walk relies on from the tree: one mutation per position on
      each node, and each non-root node's parent bases are the bases of its
      parent's arena. */
  ghost predicate Consistent(c0: seq<Codon>, index: map<int, seq<nat>>, parent: seq<int>, muts: seq<seq<Mutation>>)
    requires IsTree(parent) && |muts| == |parent|
  {
    && (forall x :: 0 <= x < |muts| ==> DistinctPositions(muts[x]))
    && (forall x :: 0 < x < |muts| ==> ParentsMatch(Genome(c0, index, parent, muts, parent[x]), muts[x]))
  }

  /** `depth_first_expansion`: starts at the root, and every later node's
      parent lies on the path to the node before it, which the node itself
      does not (a pre-order walk). */
  predicate DfsOrder(parent: seq<int>, dfs: seq<nat>)
    requires IsTree(parent)
  {
    && Nodes(parent, dfs)
    && (|dfs| > 0 ==> dfs[0] == 0)
    && (forall k :: 0 < k < |dfs| ==> PreorderStep(parent, dfs[k - 1], dfs[k]))
  }

  predicate Nodes(parent: seq<int>, dfs: seq<nat>)
  {
    forall k :: 0 <= k < |dfs| ==> dfs[k] < |parent|
  }

  predicate PreorderStep(parent: seq<int>, last: nat, node: nat)
    requires IsTree(parent)
  {
    last < |parent| && node < |parent| && AncOrSelf(parent, parent[node], last) && !AncOrSelf(parent, node, last)
  }

  /** On a pre-order step the common ancestor of the new node and the last
      one is exactly the new node's parent. */
  lemma StepLca(parent: seq<int>, last: nat, node: nat)
    requires IsTree(parent) && last < |parent| && node < |parent|
    requires AncOrSelf(parent, parent[node], last) && !AncOrSelf(parent, node, last)
    ensures node > 0 && Lca(parent, node, last) == parent[node]
  {
    AncBelow(parent, parent[node], last);
    var r := Lca(parent, node, last);
    assert AncOrSelf(parent, parent[node], node);
    LcaLowest(parent, node, last, parent[node]);
    assert r != node;
    AncBelow(parent, r, parent[node]);
    AncBelow(parent, parent[node], r);
  }

  /** What `do_mutations` returns when the walk visits `x`: its sorted list
      applied to the arena of its parent. */
  function Visit(c0: seq<Codon>, index: map<int, seq<nat>>, parent: seq<int>, muts: seq<seq<Mutation>>,
                 x: nat, taxodium: bool): string
    requires IsTree(parent) && |muts| == |parent| && x < |parent|
  {
    Outcome(Genome(c0, index, parent, muts, parent[x]), index, ByPosition(muts[x]), taxodium)
  }

  function Visits(c0: seq<Codon>, index: map<int, seq<nat>>, parent: seq<int>, muts: seq<seq<Mutation>>,
                  dfs: seq<nat>, taxodium: bool): (r: seq<string>)
    requires IsTree(parent) && |muts| == |parent| && Nodes(parent, dfs)
    ensures |r| == |dfs|
  {
    seq(|dfs|, k requires 0 <= k < |dfs| => Visit(c0, index, parent, muts, dfs[k], taxodium))
  }

  /** The node's list after the walk: sorted in place if the walk visited it. */
  function Stored(muts: seq<seq<Mutation>>, seen: seq<nat>, x: nat): seq<Mutation>
    requires x < |muts|
  {
    if x in seen then ByPosition(muts[x]) else muts[x]
  }

  /** Reverting node `x`'s (possibly sorted) list on its arena gives its
      parent's arena. */
  lemma UndoStep(c0: seq<Codon>, index: map<int, seq<nat>>, parent: seq<int>, muts: seq<seq<Mutation>>,
                 x: nat, ms: seq<Mutation>)
    requires IsTree(parent) && |muts| == |parent| && 0 < x < |parent|
    requires IndexOk(c0, index) && TripletsOk(c0) && Consistent(c0, index, parent, muts)
    requires multiset(ms) == multiset(muts[x])
    ensures WriteAll(Genome(c0, index, parent, muts, x), index, ms, true) == Genome(c0, index, parent, muts, parent[x])
  {
    var up := Genome(c0, index, parent, muts, parent[x]);
    GenomeOk(c0, index, parent, muts, parent[x]);
    WriteAllPermuted(up, index, muts[x], ms, false);
    DistinctPermuted(muts[x], ms);
    ParentsMatchPermuted(up, muts[x], ms);
    ApplyRevert(up, index, ms);
  }

  /** Applying a permutation of node `x`'s list on its parent's arena gives
      its arena. */
  lemma DoStep(c0: seq<Codon>, index: map<int, seq<nat>>, parent: seq<int>, muts: seq<seq<Mutation>>,
               x: nat, ms: seq<Mutation>)
    requires IsTree(parent) && |muts| == |parent| && x < |parent|
    requires IndexOk(c0, index) && TripletsOk(c0) && Consistent(c0, index, parent, muts)
    requires multiset(ms) == multiset(muts[x])
    ensures WriteAll(Genome(c0, index, parent, muts, parent[x]), index, ms, false) == Genome(c0, index, parent, muts, x)
  {
    GenomeOk(c0, index, parent, muts, parent[x]);
    WriteAllPermuted(Genome(c0, index, parent, muts, parent[x]), index, muts[x], ms, false);
  }

  lemma StoredPermutes(muts: seq<seq<Mutation>>, seen: seq<nat>, x: nat)
    requires x < |muts|
    ensures multiset(Stored(muts, seen, x)) == multiset(muts[x])
  {
    ByPositionSorts(muts[x]);
  }

  /** The rollback loop (lines 187-194): revert from `from` up to, but not
      including, its ancestor `lca`. */
  method RollBack(state: CodonState, ghost c0: seq<Codon>, parent: seq<int>, muts: seq<seq<Mutation>>,
                  ghost seen: seq<nat>, stored: seq<seq<Mutation>>, from: nat, lca: nat)
    requires state.Valid() && IsTree(parent) && |muts| == |parent|
    requires IndexOk(c0, state.index) && TripletsOk(c0) && Consistent(c0, state.index, parent, muts)
    requires from < |parent| && lca < |parent| && AncOrSelf(parent, lca, from)
    requires state.codons == Genome(c0, state.index, parent, muts, from)
    requires |stored| == |muts| && forall x :: 0 <= x < |muts| ==> stored[x] == Stored(muts, seen, x)
    modifies state
    ensures state.Valid() && state.codons == Genome(c0, state.index, parent, muts, lca)
  {
    var trace: nat := from;
    while trace != lca
      invariant trace < |parent| && AncOrSelf(parent, lca, trace) && state.Valid()
      invariant state.codons == Genome(c0, state.index, parent, muts, trace)
      decreases trace
    {
      StoredPermutes(muts, seen, trace);
      UndoStep(c0, state.index, parent, muts, trace, stored[trace]);
      state.UndoMutations(stored[trace]);
      trace := parent[trace];
    }
  }

  /** One visit (line 195): `do_mutations` on the node's list, which it
      sorts in place, applied to the parent's arena. */
  method VisitNode(state: CodonState, ghost c0: seq<Codon>, parent: seq<int>, muts: seq<seq<Mutation>>,
                   ghost seen: seq<nat>, stored: seq<seq<Mutation>>, node: nat, taxodium: bool)
    returns (sorted: seq<Mutation>, result: string)
    requires state.Valid() && IsTree(parent) && |muts| == |parent| && node < |parent|
    requires IndexOk(c0, state.index) && TripletsOk(c0) && Consistent(c0, state.index, parent, muts)
    requires state.codons == Genome(c0, state.index, parent, muts, parent[node])
    requires |stored| == |muts| && forall x :: 0 <= x < |muts| ==> stored[x] == Stored(muts, seen, x)
    modifies state
    ensures state.Valid() && state.codons == Genome(c0, state.index, parent, muts, node)
    ensures sorted == ByPosition(muts[node])
    ensures result == Visit(c0, state.index, parent, muts, node, taxodium)
  {
    StoredPermutes(muts, seen, node);
    sorted, result := state.DoMutations(stored[node], taxodium);
    DoStep(c0, state.index, parent, muts, node, sorted);
    SortedIsByPosition(muts[node], sorted);
  }

  lemma VisitsStep(c0: seq<Codon>, index: map<int, seq<nat>>, parent: seq<int>, muts: seq<seq<Mutation>>,
                   seen: seq<nat>, node: nat, taxodium: bool)
    requires IsTree(parent) && |muts| == |parent| && Nodes(parent, seen) && node < |parent|
    ensures Nodes(parent, seen + [node])
    ensures Visits(c0, index, parent, muts, seen + [node], taxodium)
         == Visits(c0, index, parent, muts, seen, taxodium) + [Visit(c0, index, parent, muts, node, taxodium)]
  {
  }

  lemma StoredStep(muts: seq<seq<Mutation>>, seen: seq<nat>, node: nat, stored: seq<seq<Mutation>>, sorted: seq<Mutation>)
    requires node < |muts| && |stored| == |muts|
    requires forall x :: 0 <= x < |muts| ==> stored[x] == Stored(muts, seen, x)
    requires sorted == ByPosition(muts[node])
    ensures forall x :: 0 <= x < |muts| ==> stored[node := sorted][x] == Stored(muts, seen + [node], x)
  {
  }

  /** The walk of `translate_main` (lines 181-200): before each node, revert
      from the last visited node up to the common ancestor, then apply the
      node's mutations. Returns what `do_mutations` gave at each visit and
      the tree's mutation lists, sorted where visited. */
  method Walk(state: CodonState, parent: seq<int>, muts: seq<seq<Mutation>>, dfs: seq<nat>, taxodium: bool)
    returns (results: seq<string>, stored: seq<seq<Mutation>>)
    requires state.Valid() && IsTree(parent) && |muts| == |parent| && DfsOrder(parent, dfs)
    requires Consistent(state.codons, state.index, parent, muts)
    modifies state
    ensures state.Valid()
    ensures results == Visits(old(state.codons), state.index, parent, muts, dfs, taxodium)
    ensures |dfs| > 0 ==> state.codons == Genome(old(state.codons), state.index, parent, muts, dfs[|dfs| - 1])
    ensures |stored| == |muts| && forall x :: 0 <= x < |muts| ==> stored[x] == Stored(muts, dfs, x)
  {
    ghost var c0 := state.codons;
    results, stored := [], muts;
    var last := -1;
    var k := 0;
    assert dfs[..0] == [];
    while k < |dfs|
      invariant 0 <= k <= |dfs| && state.Valid()
      invariant Walked(c0, state.index, parent, muts, dfs, taxodium, k, last, state.codons, stored, results)
    {
      last, stored, results := WalkStep(state, c0, parent, muts, dfs, taxodium, k, last, stored, results);
      k := k + 1;
    }
    assert dfs[..k] == dfs;
  }

  /** The walk after `k` visits: the arena is that of the last visited node,
      the visited lists are sorted and the results so far are recorded. */
  ghost predicate Walked(c0: seq<Codon>, index: map<int, seq<nat>>, parent: seq<int>, muts: seq<seq<Mutation>>,
                         dfs: seq<nat>, taxodium: bool, k: nat, last: int,
                         codons: seq<Codon>, stored: seq<seq<Mutation>>, results: seq<string>)
    requires IsTree(parent) && |muts| == |parent|
  {
    && IndexOk(c0, index) && TripletsOk(c0)
    && k <= |dfs| && Nodes(parent, dfs[..k])
    && -1 <= last < |parent| && last == (if k == 0 then -1 else dfs[k - 1])
    && codons == Genome(c0, index, parent, muts, last)
    && |stored| == |muts| && (forall x :: 0 <= x < |muts| ==> stored[x] == Stored(muts, dfs[..k], x))
    && results == Visits(c0, index, parent, muts, dfs[..k], taxodium)
  }

  /** One iteration of the walk: roll back when the node is not a child of
      the last one, then visit it. */
  method WalkStep(state: CodonState, ghost c0: seq<Codon>, parent: seq<int>, muts: seq<seq<Mutation>>,
                  dfs: seq<nat>, taxodium: bool, k: nat, last: int, stored: seq<seq<Mutation>>, results: seq<string>)
    returns (last': int, stored': seq<seq<Mutation>>, results': seq<string>)
    requires state.Valid() && IsTree(parent) && |muts| == |parent| && DfsOrder(parent, dfs) && k < |dfs|
    requires Consistent(c0, state.index, parent, muts)
    requires Walked(c0, state.index, parent, muts, dfs, taxodium, k, last, state.codons, stored, results)
    modifies state
    ensures state.Valid()
    ensures Walked(c0, state.index, parent, muts, dfs, taxodium, k + 1, last', state.codons, stored', results')
  {
    var node := dfs[k];
    if last != parent[node] {
      assert PreorderStep(parent, dfs[k - 1], dfs[k]);
      StepLca(parent, last, node);
      RollBack(state, c0, parent, muts, dfs[..k], stored, last, Lca(parent, node, last));
    }
    var sorted, result := VisitNode(state, c0, parent, muts, dfs[..k], stored, node, taxodium);
    stored' := stored[node := sorted];
    results' := results + [result];
    last' := node;
    WalkedStep(c0, state.index, parent, muts, dfs, taxodium, k, last, stored, results, old(state.codons), state.codons, sorted, result);
  }

  lemma WalkedStep(c0: seq<Codon>, index: map<int, seq<nat>>, parent: seq<int>, muts: seq<seq<Mutation>>,
                   dfs: seq<nat>, taxodium: bool, k: nat, last: int, stored: seq<seq<Mutation>>, results: seq<string>,
                   before: seq<Codon>, codons: seq<Codon>, sorted: seq<Mutation>, result: string)
    requires IsTree(parent) && |muts| == |parent| && DfsOrder(parent, dfs) && k < |dfs|
    requires Walked(c0, index, parent, muts, dfs, taxodium, k, last, before, stored, results)
    requires codons == Genome(c0, index, parent, muts, dfs[k])
    requires sorted == ByPosition(muts[dfs[k]]) && result == Visit(c0, index, parent, muts, dfs[k], taxodium)
    ensures Walked(c0, index, parent, muts, dfs, taxodium, k + 1, dfs[k], codons, stored[dfs[k] := sorted], results + [result])
  {
    var node := dfs[k];
    StoredStep(muts, dfs[..k], node, stored, sorted);
    VisitsStep(c0, index, parent, muts, dfs[..k], node, taxodium);
    assert dfs[..k + 1] == dfs[..k] + [node];
  }
}
