// The text reports of `describe.cpp`: the mutation path of each sample from
// the root, and the clade table built over a breadth-first walk. The tree
// queries (`rsearch`, `breadth_first_expansion`) are inputs: for each sample
// or node, the path from it up to the root, itself included.
module Describe {
  import opened Text

  /** A node on an `rsearch` path: its identity and the `get_string` text
      of each of its mutations. */
  datatype PathNode = PathNode(id: nat, mutations: seq<string>)

  function Reversed(s: seq<PathNode>): (r: seq<PathNode>)
    ensures |r| == |s| && forall i :: 0 <= i < |s| ==> r[i] == s[|s| - 1 - i]
  {
    if s == [] then [] else [s[|s| - 1]] + Reversed(s[..|s| - 1])
  }

  /** Lines 11-18 (and 52-57, 63-68): one node's mutations, with a comma between two of them. */
  method MutationList(muts: seq<string>) returns (s: string)
    ensures s == Join(muts, ",")
  {
    s := "";
    var i := 0;
    while i < |muts|
      invariant 0 <= i <= |muts|
      invariant s == if i == 0 then "" else Join(muts[..i], ",") + (if i < |muts| then "," else "")
    {
      if i > 0 {
        JoinSnoc(muts[..i], muts[i], ",");
      }
      assert muts[..i + 1] == muts[..i] + [muts[i]];
      s := s + muts[i];
      if i + 1 < |muts| {
        s := s + ",";
      }
      i := i + 1;
    }
    assert muts[..i] == muts;
  }

  /** The text the path loops build: each node's mutation list, followed by
      " > " unless the node is the one at the back of the path (compared by
      identity, as the `n != back()` test does). */
  function Chain(nodes: seq<PathNode>, backId: nat): string
  {
    if nodes == [] then ""
    else
      var n := nodes[|nodes| - 1];
      Chain(nodes[..|nodes| - 1], backId) + Join(n.mutations, ",") + (if n.id != backId then " > " else "")
  }

  /** The path text, or "" for an empty path. */
  function PathText(nodes: seq<PathNode>): string
  {
    if nodes == [] then "" else Chain(nodes, nodes[|nodes| - 1].id)
  }

  /** The mutation list of every node of the path. */
  function Groups(nodes: seq<PathNode>): (r: seq<string>)
    ensures |r| == |nodes|
  {
    seq(|nodes|, i requires 0 <= i < |nodes| => Join(nodes[i].mutations, ","))
  }

  predicate DistinctIds(nodes: seq<PathNode>)
  {
    forall i, j :: 0 <= i < j < |nodes| ==> nodes[i].id != nodes[j].id
  }

  /** On a path of distinct nodes the text is the nodes' mutation lists
      joined by " > ", with no separator after the last node. */
  lemma PathTextJoins(nodes: seq<PathNode>)
    requires DistinctIds(nodes)
    ensures PathText(nodes) == Join(Groups(nodes), " > ")
  {
    if nodes != [] {
      var n := |nodes|;
      var init := nodes[..n - 1];
      ChainJoins(init, nodes[n - 1].id);
      if n == 1 {
        assert Groups(nodes) == [Join(nodes[0].mutations, ",")];
      } else {
        assert Groups(nodes) == Groups(init) + [Join(nodes[n - 1].mutations, ",")];
        JoinSnoc(Groups(init), Join(nodes[n - 1].mutations, ","), " > ");
      }
    }
  }

  /** Before the back node, every node is followed by the separator. */
  lemma {:induction false} ChainJoins(nodes: seq<PathNode>, backId: nat)
    requires forall i :: 0 <= i < |nodes| ==> nodes[i].id != backId
    ensures Chain(nodes, backId) == if nodes == [] then "" else Join(Groups(nodes), " > ") + " > "
    decreases |nodes|
  {
    if nodes != [] {
      var n := |nodes|;
      var init := nodes[..n - 1];
      ChainJoins(init, backId);
      if n == 1 {
        assert Groups(nodes) == [Join(nodes[0].mutations, ",")];
      } else {
        assert Groups(nodes) == Groups(init) + [Join(nodes[n - 1].mutations, ",")];
        JoinSnoc(Groups(init), Join(nodes[n - 1].mutations, ","), " > ");
      }
    }
  }

  /** The path loop of lines 10-23 (and 62-72): append the path text. */
  method AppendPath(prefix: string, nodes: seq<PathNode>) returns (s: string)
    ensures s == prefix + PathText(nodes)
  {
    s := prefix;
    if nodes == [] {
      return;
    }
    var backId := nodes[|nodes| - 1].id;
    var i := 0;
    assert nodes[..0] == [];
    while i < |nodes|
      invariant 0 <= i <= |nodes|
      invariant s == prefix + Chain(nodes[..i], backId)
    {
      var group := MutationList(nodes[i].mutations);
      ChainSnoc(nodes, i, backId);
      s := s + group;
      if nodes[i].id != backId {
        s := s + " > ";
      }
      i := i + 1;
    }
    assert nodes[..i] == nodes;
  }

  lemma ChainSnoc(nodes: seq<PathNode>, i: nat, backId: nat)
    requires i < |nodes|
    ensures Chain(nodes[..i + 1], backId) == Chain(nodes[..i], backId) + Join(nodes[i].mutations, ",") + (if nodes[i].id != backId then " > " else "")
  {
    assert nodes[..i + 1][..i] == nodes[..i];
  }

  /** The line of one sample: its name, then its path from the root. */
  function PathLine(sample: string, toRoot: seq<PathNode>): string
  {
    sample + ": " + PathText(Reversed(toRoot))
  }

  /** `mutation_paths`: one line per sample, in the order given. */
  method MutationPaths(samples: seq<string>, toRoot: seq<seq<PathNode>>) returns (mpaths: seq<string>)
    requires |toRoot| == |samples|
    ensures |mpaths| == |samples|
    ensures forall i :: 0 <= i < |samples| ==> mpaths[i] == PathLine(samples[i], toRoot[i])
  {
    mpaths := [];
    var i := 0;
    while i < |samples|
      invariant 0 <= i <= |samples| && |mpaths| == i
      invariant forall k :: 0 <= k < i ==> mpaths[k] == PathLine(samples[k], toRoot[k])
    {
      var line := AppendPath(samples[i] + ": ", Reversed(toRoot[i]));
      mpaths := mpaths + [line];
      i := i + 1;
    }
  }

  /** The line of a sample whose path has no repeated node: the name, then
      the mutation lists from the root down to the sample, joined by " > ". */
  lemma PathLineShape(sample: string, toRoot: seq<PathNode>)
    requires DistinctIds(toRoot)
    ensures PathLine(sample, toRoot) == sample + ": " + Join(Groups(Reversed(toRoot)), " > ")
  {
    var r := Reversed(toRoot);
    forall i, j | 0 <= i < j < |r| ensures r[i].id != r[j].id {
      assert r[i] == toRoot[|toRoot| - 1 - i] && r[j] == toRoot[|toRoot| - 1 - j];
    }
    PathTextJoins(r);
  }

  /** A node of the breadth-first walk: identifier, clade annotations and
      mutation texts. */
  datatype CladeNode = CladeNode(id: string, annotations: seq<string>, mutations: seq<string>)

  const Header := "clade\tspecific\tfrom_root"

  /** The state of the clade scan: the current node's growing row, the rows
      kept and the clades seen. */
  datatype Scan = Scan(curpath: string, rows: seq<string>, seen: set<string>)

  /** The guard of lines 47-49. As written (`corrected == false`) it asks for a
      clade already seen; the intended test is for one not seen yet. */
  predicate Takes(ann: string, clades: seq<string>, seen: set<string>, corrected: bool)
  {
    ann != "" && ann in clades && (if corrected then ann !in seen else ann in seen)
  }

  /** Lines 51-77: the row grows by the node's own mutations, a tab, the
      same mutations again and the path from the node up to the root. */
  function Extend(curpath: string, n: CladeNode, toRoot: seq<PathNode>): string
  {
    var unique := Join(n.mutations, ",");
    curpath + unique + "\t" + unique + PathText(toRoot)
  }

  /** The annotations loop of one node (lines 46-80). */
  function AnnScan(n: CladeNode, toRoot: seq<PathNode>, clades: seq<string>, anns: seq<string>, st: Scan, corrected: bool): Scan
  {
    if anns == [] then st
    else
      var prev := AnnScan(n, toRoot, clades, anns[..|anns| - 1], st, corrected);
      var ann := anns[|anns| - 1];
      if Takes(ann, clades, prev.seen, corrected) then
        var cur := Extend(prev.curpath, n, toRoot);
        Scan(cur, prev.rows + [cur], prev.seen + {ann})
      else prev
  }

  /** The node loop (lines 44-81): each node's row starts from its
      identifier and a tab. */
  function CladeScan(nodes: seq<CladeNode>, toRoot: seq<seq<PathNode>>, clades: seq<string>, corrected: bool): Scan
    requires |toRoot| == |nodes|
  {
    if nodes == [] then Scan("", [], {})
    else
      var k := |nodes| - 1;
      var prev := CladeScan(nodes[..k], toRoot[..k], clades, corrected);
      var st := AnnScan(nodes[k], toRoot[k], clades, nodes[k].annotations, Scan(nodes[k].id + "\t", prev.rows, prev.seen), corrected);
      Scan("", st.rows, st.seen)
  }

  /** One node's annotations (lines 46-80). */
  method ScanNode(n: CladeNode, toRoot: seq<PathNode>, clades: seq<string>, st: Scan, corrected: bool) returns (st': Scan)
    ensures st' == AnnScan(n, toRoot, clades, n.annotations, st, corrected)
  {
    var curpath, rows, seen := st.curpath, st.rows, st.seen;
    var j := 0;
    while j < |n.annotations|
      invariant 0 <= j <= |n.annotations|
      invariant Scan(curpath, rows, seen) == AnnScan(n, toRoot, clades, n.annotations[..j], st, corrected)
    {
      var ann := n.annotations[j];
      AnnScanSnoc(n, toRoot, clades, n.annotations, j, st, corrected);
      var guard := if corrected then ann !in seen else ann in seen;
      if ann != "" && ann in clades && guard {
        ghost var start := curpath;
        var unique := MutationList(n.mutations);
        curpath := curpath + (unique + "\t");
        var root := AppendPath("", toRoot);
        curpath := curpath + unique;
        curpath := curpath + root;
        ExtendSteps(start, n, toRoot, unique, root);
        seen := seen + {ann};
        rows := rows + [curpath];
      }
      j := j + 1;
    }
    assert n.annotations[..j] == n.annotations;
    st' := Scan(curpath, rows, seen);
  }

  lemma AnnScanSnoc(n: CladeNode, toRoot: seq<PathNode>, clades: seq<string>, anns: seq<string>, j: nat, st: Scan, corrected: bool)
    requires j < |anns|
    ensures var prev := AnnScan(n, toRoot, clades, anns[..j], st, corrected);
      AnnScan(n, toRoot, clades, anns[..j + 1], st, corrected) ==
        if Takes(anns[j], clades, prev.seen, corrected) then
          Scan(Extend(prev.curpath, n, toRoot), prev.rows + [Extend(prev.curpath, n, toRoot)], prev.seen + {anns[j]})
        else prev
  {
    assert anns[..j + 1][..j] == anns[..j];
  }

  /** The three appends of lines 58, 74 and 75 build `Extend`. */
  lemma ExtendSteps(curpath: string, n: CladeNode, toRoot: seq<PathNode>, unique: string, root: string)
    requires unique == Join(n.mutations, ",") && root == "" + PathText(toRoot)
    ensures curpath + (unique + "\t") + unique + root == Extend(curpath, n, toRoot)
  {
    ConcatAssoc(curpath, unique, "\t");
    assert "" + PathText(toRoot) == PathText(toRoot);
  }

  /** `clade_paths` over the breadth-first walk `nodes`, with the guard as
      written (`corrected == false`) or as intended. */
  method CladePaths(clades: seq<string>, nodes: seq<CladeNode>, toRoot: seq<seq<PathNode>>, corrected: bool)
    returns (clpaths: seq<string>)
    requires |toRoot| == |nodes|
    ensures clpaths == [Header] + CladeScan(nodes, toRoot, clades, corrected).rows
  {
    var rows: seq<string> := [];
    var seen: set<string> := {};
    var k := 0;
    while k < |nodes|
      invariant 0 <= k <= |nodes|
      invariant Scan("", rows, seen) == CladeScan(nodes[..k], toRoot[..k], clades, corrected)
    {
      assert nodes[..k + 1][..k] == nodes[..k] && toRoot[..k + 1][..k] == toRoot[..k];
      var st := ScanNode(nodes[k], toRoot[k], clades, Scan(nodes[k].id + "\t", rows, seen), corrected);
      rows, seen := st.rows, st.seen;
      k := k + 1;
    }
    assert nodes[..k] == nodes && toRoot[..k] == toRoot;
    clpaths := [Header] + rows;
  }

  /** As written, no annotation passes the guard while nothing is seen, so
      nothing is ever seen. */
  lemma {:induction false} AnnScanAsWritten(n: CladeNode, toRoot: seq<PathNode>, clades: seq<string>, anns: seq<string>, st: Scan)
    requires st.seen == {}
    ensures AnnScan(n, toRoot, clades, anns, st, false) == st
    decreases |anns|
  {
    if anns != [] {
      AnnScanAsWritten(n, toRoot, clades, anns[..|anns| - 1], st);
    }
  }

  /** As written, `clade_paths` returns only its header line. */
  lemma {:induction false} CladeRowsAsWritten(nodes: seq<CladeNode>, toRoot: seq<seq<PathNode>>, clades: seq<string>)
    requires |toRoot| == |nodes|
    ensures CladeScan(nodes, toRoot, clades, false) == Scan("", [], {})
    decreases |nodes|
  {
    if nodes != [] {
      var k := |nodes| - 1;
      CladeRowsAsWritten(nodes[..k], toRoot[..k], clades);
      AnnScanAsWritten(nodes[k], toRoot[k], clades, nodes[k].annotations, Scan(nodes[k].id + "\t", [], {}));
    }
  }

  /** The target clades among some annotations. */
  function Targets(anns: seq<string>, clades: seq<string>): set<string>
  {
    if anns == [] then {}
    else
      var ann := anns[|anns| - 1];
      Targets(anns[..|anns| - 1], clades) + (if ann != "" && ann in clades then {ann} else {})
  }

  /** `Targets` holds exactly the non-empty annotations that are requested. */
  lemma {:induction false} TargetsHas(anns: seq<string>, clades: seq<string>)
    ensures Targets(anns, clades) == set j | 0 <= j < |anns| && anns[j] != "" && anns[j] in clades :: anns[j]
    decreases |anns|
  {
    if anns != [] {
      var init := anns[..|anns| - 1];
      TargetsHas(init, clades);
      assert forall j :: 0 <= j < |init| ==> anns[j] == init[j];
    }
  }

  /** The target clades annotated anywhere in the walk. */
  function AllTargets(nodes: seq<CladeNode>, clades: seq<string>): set<string>
  {
    if nodes == [] then {} else AllTargets(nodes[..|nodes| - 1], clades) + Targets(nodes[|nodes| - 1].annotations, clades)
  }

  /** With the intended guard, a node's annotations add to the seen set
      exactly the target clades among them, and one row for each clade
      not seen before. */
  lemma {:induction false} AnnScanCorrected(n: CladeNode, toRoot: seq<PathNode>, clades: seq<string>, anns: seq<string>, st: Scan)
    requires |st.rows| == |st.seen|
    ensures var r := AnnScan(n, toRoot, clades, anns, st, true);
      r.seen == st.seen + Targets(anns, clades) && |r.rows| == |r.seen|
    decreases |anns|
  {
    if anns != [] {
      var init := anns[..|anns| - 1];
      var ann := anns[|anns| - 1];
      AnnScanCorrected(n, toRoot, clades, init, st);
      var prev := AnnScan(n, toRoot, clades, init, st, true);
      var r := AnnScan(n, toRoot, clades, anns, st, true);
      AnnScanCount(n, toRoot, clades, anns, st);
      if Takes(ann, clades, prev.seen, true) {
        assert |prev.seen + {ann}| == |prev.seen| + 1;
      } else {
        assert ann != "" && ann in clades ==> ann in prev.seen;
      }
    }
  }

  /** One more annotation adds at most its own clade and one row. */
  lemma AnnScanCount(n: CladeNode, toRoot: seq<PathNode>, clades: seq<string>, anns: seq<string>, st: Scan)
    requires anns != []
    ensures var prev := AnnScan(n, toRoot, clades, anns[..|anns| - 1], st, true);
      var r := AnnScan(n, toRoot, clades, anns, st, true);
      var ann := anns[|anns| - 1];
      if Takes(ann, clades, prev.seen, true) then r.seen == prev.seen + {ann} && |r.rows| == |prev.rows| + 1
      else r == prev
  {
  }

  /** With the intended guard, the table has one row for each target clade
      annotated somewhere in the walk; the clades come in the order the walk
      first meets them, and each one's row is the row of the first node that
      carries it. */
  lemma {:induction false} CladeRowsCorrected(nodes: seq<CladeNode>, toRoot: seq<seq<PathNode>>, clades: seq<string>)
    requires |toRoot| == |nodes|
    ensures var r := CladeScan(nodes, toRoot, clades, true);
      && r.seen == AllTargets(nodes, clades) && |r.rows| == |r.seen|
      && (forall c :: c in AllTargets(nodes, clades) <==> c in Met(nodes, clades))
      && RowsByFirstNode(nodes, toRoot, clades, r.rows)
      && MetInOrder(nodes, clades)
    decreases |nodes|
  {
    CladeRowsFirst(nodes, toRoot, clades);
    if nodes != [] {
      var k := |nodes| - 1;
      CladeRowsCorrected(nodes[..k], toRoot[..k], clades);
      var prev := CladeScan(nodes[..k], toRoot[..k], clades, true);
      AnnScanCorrected(nodes[k], toRoot[k], clades, nodes[k].annotations, Scan(nodes[k].id + "\t", prev.rows, prev.seen));
    }
  }

  /** The requested clades among `anns` that are neither in `seen` nor
      earlier in `anns`, in order. */
  function NewTargets(anns: seq<string>, clades: seq<string>, seen: seq<string>): (r: seq<string>)
    ensures forall c :: c in r ==> c != "" && c in clades && c !in seen && c in anns
  {
    if anns == [] then []
    else
      var prev := NewTargets(anns[..|anns| - 1], clades, seen);
      var ann := anns[|anns| - 1];
      if ann != "" && ann in clades && ann !in seen && ann !in prev then prev + [ann] else prev
  }

  /** The requested clades in the order the breadth-first walk first meets
      them. */
  function Met(nodes: seq<CladeNode>, clades: seq<string>): seq<string>
  {
    if nodes == [] then []
    else
      var prev := Met(nodes[..|nodes| - 1], clades);
      prev + NewTargets(nodes[|nodes| - 1].annotations, clades, prev)
  }

  /** The first node whose annotations hold `c`, or `|nodes|` when none does. */
  function FirstNode(nodes: seq<CladeNode>, c: string): (f: nat)
    ensures f <= |nodes|
    ensures f < |nodes| ==> c in nodes[f].annotations
    ensures forall k :: 0 <= k < f ==> c !in nodes[k].annotations
  {
    if nodes == [] then 0
    else
      var f := FirstNode(nodes[..|nodes| - 1], c);
      assert forall k :: 0 <= k < |nodes| - 1 ==> nodes[k] == nodes[..|nodes| - 1][k];
      if f < |nodes| - 1 || c in nodes[|nodes| - 1].annotations then f else |nodes|
  }

  /** A node's row after it has taken `q` clades: `id\t`, extended once per
      clade, since the row is not reset between a node's annotations. */
  function Grown(n: CladeNode, toRoot: seq<PathNode>, q: nat): string
  {
    if q == 0 then n.id + "\t" else Extend(Grown(n, toRoot, q - 1), n, toRoot)
  }

  /** The rows a node adds for its first `q` clades. */
  function GrownRows(n: CladeNode, toRoot: seq<PathNode>, q: nat): (r: seq<string>)
    ensures |r| == q
  {
    if q == 0 then [] else GrownRows(n, toRoot, q - 1) + [Grown(n, toRoot, q)]
  }

  /** With the intended guard, a node takes exactly its new requested clades,
      in order, and adds one grown row for each. */
  lemma {:induction false} AnnScanRows(n: CladeNode, toRoot: seq<PathNode>, clades: seq<string>, anns: seq<string>,
                                       st: Scan, seen: seq<string>)
    requires st.curpath == Grown(n, toRoot, 0)
    requires forall c :: c in st.seen <==> c in seen
    ensures var r := AnnScan(n, toRoot, clades, anns, st, true);
      var added := NewTargets(anns, clades, seen);
      && r.curpath == Grown(n, toRoot, |added|)
      && r.rows == st.rows + GrownRows(n, toRoot, |added|)
      && forall c :: c in r.seen <==> c in seen || c in added
    decreases |anns|
  {
    if anns != [] {
      AnnScanRows(n, toRoot, clades, anns[..|anns| - 1], st, seen);
    }
  }

  /** A requested clade annotated on some node is met. */
  lemma {:induction false} MetHas(nodes: seq<CladeNode>, clades: seq<string>, x: nat, c: string)
    requires x < |nodes| && c in nodes[x].annotations && c != "" && c in clades
    ensures c in Met(nodes, clades)
    decreases |nodes|
  {
    var k := |nodes| - 1;
    var prev := Met(nodes[..k], clades);
    if x < k {
      assert nodes[..k][x] == nodes[x];
      MetHas(nodes[..k], clades, x, c);
    } else if c !in prev {
      NewTargetsHas(nodes[k].annotations, clades, prev, c);
    }
  }

  /** A requested clade of `anns` not in `seen` is among the new targets. */
  lemma {:induction false} NewTargetsHas(anns: seq<string>, clades: seq<string>, seen: seq<string>, c: string)
    requires c in anns && c != "" && c in clades && c !in seen
    ensures c in NewTargets(anns, clades, seen)
    decreases |anns|
  {
    var init := anns[..|anns| - 1];
    if c in init {
      NewTargetsHas(init, clades, seen, c);
    }
  }

  /** The row of the `i`-th clade met, `c`: the row of the first node
      carrying it, grown once per clade that node took before it. */
  ghost predicate RowAt(nodes: seq<CladeNode>, toRoot: seq<seq<PathNode>>, clades: seq<string>, c: string, i: nat, row: string)
    requires |toRoot| == |nodes|
  {
    var f := FirstNode(nodes, c);
    && f < |nodes| && |Met(nodes[..f], clades)| <= i
    && row == Grown(nodes[f], toRoot[f], i + 1 - |Met(nodes[..f], clades)|)
  }

  /** One row per clade met, each the row of its clade's first node. */
  ghost predicate RowsByFirstNode(nodes: seq<CladeNode>, toRoot: seq<seq<PathNode>>, clades: seq<string>, rows: seq<string>)
    requires |toRoot| == |nodes|
  {
    var met := Met(nodes, clades);
    && |rows| == |met|
    && forall i :: 0 <= i < |met| ==> RowAt(nodes, toRoot, clades, met[i], i, rows[i])
  }

  /** The clades are met in breadth-first order of their first nodes. */
  ghost predicate MetInOrder(nodes: seq<CladeNode>, clades: seq<string>)
  {
    var met := Met(nodes, clades);
    forall i, j :: 0 <= i < j < |met| ==> FirstNode(nodes, met[i]) <= FirstNode(nodes, met[j])
  }

  lemma {:induction false} GrownRowsAt(n: CladeNode, toRoot: seq<PathNode>, q: nat, j: nat)
    requires j < q
    ensures GrownRows(n, toRoot, q)[j] == Grown(n, toRoot, j + 1)
    decreases q
  {
    if j < q - 1 {
      GrownRowsAt(n, toRoot, q - 1, j);
    }
  }

  /** A requested clade the walk has not met is on no node. */
  lemma NotMetAbsent(nodes: seq<CladeNode>, clades: seq<string>, c: string)
    requires c != "" && c in clades && c !in Met(nodes, clades)
    ensures FirstNode(nodes, c) == |nodes|
  {
    if FirstNode(nodes, c) < |nodes| {
      MetHas(nodes, clades, FirstNode(nodes, c), c);
      assert false;
    }
  }

  /** A clade met before the last node keeps its first node. */
  lemma FirstNodeKept(nodes: seq<CladeNode>, c: string)
    requires nodes != [] && FirstNode(nodes[..|nodes| - 1], c) < |nodes| - 1
    ensures FirstNode(nodes, c) == FirstNode(nodes[..|nodes| - 1], c)
  {
  }

  /** A row taken before the last node keeps its first node. */
  lemma RowKept(nodes: seq<CladeNode>, toRoot: seq<seq<PathNode>>, clades: seq<string>, c: string, i: nat, row: string)
    requires |toRoot| == |nodes| && nodes != []
    requires RowAt(nodes[..|nodes| - 1], toRoot[..|nodes| - 1], clades, c, i, row)
    ensures RowAt(nodes, toRoot, clades, c, i, row)
  {
    var k := |nodes| - 1;
    var f := FirstNode(nodes[..k], c);
    FirstNodeKept(nodes, c);
    assert nodes[..f] == nodes[..k][..f] && nodes[f] == nodes[..k][f] && toRoot[f] == toRoot[..k][f];
  }

  /** With the intended guard, the scan has seen exactly the clades met,
      with one row each. */
  lemma {:induction false} ScanSeenMet(nodes: seq<CladeNode>, toRoot: seq<seq<PathNode>>, clades: seq<string>)
    requires |toRoot| == |nodes|
    ensures var r := CladeScan(nodes, toRoot, clades, true);
      (forall c :: c in r.seen <==> c in Met(nodes, clades)) && |r.rows| == |Met(nodes, clades)|
    decreases |nodes|
  {
    if nodes != [] {
      var k := |nodes| - 1;
      var prev := CladeScan(nodes[..k], toRoot[..k], clades, true);
      ScanSeenMet(nodes[..k], toRoot[..k], clades);
      AnnScanRows(nodes[k], toRoot[k], clades, nodes[k].annotations, Scan(nodes[k].id + "\t", prev.rows, prev.seen),
                  Met(nodes[..k], clades));
    }
  }

  /** The last node appends one grown row per clade it meets first. */
  lemma ScanRowsSnoc(nodes: seq<CladeNode>, toRoot: seq<seq<PathNode>>, clades: seq<string>)
    requires |toRoot| == |nodes| && nodes != []
    ensures var k := |nodes| - 1;
      var added := NewTargets(nodes[k].annotations, clades, Met(nodes[..k], clades));
      CladeScan(nodes, toRoot, clades, true).rows
        == CladeScan(nodes[..k], toRoot[..k], clades, true).rows + GrownRows(nodes[k], toRoot[k], |added|)
  {
    var k := |nodes| - 1;
    var prev := CladeScan(nodes[..k], toRoot[..k], clades, true);
    ScanSeenMet(nodes[..k], toRoot[..k], clades);
    AnnScanRows(nodes[k], toRoot[k], clades, nodes[k].annotations, Scan(nodes[k].id + "\t", prev.rows, prev.seen),
                Met(nodes[..k], clades));
  }

  /** With the intended guard, row `i` of the table is the row of the first
      node carrying the `i`-th clade met. */
  lemma {:induction false} RowIs(nodes: seq<CladeNode>, toRoot: seq<seq<PathNode>>, clades: seq<string>, i: nat)
    requires |toRoot| == |nodes| && i < |Met(nodes, clades)|
    ensures i < |CladeScan(nodes, toRoot, clades, true).rows|
    ensures RowAt(nodes, toRoot, clades, Met(nodes, clades)[i], i, CladeScan(nodes, toRoot, clades, true).rows[i])
    decreases |nodes|, 1
  {
    ScanSeenMet(nodes, toRoot, clades);
    if i < |Met(nodes[..|nodes| - 1], clades)| {
      RowIsKept(nodes, toRoot, clades, i);
    } else {
      RowIsAdded(nodes, toRoot, clades, i);
    }
  }

  /** `RowIs` for a clade met before the last node. */
  lemma {:induction false} RowIsKept(nodes: seq<CladeNode>, toRoot: seq<seq<PathNode>>, clades: seq<string>, i: nat)
    requires |toRoot| == |nodes| && nodes != [] && i < |Met(nodes[..|nodes| - 1], clades)|
    ensures i < |Met(nodes, clades)| && i < |CladeScan(nodes, toRoot, clades, true).rows|
    ensures RowAt(nodes, toRoot, clades, Met(nodes, clades)[i], i, CladeScan(nodes, toRoot, clades, true).rows[i])
    decreases |nodes|, 0
  {
    var k := |nodes| - 1;
    var prior := Met(nodes[..k], clades);
    var prevRows := CladeScan(nodes[..k], toRoot[..k], clades, true).rows;
    var rows := CladeScan(nodes, toRoot, clades, true).rows;
    assert Met(nodes, clades)[i] == prior[i];
    assert i < |prevRows| && rows[i] == prevRows[i] by {
      ScanSeenMet(nodes[..k], toRoot[..k], clades);
      ScanRowsSnoc(nodes, toRoot, clades);
    }
    RowIs(nodes[..k], toRoot[..k], clades, i);
    RowKept(nodes, toRoot, clades, prior[i], i, prevRows[i]);
  }

  /** `RowIs` for one of the last node's new clades. */
  lemma RowIsAdded(nodes: seq<CladeNode>, toRoot: seq<seq<PathNode>>, clades: seq<string>, i: nat)
    requires |toRoot| == |nodes| && nodes != []
    requires |Met(nodes[..|nodes| - 1], clades)| <= i < |Met(nodes, clades)|
    ensures i < |CladeScan(nodes, toRoot, clades, true).rows|
    ensures RowAt(nodes, toRoot, clades, Met(nodes, clades)[i], i, CladeScan(nodes, toRoot, clades, true).rows[i])
  {
    var k := |nodes| - 1;
    var prior := Met(nodes[..k], clades);
    var added := NewTargets(nodes[k].annotations, clades, prior);
    var grown := GrownRows(nodes[k], toRoot[k], |added|);
    var rows := CladeScan(nodes, toRoot, clades, true).rows;
    var j := i - |prior|;
    var c := Met(nodes, clades)[i];
    assert c == added[j] && c in added;
    assert i < |rows| && rows[i] == grown[j] by {
      ScanSeenMet(nodes[..k], toRoot[..k], clades);
      ScanRowsSnoc(nodes, toRoot, clades);
    }
    NotMetAbsent(nodes[..k], clades, c);
    assert FirstNode(nodes, c) == k;
    GrownRowsAt(nodes[k], toRoot[k], |added|, j);
  }

  /** The last node's new clades come after every clade met before it. */
  lemma OrderStepClades(nodes: seq<CladeNode>, clades: seq<string>)
    requires nodes != [] && MetInOrder(nodes[..|nodes| - 1], clades)
    ensures MetInOrder(nodes, clades)
  {
    var k := |nodes| - 1;
    var init := nodes[..k];
    var prior := Met(init, clades);
    var added := NewTargets(nodes[k].annotations, clades, prior);
    var met := Met(nodes, clades);
    assert met == prior + added;
    forall i | 0 <= i < |met| ensures FirstNode(nodes, met[i]) == if i < |prior| then FirstNode(init, met[i]) else k {
      if i < |prior| {
        assert met[i] == prior[i];
        var f := FirstNode(init, prior[i]);
        assert f < k by {
          assert prior[i] in prior;
          MetFirst(init, clades, prior[i]);
        }
        FirstNodeKept(nodes, prior[i]);
      } else {
        assert met[i] == added[i - |prior|] && added[i - |prior|] in added;
        NotMetAbsent(init, clades, met[i]);
      }
    }
    forall i, j | 0 <= i < j < |met| ensures FirstNode(nodes, met[i]) <= FirstNode(nodes, met[j]) {
      if j < |prior| {
        assert met[i] == prior[i] && met[j] == prior[j];
      }
    }
  }

  /** Every clade met is on some node. */
  lemma {:induction false} MetFirst(nodes: seq<CladeNode>, clades: seq<string>, c: string)
    requires c in Met(nodes, clades)
    ensures FirstNode(nodes, c) < |nodes|
    decreases |nodes|
  {
    var k := |nodes| - 1;
    var prior := Met(nodes[..k], clades);
    if c in prior {
      MetFirst(nodes[..k], clades, c);
    }
  }

  /** With the intended guard, the scan takes the clades in the order the
      walk first meets them, and each one's row is the row of the first node
      carrying it. */
  lemma {:induction false} CladeRowsFirst(nodes: seq<CladeNode>, toRoot: seq<seq<PathNode>>, clades: seq<string>)
    requires |toRoot| == |nodes|
    ensures var r := CladeScan(nodes, toRoot, clades, true);
      && (forall c :: c in r.seen <==> c in Met(nodes, clades))
      && RowsByFirstNode(nodes, toRoot, clades, r.rows)
      && MetInOrder(nodes, clades)
  {
    var rows := CladeScan(nodes, toRoot, clades, true).rows;
    var met := Met(nodes, clades);
    ScanSeenMet(nodes, toRoot, clades);
    forall i | 0 <= i < |met| ensures RowAt(nodes, toRoot, clades, met[i], i, rows[i]) {
      RowIs(nodes, toRoot, clades, i);
    }
    MetOrdered(nodes, clades);
  }

  /** The clades are met in the order of their first nodes. */
  lemma {:induction false} MetOrdered(nodes: seq<CladeNode>, clades: seq<string>)
    ensures MetInOrder(nodes, clades)
    decreases |nodes|
  {
    if nodes != [] {
      MetOrdered(nodes[..|nodes| - 1], clades);
      OrderStepClades(nodes, clades);
    }
  }

  /** One node annotated with the one requested clade: as written the table
      is the bare header, with the intended guard it has that clade's row. */
  lemma CladeGuardExample()
    ensures var nodes := [CladeNode("node_1", ["B.1"], ["C241T"])];
      var toRoot := [[PathNode(1, ["C241T"]), PathNode(0, [])]];
      && CladeScan(nodes, toRoot, ["B.1"], false).rows == []
      && CladeScan(nodes, toRoot, ["B.1"], true).rows == ["node_1\tC241T\tC241TC241T > "]
  {
    var nodes := [CladeNode("node_1", ["B.1"], ["C241T"])];
    var toRoot := [[PathNode(1, ["C241T"]), PathNode(0, [])]];
    CladeRowsAsWritten(nodes, toRoot, ["B.1"]);
    assert nodes[..0] == [] && toRoot[..0] == [];
    assert ["B.1"][..0] == [];
    var path := toRoot[0];
    assert path[..1] == [PathNode(1, ["C241T"])] && path[..1][..0] == [];
    assert Join(["C241T"], ",") == "C241T";
    assert Chain(path[..1], 0) == "C241T > ";
    assert Chain(path, 0) == "C241T > ";
    assert PathText(path) == "C241T > ";
    var st := Scan("node_1\t", [], {});
    assert nodes[0].annotations[..0] == [];
    assert AnnScan(nodes[0], path, ["B.1"], [], st, true) == st;
    assert ["B.1"][..|["B.1"]| - 1] == [];
    assert Takes("B.1", ["B.1"], {}, true) by { assert ["B.1"][0] == "B.1"; }
    assert Extend("node_1\t", nodes[0], path) == "node_1\t" + "C241T" + "\t" + "C241T" + "C241T > ";
    assert "node_1\t" + "C241T" + "\t" + "C241T" + "C241T > " == "node_1\tC241T\tC241TC241T > ";
    assert AnnScan(nodes[0], path, ["B.1"], ["B.1"], st, true).rows == ["node_1\tC241T\tC241TC241T > "];
    assert nodes[..|nodes| - 1] == [] && toRoot[..|toRoot| - 1] == [];
    assert CladeScan([], [], ["B.1"], true) == Scan("", [], {});
    assert nodes[0].annotations == ["B.1"] && toRoot[0] == path;
    assert nodes[0].id + "\t" == "node_1\t";
    var r := AnnScan(nodes[0], path, ["B.1"], ["B.1"], st, true);
    assert CladeScan(nodes, toRoot, ["B.1"], true) == Scan("", r.rows, r.seen);
  }
}
