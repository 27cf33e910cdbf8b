// The mutation code table of `translate_and_populate_node_data`: every
// amino-acid change string gets a 1-based code the first time it is seen, and
// each node's list holds the codes of its own changes.
module Codes {
  import opened Text

  /** The distinct strings of `ps`, in order of first occurrence. */
  function FirstSeen(ps: seq<string>): seq<string>
  {
    if ps == [] then []
    else
      var prev := FirstSeen(ps[..|ps| - 1]);
      if ps[|ps| - 1] in prev then prev else prev + [ps[|ps| - 1]]
  }

  predicate NoDuplicates(xs: seq<string>)
  {
    forall i, j :: 0 <= i < j < |xs| ==> xs[i] != xs[j]
  }

  /** Each string of `ps` is listed exactly once. */
  lemma {:induction false} FirstSeenOk(ps: seq<string>)
    ensures NoDuplicates(FirstSeen(ps))
    ensures forall s :: s in FirstSeen(ps) <==> s in ps
  {
    if ps != [] {
      var init := ps[..|ps| - 1];
      FirstSeenOk(init);
      assert ps == init + [ps[|ps| - 1]];
    }
  }

  lemma FirstSeenSnoc(ps: seq<string>, m: string)
    ensures FirstSeen(ps + [m]) == if m in FirstSeen(ps) then FirstSeen(ps) else FirstSeen(ps) + [m]
  {
    assert (ps + [m])[..|ps|] == ps;
  }

  /** The change strings of every node, in walk order (`split(result, ';')`). */
  function Changes(results: seq<string>): seq<string>
  {
    if results == [] then [] else Changes(results[..|results| - 1]) + Pieces(results[|results| - 1], ';')
  }

  /** `list` holds, for each string of `ps`, its 1-based position in `mapping`. */
  predicate Decodes(list: seq<nat>, mapping: seq<string>, ps: seq<string>)
  {
    |list| == |ps| && forall j :: 0 <= j < |ps| ==> 1 <= list[j] <= |mapping| && mapping[list[j] - 1] == ps[j]
  }

  /** The table state: `counter` codes handed out, `seen` maps each string
      to the decimal text of its code. */
  ghost predicate Table(seen: map<string, string>, counter: nat, mapping: seq<string>)
  {
    && counter == |mapping|
    && NoDuplicates(mapping)
    && (forall m :: m in seen <==> m in mapping)
    && (forall k :: 0 <= k < |mapping| ==> mapping[k] in seen && seen[mapping[k]] == NatToString(k + 1))
  }

  /** The codes of one node (lines 261-271). */
  method EncodeNode(seen: map<string, string>, counter: nat, mapping: seq<string>, ghost before: seq<string>, result: string)
    returns (seen': map<string, string>, counter': nat, mapping': seq<string>, list: seq<nat>)
    requires Table(seen, counter, mapping) && mapping == FirstSeen(before)
    ensures Table(seen', counter', mapping') && mapping' == FirstSeen(before + Pieces(result, ';'))
    ensures mapping <= mapping' && Decodes(list, mapping', Pieces(result, ';'))
  {
    var pieces := Split(result, ';');
    seen', counter', mapping', list := seen, counter, mapping, [];
    var j := 0;
    assert before + pieces[..0] == before;
    while j < |pieces|
      invariant 0 <= j <= |pieces|
      invariant Table(seen', counter', mapping') && mapping' == FirstSeen(before + pieces[..j])
      invariant mapping <= mapping' && Decodes(list, mapping', pieces[..j])
    {
      ghost var prev := mapping';
      NextPiece(before, pieces, j, prev);
      var code;
      seen', counter', mapping', code := EncodePiece(seen', counter', mapping', pieces[j]);
      DecodesSnoc(list, prev, mapping', pieces, j, code);
      list := list + [code];
      j := j + 1;
    }
    assert pieces[..j] == pieces;
  }

  /** The next string extends the first-seen list exactly when the table
      has not seen it. */
  lemma NextPiece(before: seq<string>, pieces: seq<string>, j: nat, mapping: seq<string>)
    requires j < |pieces| && mapping == FirstSeen(before + pieces[..j])
    ensures FirstSeen(before + pieces[..j + 1]) == if pieces[j] in mapping then mapping else mapping + [pieces[j]]
  {
    FirstSeenOk(before + pieces[..j]);
    FirstSeenSnoc(before + pieces[..j], pieces[j]);
    assert before + pieces[..j + 1] == (before + pieces[..j]) + [pieces[j]];
  }

  /** One change string (lines 262-270): its code, new or looked up. */
  method EncodePiece(seen: map<string, string>, counter: nat, mapping: seq<string>, m: string)
    returns (seen': map<string, string>, counter': nat, mapping': seq<string>, code: nat)
    requires Table(seen, counter, mapping)
    ensures Table(seen', counter', mapping')
    ensures mapping' == if m in mapping then mapping else mapping + [m]
    ensures 1 <= code <= |mapping'| && mapping'[code - 1] == m
  {
    if m !in seen {
      TableAdd(seen, counter, mapping, m);
      counter' := counter + 1;
      seen' := seen[m := NatToString(counter')];
      mapping' := mapping + [m];
      code := counter';
    } else {
      TableLookup(seen, counter, mapping, m);
      seen', counter', mapping' := seen, counter, mapping;
      code := ParseNat(seen[m]);
    }
  }

  /** Handing out the next code keeps the table. */
  lemma TableAdd(seen: map<string, string>, counter: nat, mapping: seq<string>, m: string)
    requires Table(seen, counter, mapping) && m !in seen
    ensures Table(seen[m := NatToString(counter + 1)], counter + 1, mapping + [m])
  {
    var seen' := seen[m := NatToString(counter + 1)];
    var mapping' := mapping + [m];
    forall k | 0 <= k < |mapping'| ensures mapping'[k] in seen' && seen'[mapping'[k]] == NatToString(k + 1) {
      if k < |mapping| {
        assert mapping'[k] == mapping[k] != m;
      }
    }
  }

  /** `stoi(seen_mutations_map[m])` is the code of `m`. */
  lemma TableLookup(seen: map<string, string>, counter: nat, mapping: seq<string>, m: string)
    requires Table(seen, counter, mapping) && m in seen
    ensures 1 <= ParseNat(seen[m]) <= |mapping| && mapping[ParseNat(seen[m]) - 1] == m
  {
    var k :| 0 <= k < |mapping| && mapping[k] == m;
    ParseNatToString(k + 1);
  }

  lemma DecodesSnoc(list: seq<nat>, mapping: seq<string>, mapping': seq<string>, pieces: seq<string>, j: nat, code: nat)
    requires j < |pieces| && Decodes(list, mapping, pieces[..j]) && mapping <= mapping'
    requires 1 <= code <= |mapping'| && mapping'[code - 1] == pieces[j]
    ensures Decodes(list + [code], mapping', pieces[..j + 1])
  {
    DecodesGrow(list, mapping, mapping', pieces[..j]);
  }

  /** The code table over the results of the whole walk: `mapping` is the
      list of distinct change strings in first-seen order, and each node's
      list decodes back to its own changes. */
  method EncodeResults(results: seq<string>) returns (codes: seq<seq<nat>>, mapping: seq<string>)
    ensures mapping == FirstSeen(Changes(results)) && NoDuplicates(mapping)
    ensures |codes| == |results| && AllDecode(codes, mapping, results)
  {
    var seen: map<string, string> := map[];
    var counter: nat := 0;
    mapping, codes := [], [];
    var i := 0;
    while i < |results|
      invariant 0 <= i <= |results| && |codes| == i
      invariant Table(seen, counter, mapping) && mapping == FirstSeen(Changes(results[..i]))
      invariant AllDecode(codes, mapping, results)
    {
      ghost var before := mapping;
      ChangesSnoc(results, i);
      var list;
      seen, counter, mapping, list := EncodeNode(seen, counter, mapping, Changes(results[..i]), results[i]);
      AllDecodeGrow(codes, before, mapping, results, list);
      codes := codes + [list];
      i := i + 1;
    }
    assert results[..i] == results;
    FirstSeenOk(Changes(results));
  }

  lemma ChangesSnoc(results: seq<string>, i: nat)
    requires i < |results|
    ensures Changes(results[..i + 1]) == Changes(results[..i]) + Pieces(results[i], ';')
  {
    assert results[..i + 1][..i] == results[..i];
  }

  /** The lists so far, one per result, decode to their results' changes. */
  predicate AllDecode(codes: seq<seq<nat>>, mapping: seq<string>, results: seq<string>)
  {
    |codes| <= |results| && forall i :: 0 <= i < |codes| ==> Decodes(codes[i], mapping, Pieces(results[i], ';'))
  }

  lemma AllDecodeGrow(codes: seq<seq<nat>>, mapping: seq<string>, mapping': seq<string>, results: seq<string>, list: seq<nat>)
    requires AllDecode(codes, mapping, results) && mapping <= mapping' && |codes| < |results|
    requires Decodes(list, mapping', Pieces(results[|codes|], ';'))
    ensures AllDecode(codes + [list], mapping', results)
  {
    forall i | 0 <= i < |codes| ensures Decodes(codes[i], mapping', Pieces(results[i], ';')) {
      DecodesGrow(codes[i], mapping, mapping', Pieces(results[i], ';'));
    }
  }

  lemma DecodesGrow(list: seq<nat>, mapping: seq<string>, mapping': seq<string>, ps: seq<string>)
    requires Decodes(list, mapping, ps) && mapping <= mapping'
    ensures Decodes(list, mapping', ps)
  {
  }

  /** A string gets one code wherever it occurs. */
  lemma SameChangeSameCode(list: seq<nat>, list': seq<nat>, mapping: seq<string>, ps: seq<string>, ps': seq<string>, j: nat, j': nat)
    requires NoDuplicates(mapping) && Decodes(list, mapping, ps) && Decodes(list', mapping, ps')
    requires j < |ps| && j' < |ps'|
    ensures ps[j] == ps'[j'] <==> list[j] == list'[j']
  {
    if list[j] < list'[j'] {
      assert mapping[list[j] - 1] != mapping[list'[j'] - 1];
    } else if list'[j'] < list[j] {
      assert mapping[list'[j'] - 1] != mapping[list[j] - 1];
    }
  }
}
