// String helpers used by the translation engine: the getline-based `split`,
// separator joining, `std::to_string` on naturals and `std::stoi` on digit strings.
module Text {

  /** The items `getline` yields on `item + s` when `item` has already been
      read without meeting the delimiter `d`: every delimiter ends an item
      (possibly empty); the text after the last delimiter is an item only
      when it is not empty. */
  function Cut(item: string, s: string, d: char): seq<string>
    decreases |s|
  {
    if s == [] then (if item == [] then [] else [item])
    else if s[0] == d then [item] + Cut([], s[1..], d)
    else Cut(item + [s[0]], s[1..], d)
  }

  /** The items `split(s, d)` returns. */
  function Pieces(s: string, d: char): seq<string>
  {
    Cut([], s, d)
  }

  /** `parts` joined with `sep` between consecutive parts, none at the ends. */
  function Join(parts: seq<string>, sep: string): string
  {
    if |parts| == 0 then ""
    else if |parts| == 1 then parts[0]
    else parts[0] + sep + Join(parts[1..], sep)
  }

  /** Every part followed by `sep`: what a loop that appends `part + sep` builds. */
  function Terminated(parts: seq<string>, sep: string): string
  {
    if parts == [] then "" else Terminated(parts[..|parts| - 1], sep) + parts[|parts| - 1] + sep
  }

  /** No piece contains the delimiter. */
  lemma {:induction false} CutNoDelimiter(item: string, s: string, d: char)
    requires d !in item
    ensures forall k :: 0 <= k < |Cut(item, s, d)| ==> d !in Cut(item, s, d)[k]
    decreases |s|
  {
    if s != [] {
      if s[0] == d {
        CutNoDelimiter([], s[1..], d);
      } else {
        CutNoDelimiter(item + [s[0]], s[1..], d);
      }
    }
  }

  lemma PiecesNoDelimiter(s: string, d: char)
    ensures forall k :: 0 <= k < |Pieces(s, d)| ==> d !in Pieces(s, d)[k]
  {
    CutNoDelimiter([], s, d);
  }

  lemma CutNonEmpty(item: string, s: string, d: char)
    requires s != []
    ensures Cut(item, s, d) != []
    decreases |s|
  {
  }

  /** The trailing delimiter `getline` swallows, if any. */
  function Trail(s: string, d: char): string
  {
    if s != [] && s[|s| - 1] == d then [d] else []
  }

  /** Round trip: joining the pieces with the delimiter gives back the text,
      up to the one trailing delimiter that `getline` swallows. */
  lemma {:induction false} JoinCut(item: string, s: string, d: char)
    ensures Join(Cut(item, s, d), [d]) + Trail(s, d) == item + s
    decreases |s|
  {
    if s == [] {
      assert item + s == item;
    } else {
      var rest := s[1..];
      assert s == [s[0]] + rest;
      assert rest != [] ==> Trail(rest, d) == Trail(s, d);
      if s[0] == d {
        var c := Cut([], rest, d);
        JoinCut([], rest, d);
        if rest != [] {
          CutNonEmpty([], rest, d);
          assert ([item] + c)[1..] == c;
          assert Join([item] + c, [d]) == item + [d] + Join(c, [d]);
          assert (item + [d] + Join(c, [d])) + Trail(s, d) == item + [d] + (Join(c, [d]) + Trail(rest, d));
        } else {
          assert Join([item] + c, [d]) == item;
        }
      } else {
        JoinCut(item + [s[0]], rest, d);
        assert (item + [s[0]]) + rest == item + s;
        if rest == [] {
          assert Trail(s, d) == [];
        }
      }
    }
  }

  lemma JoinPieces(s: string, d: char)
    ensures Join(Pieces(s, d), [d]) + Trail(s, d) == s
  {
    JoinCut([], s, d);
    assert [] + s == s;
  }

  /** `split(s, d)`: the stringstream/getline loop. */
  method Split(s: string, d: char) returns (result: seq<string>)
    ensures result == Pieces(s, d)
  {
    result := [];
    var item := "";
    var i := 0;
    while i < |s|
      invariant 0 <= i <= |s|
      invariant result + Cut(item, s[i..], d) == Pieces(s, d)
    {
      assert s[i..][1..] == s[i + 1..];
      if s[i] == d {
        result, item := result + [item], "";
      } else {
        item := item + [s[i]];
      }
      i := i + 1;
    }
    if item != "" {
      result := result + [item];
    }
  }

  /** Stripping the last separator from a terminated list gives the joined list. */
  lemma {:induction false} TerminatedStrip(parts: seq<string>, sep: char)
    requires parts != []
    ensures var t := Terminated(parts, [sep]);
      |t| > 0 && t[|t| - 1] == sep && t[..|t| - 1] == Join(parts, [sep])
    decreases |parts|
  {
    var n := |parts|;
    if n == 1 {
      assert parts[..0] == [];
    } else {
      var init := parts[..n - 1];
      TerminatedStrip(init, sep);
      JoinSnoc(init, parts[n - 1], [sep]);
      assert init + [parts[n - 1]] == parts;
    }
  }

  /** Joining one more part appends the separator and the part. */
  lemma {:induction false} JoinSnoc(parts: seq<string>, last: string, sep: string)
    requires parts != []
    ensures Join(parts + [last], sep) == Join(parts, sep) + sep + last
    decreases |parts|
  {
    if |parts| == 1 {
      assert (parts + [last])[1..] == [last];
    } else {
      assert (parts + [last])[1..] == parts[1..] + [last];
      JoinSnoc(parts[1..], last, sep);
    }
  }

  function DigitChar(k: nat): char
    requires k < 10
  {
    "0123456789"[k]
  }

  predicate IsDigit(c: char) { '0' <= c <= '9' }

  predicate IsNumeral(s: string) { s != [] && forall k :: 0 <= k < |s| ==> IsDigit(s[k]) }

  /** `std::to_string` on a natural number: its decimal numeral. */
  function NatToString(n: nat): (r: string)
    ensures IsNumeral(r)
  {
    if n < 10 then [DigitChar(n)] else NatToString(n / 10) + [DigitChar(n % 10)]
  }

  /** `std::stoi` on a numeral of decimal digits. */
  function ParseNat(s: string): nat
    requires IsNumeral(s)
  {
    if |s| == 1 then (s[0] as int - '0' as int) as nat
    else 10 * ParseNat(s[..|s| - 1]) + (s[|s| - 1] as int - '0' as int) as nat
  }

  /** `stoi(to_string(n)) == n`: the decimal codes written and read back agree. */
  lemma {:induction false} ParseNatToString(n: nat)
    ensures ParseNat(NatToString(n)) == n
  {
    if n >= 10 {
      ParseNatToString(n / 10);
      var s := NatToString(n);
      assert s[..|s| - 1] == NatToString(n / 10);
    }
  }

  /** Splitting `a + ":" + b` on ':' with a colon-free `b` gives at least two
      pieces; with a colon-free `a` they are exactly `[a, b]`. */
  lemma {:induction false} CutAroundColon(item: string, a: string, b: string)
    requires ':' !in b && b != []
    ensures |Cut(item, a + [':'] + b, ':')| >= 2
    ensures ':' !in a ==> Cut(item, a + [':'] + b, ':') == [item + a, b]
    decreases |a|
  {
    var s := a + [':'] + b;
    if a == [] {
      assert s == [':'] + b && s[1..] == b;
      CutPlain([], b, ':');
      assert [] + b == b;
      assert item + a == item;
    } else {
      assert s[1..] == a[1..] + [':'] + b;
      if a[0] == ':' {
        CutAroundColon([], a[1..], b);
      } else {
        CutAroundColon(item + [a[0]], a[1..], b);
        assert (item + [a[0]]) + a[1..] == item + a;
      }
    }
  }

  /** Text without the delimiter is read as one item. */
  lemma {:induction false} CutPlain(item: string, s: string, d: char)
    requires d !in s && item + s != []
    ensures Cut(item, s, d) == [item + s]
    decreases |s|
  {
    if s != [] {
      assert s[0] != d && d !in s[1..];
      CutPlain(item + [s[0]], s[1..], d);
      assert (item + [s[0]]) + s[1..] == item + s;
    } else {
      assert item + s == item;
    }
  }

  lemma PiecesAroundColon(a: string, b: string)
    requires ':' !in b && b != []
    ensures |Pieces(a + [':'] + b, ':')| >= 2
    ensures ':' !in a ==> Pieces(a + [':'] + b, ':') == [a, b]
  {
    CutAroundColon([], a, b);
    assert [] + a == a;
  }

  /** Two numerals are equal only for equal numbers: `to_string` is one to one. */
  lemma NatToStringInjective(m: nat, n: nat)
    requires NatToString(m) == NatToString(n)
    ensures m == n
  {
    ParseNatToString(m);
    ParseNatToString(n);
  }

  /** The text after the last ':' of `a + ":" + b`, for a colon-free `b`, is
      `b`: the whole text determines both parts. */
  lemma ColonSplitUnique(a1: string, b1: string, a2: string, b2: string)
    requires ':' !in b1 && ':' !in b2
    requires a1 + [':'] + b1 == a2 + [':'] + b2
    ensures a1 == a2 && b1 == b2
  {
    var s := a1 + [':'] + b1;
    LastColon(a1, b1);
    LastColon(a2, b2);
    assert a1 == s[..|a1|] && a2 == s[..|a2|];
    assert b1 == s[|a1| + 1..] && b2 == s[|a2| + 1..];
  }

  /** In `a + ":" + b` with a colon-free `b`, the colon before `b` is the last one. */
  lemma LastColon(a: string, b: string)
    requires ':' !in b
    ensures var s := a + [':'] + b;
      s[|a|] == ':' && forall k :: |a| < k < |s| ==> s[k] != ':'
  {
    var s := a + [':'] + b;
    forall k | |a| < k < |s| ensures s[k] != ':' {
      assert s[k] == b[k - |a| - 1];
    }
  }

  /** Regrouping a concatenation. Stated on its own so that a proof about
      recursively defined text can use it without unfolding that text. */
  lemma ConcatAssoc(p: string, q: string, r: string)
    ensures (p + q) + r == p + (q + r)
  {
  }
}
