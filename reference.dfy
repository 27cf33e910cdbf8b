// The reference loader: the FASTA file, read line by line, flattened into one
// upper-case nucleotide string (`build_reference`).
module Reference {
  import opened Text

  /** `toupper` in the "C" locale. */
  function ToUpper(c: char): (u: char)
    ensures !('a' <= u <= 'z')
  {
    if 'a' <= c <= 'z' then (c as int - 32) as char else c
  }

  function Upper(s: string): (u: string)
    ensures |u| == |s|
  {
    seq(|s|, k requires 0 <= k < |s| => ToUpper(s[k]))
  }

  /** A line the loader skips: it starts with '>' (or with a newline, which
      `getline` never leaves). */
  predicate IsHeader(line: string)
  {
    line != [] && (line[0] == '>' || line[0] == '\n')
  }

  /** A sequence line as it enters the reference: upper-cased, one trailing
      carriage return removed. */
  function Cleaned(line: string): string
  {
    var u := Upper(line);
    if u != [] && u[|u| - 1] == '\r' then u[..|u| - 1] else u
  }

  /** No line is empty: the loader reads the first and the last character
      of every line unconditionally. */
  predicate LinesOk(lines: seq<string>)
  {
    forall k :: 0 <= k < |lines| ==> lines[k] != []
  }

  /** The reference the file describes: the cleaned sequence lines, in order. */
  function Flatten(lines: seq<string>): string
  {
    if lines == [] then ""
    else
      var last := lines[|lines| - 1];
      Flatten(lines[..|lines| - 1]) + (if IsHeader(last) then "" else Cleaned(last))
  }

  /** `build_reference`. */
  method BuildReference(lines: seq<string>) returns (reference: string)
    requires LinesOk(lines)
    ensures reference == Flatten(lines)
  {
    reference := "";
    var i := 0;
    while i < |lines|
      invariant 0 <= i <= |lines|
      invariant reference == Flatten(lines[..i])
    {
      var line := lines[i];
      FlattenNext(lines, i);
      if line[0] == '>' || line[0] == '\n' {
        i := i + 1;
        continue;
      }
      line := CleanLine(line);
      reference := reference + line;
      i := i + 1;
    }
    assert lines[..i] == lines;
  }

  /** Lines 22-25: upper-case the line, then drop one trailing '\r'. */
  method CleanLine(s: string) returns (line: string)
    requires s != []
    ensures line == Cleaned(s)
  {
    line := UpperLine(s);
    var n := |line|;
    if line[n - 1] == '\r' {
      line := line[..n - 1];
    }
  }

  /** The `transform(..., ::toupper)` loop, in place over the line. */
  method UpperLine(s: string) returns (line: string)
    ensures line == Upper(s)
  {
    line := s;
    var k := 0;
    while k < |line|
      invariant 0 <= k <= |line| && |line| == |s|
      invariant forall j :: 0 <= j < k ==> line[j] == ToUpper(s[j])
      invariant forall j :: k <= j < |s| ==> line[j] == s[j]
    {
      line := line[k := ToUpper(line[k])];
      k := k + 1;
    }
  }

  lemma FlattenNext(lines: seq<string>, i: nat)
    requires i < |lines|
    ensures Flatten(lines[..i + 1]) == Flatten(lines[..i]) + (if IsHeader(lines[i]) then "" else Cleaned(lines[i]))
  {
    assert lines[..i + 1][..i] == lines[..i];
  }

  /** One more line adds its cleaned text, or nothing for a header. */
  lemma FlattenSnoc(s: seq<string>, line: string)
    ensures Flatten(s + [line]) == Flatten(s) + (if IsHeader(line) then "" else Cleaned(line))
  {
    assert (s + [line])[..|s|] == s;
  }

  /** Flattening distributes over concatenation of files. */
  lemma {:induction false} FlattenAppend(a: seq<string>, b: seq<string>)
    ensures Flatten(a + b) == Flatten(a) + Flatten(b)
    decreases |b|
  {
    if b == [] {
      assert a + b == a;
    } else {
      var b', last := b[..|b| - 1], b[|b| - 1];
      var x := if IsHeader(last) then "" else Cleaned(last);
      assert Flatten(a + b) == Flatten(a + b') + x by {
        assert a + b == (a + b') + [last];
        FlattenSnoc(a + b', last);
      }
      assert Flatten(b) == Flatten(b') + x by {
        assert b == b' + [last];
        FlattenSnoc(b', last);
      }
      FlattenAppend(a, b');
      ConcatAssoc(Flatten(a), Flatten(b'), x);
    }
  }

  /** Header lines contribute nothing. */
  lemma HeaderContributesNothing(a: seq<string>, header: string, b: seq<string>)
    requires header != [] && header[0] == '>'
    ensures Flatten(a + [header] + b) == Flatten(a) + Flatten(b)
  {
    var h := [header];
    assert h[..0] == [];
    FlattenAppend(a, h);
    FlattenAppend(a + h, b);
  }

  /** A sequence line contributes its upper-cased text without a trailing
      carriage return. */
  lemma SequenceLineContributes(a: seq<string>, line: string)
    requires line != [] && line[0] != '>' && line[0] != '\n'
    ensures Flatten(a + [line]) == Flatten(a) + Cleaned(line)
    ensures |Cleaned(line)| >= |line| - 1
    ensures line[|line| - 1] != '\r' ==> |Cleaned(line)| == |line|
  {
    assert (a + [line])[..|a|] == a;
  }

  /** The reference holds no lower-case letter. */
  lemma {:induction false} FlattenIsUpper(lines: seq<string>)
    ensures forall k :: 0 <= k < |Flatten(lines)| ==> !('a' <= Flatten(lines)[k] <= 'z')
    decreases |lines|
  {
    if lines != [] {
      var init := lines[..|lines| - 1];
      FlattenIsUpper(init);
      var last := lines[|lines| - 1];
      if !IsHeader(last) {
        var c := Cleaned(last);
        assert forall k :: 0 <= k < |c| ==> c[k] == Upper(last)[k];
      }
    }
  }
}
