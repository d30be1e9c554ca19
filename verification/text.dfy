/**
 * The two string operations of Python the report script relies on:
 * `str.strip()` with no argument and `str.split(sep)` on one separator.
 */
module Text {

  /** `c.isspace()`: the characters Python treats as white space. */
  predicate IsSpace(c: char) {
    || c == ' '
    || '\t' <= c <= '\r'
    || '\U{1C}' <= c <= '\U{1F}'
    || c == '\U{85}' || c == '\U{A0}' || c == '\U{1680}'
    || '\U{2000}' <= c <= '\U{200A}'
    || c == '\U{2028}' || c == '\U{2029}' || c == '\U{202F}' || c == '\U{205F}' || c == '\U{3000}'
  }

  /** Neither end of `s` is white space. */
  predicate Trimmed(s: string) {
    s == [] || (!IsSpace(s[0]) && !IsSpace(s[|s| - 1]))
  }

  /** `s` without its leading run of white space. */
  function TrimLeft(s: string): string {
    if s != [] && IsSpace(s[0]) then TrimLeft(s[1..]) else s
  }

  /** `s` without its trailing run of white space. */
  function TrimRight(s: string): string {
    if s != [] && IsSpace(s[|s| - 1]) then TrimRight(s[..|s| - 1]) else s
  }

  /** TrimLeft removes a prefix of white space, and what it keeps does not start with any. */
  lemma {:induction false} TrimLeftBounds(s: string)
    ensures |TrimLeft(s)| <= |s| && TrimLeft(s) == s[|s| - |TrimLeft(s)|..]
    ensures forall i :: 0 <= i < |s| - |TrimLeft(s)| ==> IsSpace(s[i])
    ensures TrimLeft(s) == [] || !IsSpace(TrimLeft(s)[0])
  {
    if s != [] && IsSpace(s[0]) {
      var t := s[1..];
      TrimLeftBounds(t);
      var r := TrimLeft(t);
      assert t[|t| - |r|..] == s[|s| - |r|..];
      forall i | 0 <= i < |s| - |r| ensures IsSpace(s[i]) {
        if i > 0 {
          assert s[i] == t[i - 1];
        }
      }
    }
  }

  /** TrimRight removes a suffix of white space, and what it keeps does not end with any. */
  lemma {:induction false} TrimRightBounds(s: string)
    ensures |TrimRight(s)| <= |s| && TrimRight(s) == s[..|TrimRight(s)|]
    ensures forall i :: |TrimRight(s)| <= i < |s| ==> IsSpace(s[i])
    ensures TrimRight(s) == [] || !IsSpace(TrimRight(s)[|TrimRight(s)| - 1])
  {
    if s != [] && IsSpace(s[|s| - 1]) {
      var t := s[..|s| - 1];
      TrimRightBounds(t);
      var r := TrimRight(t);
      assert t[..|r|] == s[..|r|];
      forall i | |r| <= i < |s| ensures IsSpace(s[i]) {
        if i < |t| {
          assert s[i] == t[i];
        }
      }
    }
  }

  /** `s.strip()`: `s` without its leading and its trailing run of white space. */
  function Strip(s: string): (r: string)
    ensures Trimmed(r) && |r| <= |s|
  {
    TrimLeftBounds(s);
    TrimRightBounds(TrimLeft(s));
    TrimRight(TrimLeft(s))
  }

  /** The number of white-space characters `Strip` removes from the front. */
  function Leading(s: string): nat {
    TrimLeftBounds(s);
    |s| - |TrimLeft(s)|
  }

  /**
   * What `Strip` removes is white space, from the two ends only: the stripped string is the
   * slice of `s` after its leading white space.
   */
  lemma {:induction false} StripBounds(s: string)
    ensures Leading(s) + |Strip(s)| <= |s|
    ensures Strip(s) == s[Leading(s)..Leading(s) + |Strip(s)|]
    ensures forall i :: 0 <= i < Leading(s) ==> IsSpace(s[i])
    ensures forall i :: Leading(s) + |Strip(s)| <= i < |s| ==> IsSpace(s[i])
  {
    StripSlice(s);
    TrimLeftBounds(s);
    var left := TrimLeft(s);
    TrimRightBounds(left);
    var a, b := Leading(s), Leading(s) + |Strip(s)|;
    forall i | b <= i < |s| ensures IsSpace(s[i]) {
      assert s[i] == left[i - a];
    }
  }

  lemma {:induction false} StripSlice(s: string)
    ensures Leading(s) + |Strip(s)| <= |s|
    ensures Strip(s) == s[Leading(s)..Leading(s) + |Strip(s)|]
  {
    TrimLeftBounds(s);
    var left := TrimLeft(s);
    TrimRightBounds(left);
    var r := TrimRight(left);
    assert left == s[Leading(s)..];
    assert r == left[..|r|];
  }

  /** Stripping keeps out a character that was not there. */
  lemma {:induction false} StripOmits(s: string, c: char)
    requires c !in s
    ensures c !in Strip(s)
  {
    TrimLeftBounds(s);
    var left := TrimLeft(s);
    TrimRightBounds(left);
    SliceOmits(s, c, |s| - |left|, |s|);
    SliceOmits(left, c, 0, |TrimRight(left)|);
  }

  lemma {:induction false} SliceOmits(s: string, c: char, a: nat, b: nat)
    requires c !in s && a <= b <= |s|
    ensures c !in s[a..b]
  {
    assert forall i :: 0 <= i < b - a ==> s[a..b][i] == s[a + i];
  }

  /** Stripping a string that has no white space at its ends changes nothing. */
  lemma {:induction false} StripTrimmed(s: string)
    requires Trimmed(s)
    ensures Strip(s) == s
  {
    assert TrimLeft(s) == s;
    assert TrimRight(s) == s;
  }

  /** Stripping twice is stripping once. */
  lemma {:induction false} StripIdempotent(s: string)
    ensures Strip(Strip(s)) == Strip(s)
  {
    StripTrimmed(Strip(s));
  }

  /** Stripping a line with its newline gives the line, if it has no white space at its ends. */
  lemma {:induction false} StripNewline(line: string)
    requires Trimmed(line)
    ensures Strip(line + "\n") == line
  {
    var raw := line + "\n";
    assert raw[..|raw| - 1] == line;
    if line == [] {
      assert TrimLeft(raw) == TrimLeft(raw[1..]) == [];
    } else {
      assert raw[0] == line[0];
      assert TrimLeft(raw) == raw;
      assert TrimRight(raw) == TrimRight(line) == line;
    }
  }

  /** Stripping text after one blank gives the text, if it has no white space at its ends. */
  lemma {:induction false} StripBlankBefore(t: string)
    requires Trimmed(t)
    ensures Strip(" " + t) == t
  {
    var s := " " + t;
    assert s[1..] == t;
    assert TrimLeft(s) == t by {
      assert IsSpace(s[0]);
      assert TrimLeft(s) == TrimLeft(t);
    }
    assert TrimRight(t) == t;
  }

  /** The inverse of `Split`: the pieces glued back with `sep` between them. */
  function Join(parts: seq<string>, sep: char): string
    requires |parts| >= 1
  {
    if |parts| == 1 then parts[0] else parts[0] + [sep] + Join(parts[1..], sep)
  }

  /** `s.split(sep)`: the maximal runs of `s` free of `sep`, in order. */
  function Split(s: string, sep: char): (r: seq<string>)
    ensures |r| >= 1
    ensures forall i :: 0 <= i < |r| ==> sep !in r[i]
    ensures Join(r, sep) == s
    ensures sep !in s ==> r == [s]
    ensures sep in s ==> |r| >= 2
  {
    if s == [] then [[]]
    else
      var tail := Split(s[1..], sep);
      if s[0] == sep then
        assert s == [sep] + s[1..];
        [[]] + tail
      else
        var r := [[s[0]] + tail[0]] + tail[1..];
        assert r[1..] == tail[1..];
        assert s == [s[0]] + s[1..];
        assert forall i :: 1 <= i < |r| ==> r[i] == tail[i];
        r
  }

  /** Splitting at the first separator: the first piece is everything before it. */
  lemma {:induction false} SplitAt(s: string, sep: char, i: nat)
    requires i < |s| && s[i] == sep && sep !in s[..i]
    ensures Split(s, sep) == [s[..i]] + Split(s[i + 1..], sep)
  {
    if i > 0 {
      assert s[1..][i - 1] == sep;
      assert s[1..][..i - 1] == s[1..i];
      SplitAt(s[1..], sep, i - 1);
      assert s[1..][i..] == s[i + 1..];
      assert [s[0]] + s[1..i] == s[..i];
    }
  }

  /** Splitting a join of separator-free pieces gives the pieces back. */
  lemma {:induction false} SplitJoin(parts: seq<string>, sep: char)
    requires |parts| >= 1
    requires forall i :: 0 <= i < |parts| ==> sep !in parts[i]
    ensures Split(Join(parts, sep), sep) == parts
  {
    if |parts| > 1 {
      var s := Join(parts, sep);
      var p := parts[0];
      assert s == p + ([sep] + Join(parts[1..], sep));
      assert s[..|p|] == p;
      assert s[|p| + 1..] == Join(parts[1..], sep);
      SplitAt(s, sep, |p|);
      SplitJoin(parts[1..], sep);
      assert parts == [p] + parts[1..];
    }
  }

  /** The first two pieces of a split, located by the first two separators (or the end). */
  lemma {:induction false} SplitFirstTwo(s: string, sep: char, i: nat, j: nat)
    requires i < j <= |s| && s[i] == sep && sep !in s[..i]
    requires sep !in s[i + 1..j] && (j == |s| || s[j] == sep)
    ensures |Split(s, sep)| >= 2
    ensures Split(s, sep)[0] == s[..i] && Split(s, sep)[1] == s[i + 1..j]
  {
    SplitAt(s, sep, i);
    var rest := s[i + 1..];
    assert rest[..j - (i + 1)] == s[i + 1..j];
    FirstPiece(rest, sep, j - (i + 1));
  }

  /** The first piece of a split runs up to the first separator, or to the end. */
  lemma {:induction false} FirstPiece(s: string, sep: char, k: nat)
    requires k <= |s| && sep !in s[..k] && (k == |s| || s[k] == sep)
    ensures Split(s, sep)[0] == s[..k]
  {
    if k == |s| {
      assert s[..k] == s;
    } else {
      SplitAt(s, sep, k);
    }
  }
}
