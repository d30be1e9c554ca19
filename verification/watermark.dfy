/**
 * The checkpoint of report.py: a line reading `last:` marks where the previous report ended.
 * `get_last` keeps the lines after the latest marker and `store_last` appends a new marker.
 */
module Watermark {
  import opened Wrappers
  import opened Text

  const Marker := "last:"

  /** A checkpoint line, whatever white space surrounds it. */
  predicate IsMarker(line: string) {
    Strip(line) == Marker
  }

  function Reverse<T>(xs: seq<T>): (r: seq<T>)
    ensures |r| == |xs|
    ensures forall i :: 0 <= i < |xs| ==> r[i] == xs[|xs| - 1 - i]
  {
    seq(|xs|, i requires 0 <= i < |xs| => xs[|xs| - 1 - i])
  }

  /** Reversing is its own inverse. */
  lemma {:induction false} ReverseReverse<T>(xs: seq<T>)
    ensures Reverse(Reverse(xs)) == xs
  {
  }

  /** Reversing the first `i` elements of a reversed list gives back its last `i` elements. */
  lemma {:induction false} ReversePrefix<T>(xs: seq<T>, i: nat)
    requires i <= |xs|
    ensures Reverse(Reverse(xs)[..i]) == xs[|xs| - i..]
  {
    var r := Reverse(Reverse(xs)[..i]);
    assert forall j :: 0 <= j < i ==> r[j] == xs[|xs| - i + j];
  }

  /** The lines still to report and the number of lines before them. */
  datatype Unreported = Unreported(rest: seq<string>, offset: nat)

  /** Which lines are markers. */
  function Marks(lines: seq<string>): (marks: seq<bool>)
    ensures |marks| == |lines|
    ensures forall j :: 0 <= j < |lines| ==> marks[j] == IsMarker(lines[j])
  {
    seq(|lines|, j requires 0 <= j < |lines| => IsMarker(lines[j]))
  }

  /**
   * The `for i in range(length)` loop of `get_last` over the reversed lines, from position `i`:
   * it stops at the first marker, and otherwise the loop variable is left at the last position.
   */
  function ScanBack(rev: seq<bool>, i: nat): (k: nat)
    requires i < |rev|
    ensures i <= k < |rev|
    ensures rev[k] || k == |rev| - 1
    ensures forall j :: i <= j < k ==> !rev[j]
    decreases |rev| - i
  {
    if rev[i] || i == |rev| - 1 then i else ScanBack(rev, i + 1)
  }

  /**
   * `get_last`, as written. On an empty list the loop never binds `i` and the slice raises,
   * which is None here.
   */
  function GetLast(lines: seq<string>): (r: Option<Unreported>)
    ensures r.None? <==> lines == []
    ensures r.Some? ==> 1 <= r.value.offset <= |lines| && r.value.rest == lines[r.value.offset..]
  {
    if lines == [] then None
    else
      var rev := Reverse(lines);
      var i := ScanBack(Marks(rev), 0);
      ReversePrefix(lines, i);
      Some(Unreported(Reverse(rev[..i]), |lines| - i))
  }

  /** The position of the latest true entry, if any. */
  function LastTrue(marks: seq<bool>): (m: Option<nat>)
    ensures m.Some? ==> m.value < |marks| && marks[m.value]
    ensures m.Some? ==> forall j :: m.value < j < |marks| ==> !marks[j]
    ensures m.None? ==> forall j :: 0 <= j < |marks| ==> !marks[j]
  {
    if marks == [] then None
    else if marks[|marks| - 1] then Some(|marks| - 1)
    else LastTrue(marks[..|marks| - 1])
  }

  /** A true entry with none after it is the latest one. */
  lemma {:induction false} LastTrueUnique(marks: seq<bool>, m: nat)
    requires m < |marks| && marks[m]
    requires forall j :: m < j < |marks| ==> !marks[j]
    ensures LastTrue(marks) == Some(m)
  {
  }

  /** The position of the latest marker, if any. */
  function LastMarker(lines: seq<string>): (m: Option<nat>)
    ensures m.Some? ==> m.value < |lines| && IsMarker(lines[m.value])
    ensures m.Some? ==> forall j :: m.value < j < |lines| ==> !IsMarker(lines[j])
    ensures m.None? ==> forall j :: 0 <= j < |lines| ==> !IsMarker(lines[j])
  {
    LastTrue(Marks(lines))
  }

  /** Scanning the reversed entries finds the latest true entry; with none, it stops at the first. */
  lemma {:induction false} ScanFindsLatest(marks: seq<bool>)
    requires marks != []
    ensures var i := ScanBack(Reverse(marks), 0);
            match LastTrue(marks)
            case Some(m) => i == |marks| - 1 - m
            case None => i == |marks| - 1
  {
    var rev := Reverse(marks);
    var i := ScanBack(rev, 0);
    var n := |marks|;
    if rev[i] {
      var m := n - 1 - i;
      assert forall j :: m < j < n ==> !marks[j] by {
        forall j | m < j < n ensures !marks[j] {
          assert rev[n - 1 - j] == marks[j];
        }
      }
      LastTrueUnique(marks, m);
    } else {
      assert forall j :: 1 <= j < n ==> !marks[j] by {
        forall j | 1 <= j < n ensures !marks[j] {
          assert rev[n - 1 - j] == marks[j];
        }
      }
    }
  }

  lemma {:induction false} MarksReverse(lines: seq<string>)
    ensures Marks(Reverse(lines)) == Reverse(Marks(lines))
  {
  }

  /**
   * What `get_last` returns, in terms of the markers: the lines after the latest one, preceded
   * by that many lines; and with no marker at all, every line but the first.
   */
  lemma {:induction false} GetLastResolves(lines: seq<string>)
    requires lines != []
    ensures GetLast(lines) == Some(match LastMarker(lines)
                                   case Some(m) => Unreported(lines[m + 1..], m + 1)
                                   case None => Unreported(lines[1..], 1))
  {
    MarksReverse(lines);
    ScanFindsLatest(Marks(lines));
  }

  /** A marker with no marker after it is the latest one. */
  lemma {:induction false} LastMarkerUnique(lines: seq<string>, m: nat)
    requires m < |lines| && IsMarker(lines[m])
    requires forall j :: m < j < |lines| ==> !IsMarker(lines[j])
    ensures LastMarker(lines) == Some(m)
  {
    LastTrueUnique(Marks(lines), m);
  }

  /**
   * `get_last` as its docstring and the checkpoint protocol intend it: the lines after the
   * latest marker, or every line when there is none, with the number of lines skipped.
   */
  function GetLastIntended(lines: seq<string>): (r: Unreported)
    ensures r.offset <= |lines| && r.rest == lines[r.offset..]
  {
    match LastTrue(Marks(lines))
    case None => Unreported(lines, 0)
    case Some(m) => Unreported(lines[m + 1..], m + 1)
  }

  /** What the intended `get_last` keeps contains no marker. */
  lemma {:induction false} GetLastIntendedKeepsNoMarker(lines: seq<string>)
    ensures var r := GetLastIntended(lines);
            forall j :: 0 <= j < |r.rest| ==> !IsMarker(r.rest[j])
  {
    var r := GetLastIntended(lines);
    NothingMarkedAfter(Marks(lines), r.offset);
    forall j | 0 <= j < |r.rest| ensures !IsMarker(r.rest[j]) {
      assert r.rest[j] == lines[r.offset + j];
      Unmarked(lines, r.offset + j);
    }
  }

  /** No entry is true after the latest true one, or at all when there is none. */
  lemma {:induction false} NothingMarkedAfter(marks: seq<bool>, k: nat)
    requires k == match LastTrue(marks) case None => 0 case Some(m) => m + 1
    ensures forall j :: k <= j < |marks| ==> !marks[j]
  {
  }

  lemma {:induction false} Unmarked(lines: seq<string>, k: nat)
    requires k < |lines| && !Marks(lines)[k]
    ensures !IsMarker(lines[k])
  {
  }

  /** What the intended `get_last` skips ends with a marker; with no marker, nothing is skipped. */
  lemma {:induction false} GetLastIntendedSkipsReported(lines: seq<string>)
    ensures var r := GetLastIntended(lines);
            && (r.offset == 0 <==> LastMarker(lines).None?)
            && (r.offset > 0 ==> IsMarker(lines[r.offset - 1]))
  {
    var r := GetLastIntended(lines);
    if r.offset > 0 {
      assert Marks(lines)[r.offset - 1] == IsMarker(lines[r.offset - 1]);
    }
  }

  /** With at least one marker in the log, `get_last` as written does what is intended. */
  lemma {:induction false} GetLastAgreesWithMarker(lines: seq<string>)
    requires LastMarker(lines).Some?
    ensures GetLast(lines) == Some(GetLastIntended(lines))
  {
    var m := LastMarker(lines).value;
    GetLastResolves(lines);
    assert GetLastIntended(lines) == Unreported(lines[m + 1..], m + 1);
  }

  /**
   * With no marker at all, `get_last` as written drops the first line and numbers the rest
   * from 2, while every line is unreported.
   */
  lemma {:induction false} GetLastDropsFirstLine(lines: seq<string>)
    requires lines != [] && LastMarker(lines).None?
    ensures GetLast(lines) == Some(Unreported(lines[1..], 1))
    ensures GetLastIntended(lines) == Unreported(lines, 0)
  {
    GetLastResolves(lines);
  }

  /** Whatever precedes the latest marker, only what follows it is left to report. */
  lemma {:induction false} LatestMarkerWins(xs: seq<string>, mark: string, ys: seq<string>)
    requires IsMarker(mark)
    requires forall j :: 0 <= j < |ys| ==> !IsMarker(ys[j])
    ensures GetLast(xs + [mark] + ys) == Some(Unreported(ys, |xs| + 1))
    ensures GetLastIntended(xs + [mark] + ys) == Unreported(ys, |xs| + 1)
  {
    var lines := xs + [mark] + ys;
    assert lines[|xs|] == mark;
    assert forall j :: |xs| < j < |lines| ==> lines[j] == ys[j - |xs| - 1];
    LastMarkerUnique(lines, |xs|);
    GetLastResolves(lines);
    assert lines[|xs| + 1..] == ys;
  }

  /**
   * The lines of the file after `store_last` appends "\nlast:\n": the newline ends the last
   * line if it was unterminated and makes an empty line otherwise.
   */
  function Checkpoint(lines: seq<string>): (r: seq<string>)
    ensures |r| >= 2 && IsMarker(r[|r| - 1])
    ensures lines != [] ==> |r| >= |lines| + 1 && r[..|lines| - 1] == lines[..|lines| - 1]
    ensures lines != [] ==> r[|lines| - 1] in {lines[|lines| - 1], lines[|lines| - 1] + "\n"}
    ensures |r| <= |lines| + 2 && forall j :: |lines| <= j < |r| - 1 ==> r[j] == "\n"
    ensures r[|r| - 1] == MarkerText
    ensures lines != [] ==> (r[|lines| - 1] == lines[|lines| - 1] <==> Terminated(lines[|lines| - 1]))
    ensures |r| == |lines| + (if lines != [] && r[|lines| - 1] != lines[|lines| - 1] then 1 else 2)
  {
    MarkerLine();
    var closed := Close(lines);
    var r := closed + [MarkerText];
    assert lines != [] ==> r[..|lines| - 1] == closed[..|lines| - 1];
    r
  }

  /** The lines once the "\n" that `store_last` writes first has landed. */
  function Close(lines: seq<string>): (r: seq<string>)
    ensures |r| >= 1 && |r| >= |lines|
    ensures lines != [] ==> r[..|lines| - 1] == lines[..|lines| - 1]
    ensures lines != [] ==> r[|lines| - 1] in {lines[|lines| - 1], lines[|lines| - 1] + "\n"}
    ensures |r| <= |lines| + 1 && forall j :: |lines| <= j < |r| ==> r[j] == "\n"
    ensures lines != [] ==> (r[|lines| - 1] == lines[|lines| - 1] <==> Terminated(lines[|lines| - 1]))
    ensures |r| == |lines| + (if lines != [] && r[|lines| - 1] != lines[|lines| - 1] then 0 else 1)
  {
    var n := |lines|;
    if n > 0 && !Terminated(lines[n - 1]) then
      lines[..n - 1] + [lines[n - 1] + "\n"]
    else
      lines + ["\n"]
  }

  /**
   * A line that needs no newline before more text is appended: it already ends in a newline, or
   * it is empty (which a line `readlines` returns never is).
   */
  predicate Terminated(line: string) {
    line == [] || line[|line| - 1] == '\n'
  }

  /** The text of a file, from the lines `readlines` gives. */
  function Concat(lines: seq<string>): string {
    if lines == [] then [] else Concat(lines[..|lines| - 1]) + lines[|lines| - 1]
  }

  /**
   * `store_last` writes "\nlast:\n" at the end of the file: the text after a checkpoint is the
   * text before it followed by exactly those characters.
   */
  lemma {:induction false} CheckpointAppends(lines: seq<string>)
    ensures Concat(Checkpoint(lines)) == Concat(lines) + "\n" + MarkerText
  {
    var closed := Close(lines);
    assert Concat(closed) == Concat(lines) + "\n" by {
      var n := |lines|;
      if n > 0 && !Terminated(lines[n - 1]) {
        assert closed[..n - 1] == lines[..n - 1];
      } else {
        assert closed[..n] == lines;
      }
    }
    assert Checkpoint(lines)[..|closed|] == closed;
  }

  /** The line `store_last` appends. */
  const MarkerText := "last:\n"

  lemma {:induction false} MarkerLine()
    ensures IsMarker(MarkerText)
  {
    assert TrimLeft(MarkerText) == MarkerText;
    assert TrimRight(MarkerText) == Marker by {
      assert MarkerText[..|MarkerText| - 1] == Marker;
    }
  }

  /** Right after a checkpoint nothing is left to report. */
  lemma {:induction false} CheckpointLeavesNothing(lines: seq<string>)
    ensures GetLast(Checkpoint(lines)) == Some(Unreported([], |Checkpoint(lines)|))
  {
    FinalMarkerLeavesNothing(Checkpoint(lines));
  }

  /** A log whose last line is a marker has nothing left to report. */
  lemma {:induction false} FinalMarkerLeavesNothing(lines: seq<string>)
    requires lines != [] && IsMarker(lines[|lines| - 1])
    ensures GetLast(lines) == Some(Unreported([], |lines|))
  {
    LastMarkerUnique(lines, |lines| - 1);
    GetLastResolves(lines);
  }
}
