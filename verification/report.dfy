/**
 * `format_input` of report.py: pick the lines to report, run a `Formater` over them and decide
 * what to print last. Reading the file, the confirmation prompt and appending the checkpoint are
 * I/O; the checkpoint's effect on the lines is `Watermark.Checkpoint`.
 */
module Report {
  import opened Wrappers
  import opened Text
  import opened Lines
  import opened Formater
  import opened Accounting
  import opened Watermark

  /** How a run of the script ends, with what the `Formater` printed on the way. */
  datatype Verdict =
    | Crashed                                     // `get_last` raises on an empty file
    | NothingToReport                             // "Nothing to report."
    | Stopped(events: seq<Event>, fault: Fault)   // a parse error or an unreadable time
    | InvalidFormat(events: seq<Event>)           // "Invalid file format.": no `start` at all
    | Total(events: seq<Event>, minutes: nat)     // `print_total` in summary mode
    | Confirm(events: seq<Event>)                 // `store_last` offers to record a checkpoint

  /** The end of `format_input` once the `Formater` has run: the validity check, then the last action. */
  function Conclude(r: Pass, summarize: bool): (v: Verdict)
    ensures !v.Crashed? && !v.NothingToReport?
    ensures v.Total? ==> summarize
    ensures v.Confirm? ==> !summarize
    ensures v.Stopped? <==> r.end.Aborted?
    ensures v.Stopped? ==> v.fault == r.end.fault
  {
    match r.end
    case Aborted(fault) => Stopped(r.events, fault)
    case Finished(total, valid) =>
      if !valid then InvalidFormat(r.events)
      else if summarize then Total(r.events, total)
      else Confirm(r.events)
  }

  /** Everything after the choice of lines: `rest`, numbered from `offset + 1`. */
  function Decide(rest: seq<string>, offset: nat, summarize: bool): (v: Verdict)
    ensures v.NothingToReport? <==> rest == []
    ensures !v.Crashed?
    ensures v.Total? ==> summarize
    ensures v.Confirm? ==> !summarize
    ensures v.Stopped? ==> offset < v.fault.lineNo <= offset + |rest|
    ensures v.Stopped? ==> NamesLine(rest, offset, v.fault)
  {
    if rest == [] then NothingToReport
    else
      var r := Format(rest, offset);
      Conclude(r, summarize)
  }

  /**
   * The verdict on lines already read, in terms of what the lines say: it stops at the first
   * faulty line; otherwise the format is invalid exactly when no line is a `start`, and the
   * summary prints the sum of every closed session after the transcript and the last day.
   */
  lemma {:induction false} ConcludeFollowsHistory(toks: seq<Token>, offset: nat, summarize: bool)
    ensures var v, n := Conclude(Run(toks, offset), summarize), |toks|;
            && (v.Stopped? <==> FirstFault(toks, n).Some?)
            && (v.Stopped? ==>
                  && KeywordAt(toks, FirstFault(toks, n).value).Some?
                  && v.fault == FaultOf(toks, offset, FirstFault(toks, n).value)
                  && v.events == Emitted(toks, FirstFault(toks, n).value))
            && (v.InvalidFormat? <==> FirstFault(toks, n).None? && !HasStart(toks))
            && (v.Total? <==> summarize && FirstFault(toks, n).None? && HasStart(toks))
            && (v.Confirm? <==> !summarize && FirstFault(toks, n).None? && HasStart(toks))
            && (v.Total? ==> v.minutes == Sum(Sessions(toks, n)))
            && (!v.Stopped? ==> v.events == Emitted(toks, n) + [Elapsed(Daily(toks, n))])
  {
    RunFollowsHistory(toks, offset);
  }

  /** `format_input`, as written: the summary reads every line, the report only the unreported. */
  function FormatInput(lines: seq<string>, summarize: bool): (v: Verdict)
    ensures v.Crashed? <==> !summarize && lines == []
    ensures summarize ==> (v.NothingToReport? <==> lines == [])
  {
    if summarize then Decide(lines, 0, true)
    else
      match GetLast(lines)
      case None => Crashed
      case Some(u) => Decide(u.rest, u.offset, false)
  }

  /** `format_input` with `get_last` as intended: an empty or marker-free file is all unreported. */
  function FormatInputIntended(lines: seq<string>, summarize: bool): (v: Verdict)
    ensures !v.Crashed?
  {
    if summarize then Decide(lines, 0, true)
    else
      var u := GetLastIntended(lines);
      Decide(u.rest, u.offset, false)
  }

  /**
   * The summary: it prints a total exactly when the file is not empty, no line is faulty and
   * some line is a `start`; the total is the sum of every closed session, after the transcript
   * and the report of the last day.
   */
  lemma {:induction false} SummaryTotal(lines: seq<string>)
    ensures var toks, v := Tokens(lines), FormatInput(lines, true);
            && (v.Total? <==> lines != [] && FirstFault(toks, |toks|).None? && HasStart(toks))
            && (v.Total? ==> v.minutes == Sum(Sessions(toks, |toks|))
                             && v.events == Emitted(toks, |toks|) + [Elapsed(Daily(toks, |toks|))])
  {
    ConcludeFollowsHistory(Tokens(lines), 0, true);
  }

  /** An error, if the verdict is one, names a line of `lines` by its number from 1 and prints it stripped. */
  predicate NamesLineOf(lines: seq<string>, v: Verdict) {
    v.Stopped? ==> 1 <= v.fault.lineNo <= |lines| && v.fault.line == Strip(lines[v.fault.lineNo - 1])
  }

  /**
   * Reporting the lines after the first `offset`: an error names a line of the whole file by
   * its number from 1, and prints that line stripped.
   */
  lemma {:induction false} DecideErrorLines(lines: seq<string>, offset: nat, summarize: bool)
    requires offset <= |lines|
    ensures NamesLineOf(lines, Decide(lines[offset..], offset, summarize))
  {
    var v := Decide(lines[offset..], offset, summarize);
    if v.Stopped? {
      NamesLineShift(lines, offset, v.fault);
    }
  }

  /** A line named among the lines after the first `offset` is named in the whole file. */
  lemma {:induction false} NamesLineShift(lines: seq<string>, offset: nat, fault: Fault)
    requires offset <= |lines| && NamesLine(lines[offset..], offset, fault)
    ensures 1 <= fault.lineNo <= |lines| && fault.line == Strip(lines[fault.lineNo - 1])
  {
    var j := fault.lineNo - offset - 1;
    assert lines[offset..][j] == lines[fault.lineNo - 1];
  }

  /** In either mode, an error names the faulty line of the file by its number and prints it stripped. */
  lemma {:induction false} ErrorLinesAreAbsolute(lines: seq<string>, summarize: bool)
    ensures NamesLineOf(lines, FormatInput(lines, summarize))
  {
    if summarize {
      SummaryReadsAll(lines);
      DecideErrorLines(lines, 0, true);
    } else if lines != [] {
      WrittenReadsUnreported(lines);
      DecideErrorLines(lines, GetLast(lines).value.offset, false);
    }
  }

  /** The same holds with `get_last` as intended. */
  lemma {:induction false} ErrorLinesAreAbsoluteIntended(lines: seq<string>, summarize: bool)
    ensures NamesLineOf(lines, FormatInputIntended(lines, summarize))
  {
    if summarize {
      SummaryReadsAll(lines);
      DecideErrorLines(lines, 0, true);
    } else {
      IntendedReadsUnreported(lines);
      DecideErrorLines(lines, GetLastIntended(lines).offset, false);
    }
  }

  /** Running the report again right after recording a checkpoint reports nothing. */
  lemma {:induction false} RerunAfterCheckpoint(lines: seq<string>)
    ensures FormatInput(Checkpoint(lines), false) == NothingToReport
    ensures FormatInputIntended(Checkpoint(lines), false) == NothingToReport
  {
    var c := Checkpoint(lines);
    FinalMarkerReportsNothing(c);
  }

  /** A log whose last line is a marker reports nothing, with `get_last` as written or intended. */
  lemma {:induction false} FinalMarkerReportsNothing(lines: seq<string>)
    requires lines != [] && IsMarker(lines[|lines| - 1])
    ensures FormatInput(lines, false) == NothingToReport
    ensures FormatInputIntended(lines, false) == NothingToReport
  {
    FinalMarkerLeavesNothing(lines);
    LastMarkerUnique(lines, |lines| - 1);
    GetLastAgreesWithMarker(lines);
    assert GetLastIntended(lines).rest == [];
  }

  /**
   * Only the lines after the latest checkpoint matter: what comes before it changes nothing but
   * the numbering.
   */
  lemma {:induction false} OnlyLatestCheckpoint(xs: seq<string>, mark: string, ys: seq<string>)
    requires IsMarker(mark)
    requires forall j :: 0 <= j < |ys| ==> !IsMarker(ys[j])
    ensures FormatInput(xs + [mark] + ys, false) == Decide(ys, |xs| + 1, false)
    ensures FormatInputIntended(xs + [mark] + ys, false) == Decide(ys, |xs| + 1, false)
  {
    LatestMarkerWins(xs, mark, ys);
  }

  /**
   * A log that was never checkpointed and opens, as every day does, with a `date` line and
   * then a `start` line is rejected by `format_input` as written: `get_last` drops the `date`
   * line, so the `start` line is reported as illegal in the initial state, at line 2.
   */
  lemma {:induction false} FreshLogRejected(lines: seq<string>)
    requires |lines| >= 2 && LastMarker(lines).None?
    requires Classify(lines[0]).keyword == Some(DateKw)
    requires Classify(lines[1]).keyword == Some(StartKw)
    ensures FormatInput(lines, false) == Stopped([], ParseError("start", "init", 2, Strip(lines[1])))
  {
    GetLastDropsFirstLine(lines);
    WrittenReadsUnreported(lines);
    var toks := Tokens(lines[1..]);
    DecideRuns(lines[1..], 1, false);
    assert toks[0] == Classify(lines[1]);
    StartFirstRejected(toks);
  }

  /** Lines whose first is a `start`: the pass stops there, in the initial state, having printed nothing. */
  lemma {:induction false} StartFirstRejected(toks: seq<Token>)
    requires |toks| >= 1 && toks[0].keyword == Some(StartKw)
    ensures Conclude(Run(toks, 1), false) == Stopped([], ParseError("start", "init", 2, toks[0].line))
  {
    assert FaultAt(toks, 0);
    FirstFaultAtStart(toks);
    ConcludeFollowsHistory(toks, 1, false);
  }

  /**
   * With `get_last` as intended, the same log is read from its first line: the `date` line is
   * echoed first and no error is reported at either of the first two lines.
   */
  lemma {:induction false} FreshLogAccepted(lines: seq<string>)
    requires |lines| >= 2 && LastMarker(lines).None?
    requires Classify(lines[0]).keyword == Some(DateKw)
    requires Classify(lines[1]).keyword == Some(StartKw)
    requires TimeOf(Classify(lines[1]).suffix).Some?
    ensures var v := FormatInputIntended(lines, false);
            && (v.Stopped? ==> v.fault.lineNo > 2)
            && !v.NothingToReport?
            && |v.events| > 0 && v.events[0] == Echo(Strip(lines[0]))
  {
    IntendedReadsUnreported(lines);
    GetLastIntendedSkipsReported(lines);
    assert lines[0..] == lines;
    var toks := Tokens(lines);
    DecideRuns(lines, 0, false);
    assert toks[0] == Classify(lines[0]) && toks[1] == Classify(lines[1]);
    DateThenStartAccepted(toks);
  }

  /** Lines that open with a `date` and a timed `start` are read past both, echoing the date first. */
  lemma {:induction false} DateThenStartAccepted(toks: seq<Token>)
    requires |toks| >= 2
    requires toks[0].keyword == Some(DateKw) && toks[1].keyword == Some(StartKw)
    requires TimeOf(toks[1].suffix).Some?
    ensures var v := Conclude(Run(toks, 0), false);
            && (v.Stopped? ==> v.fault.lineNo > 2)
            && |v.events| > 0 && v.events[0] == Echo(toks[0].line)
  {
    FreshStart(toks);
    ConcludeFollowsHistory(toks, 0, false);
    var v := Conclude(Run(toks, 0), false);
    if v.Stopped? {
      EmittedPrefix(toks, 1, FirstFault(toks, |toks|).value);
    } else {
      EmittedPrefix(toks, 1, |toks|);
    }
  }

  /** An empty file makes `format_input` as written crash in `get_last` in the default mode. */
  lemma {:induction false} EmptyLogCrashes()
    ensures FormatInput([], false) == Crashed
    ensures FormatInput([], true) == NothingToReport
  {
  }

  /** With `get_last` as intended, an empty file has nothing to report in either mode. */
  lemma {:induction false} EmptyLogNothingToReport(summarize: bool)
    ensures FormatInputIntended([], summarize) == NothingToReport
  {
  }

  /**
   * On a file never checkpointed, the intended report and the summary read the same lines:
   * they print the same thing, stop at the same fault or both find the format invalid, and
   * differ only in the closing action.
   */
  lemma {:induction false} IntendedMatchesSummary(lines: seq<string>)
    requires LastMarker(lines).None?
    ensures var v, w := FormatInputIntended(lines, false), FormatInput(lines, true);
            && (v.NothingToReport? <==> w.NothingToReport?)
            && (v.Stopped? <==> w.Stopped?)
            && (v.InvalidFormat? <==> w.InvalidFormat?)
            && (v.Confirm? <==> w.Total?)
            && (v.Stopped? ==> v == w)
            && (v.InvalidFormat? ==> v == w)
            && (v.Confirm? ==> v.events == w.events)
  {
    IntendedReadsUnreported(lines);
    GetLastIntendedSkipsReported(lines);
    SummaryReadsAll(lines);
    if lines != [] {
      ConcludeModes(Format(lines, 0));
    }
  }

  /** The two modes conclude alike from the same pass, but for the last action. */
  lemma {:induction false} ConcludeModes(r: Pass)
    ensures var v, w := Conclude(r, false), Conclude(r, true);
            && (v.Stopped? <==> w.Stopped?)
            && (v.InvalidFormat? <==> w.InvalidFormat?)
            && (v.Confirm? <==> w.Total?)
            && (v.Stopped? ==> v == w)
            && (v.InvalidFormat? ==> v == w)
            && (v.Confirm? ==> v.events == w.events)
  {
  }

  lemma {:induction false} SummaryReadsAll(lines: seq<string>)
    ensures FormatInput(lines, true) == FormatInputIntended(lines, true) == Decide(lines[0..], 0, true)
  {
    assert lines[0..] == lines;
  }

  lemma {:induction false} WrittenReadsUnreported(lines: seq<string>)
    requires lines != []
    ensures FormatInput(lines, false) == Decide(lines[GetLast(lines).value.offset..], GetLast(lines).value.offset, false)
  {
  }

  lemma {:induction false} IntendedReadsUnreported(lines: seq<string>)
    ensures var u := GetLastIntended(lines);
            FormatInputIntended(lines, false) == Decide(lines[u.offset..], u.offset, false)
  {
  }

  lemma {:induction false} DecideRuns(rest: seq<string>, offset: nat, summarize: bool)
    requires rest != []
    ensures Decide(rest, offset, summarize) == Conclude(Run(Tokens(rest), offset), summarize)
  {
  }

  /** A date line then a start line with a time: neither is faulty, and the date is echoed first. */
  lemma {:induction false} FreshStart(toks: seq<Token>)
    requires |toks| >= 2
    requires toks[0].keyword == Some(DateKw) && toks[1].keyword == Some(StartKw)
    requires TimeOf(toks[1].suffix).Some?
    ensures !FaultAt(toks, 0) && !FaultAt(toks, 1)
    ensures FirstFault(toks, |toks|).None? || FirstFault(toks, |toks|).value >= 2
    ensures Emitted(toks, 1) == [Echo(toks[0].line)]
  {
    assert StateAfter(toks, 1) == Date;
  }

  /** A faulty first line is the first fault. */
  lemma {:induction false} FirstFaultAtStart(toks: seq<Token>)
    requires |toks| >= 1 && FaultAt(toks, 0)
    ensures FirstFault(toks, |toks|) == Some(0)
  {
  }
}
