/**
 * One day of work read end to end in summary mode: two sessions, 09h00 to 12h00 and 13h00 to
 * 17h30, make 7 hours 30 minutes.
 */
module Example {
  import opened Wrappers
  import opened Text
  import opened Clock
  import opened Lines
  import opened Formater
  import opened Report

  const Log: seq<string> := ["date: Mon\n", "start: 09h00\n", "stop: 12h00\n", "start: 13h00\n", "stop: 17h30\n"]

  lemma {:induction false} Nine()
    ensures ParseClock("09h00") == Some(9 * MinutesPerHour)
  {
    DigitalTime("09h00", 9, 0);
  }

  lemma {:induction false} Twelve()
    ensures ParseClock("12h00") == Some(12 * MinutesPerHour)
  {
    DigitalTime("12h00", 12, 0);
  }

  lemma {:induction false} Thirteen()
    ensures ParseClock("13h00") == Some(13 * MinutesPerHour)
  {
    DigitalTime("13h00", 13, 0);
  }

  lemma {:induction false} HalfPastFive()
    ensures ParseClock("17h30") == Some(17 * MinutesPerHour + 30)
  {
    DigitalTime("17h30", 17, 30);
  }

  /** A suffix of the log: not blank at either end and free of colons. */
  lemma {:induction false} PlainSuffix(t: string)
    requires t in {"Mon", "09h00", "12h00", "13h00", "17h30"}
    ensures t != [] && Trimmed(t) && ':' !in t
  {
  }

  /** A line of the log, read. */
  lemma {:induction false} LogLine(raw: string, tok: Token)
    requires tok.keyword.Some? && tok.suffix.Some?
    requires tok.suffix.value in {"Mon", "09h00", "12h00", "13h00", "17h30"}
    requires tok.line == Name(tok.keyword.value) + ": " + tok.suffix.value
    requires raw == tok.line + "\n"
    ensures Classify(raw) == tok
  {
    var k, t := tok.keyword.value, tok.suffix.value;
    PlainSuffix(t);
    KeywordLine(k, t);
  }

  /** The log read line by line. */
  const LogRead: seq<Token> := [Token(Some(DateKw), Some("Mon"), "date: Mon"),
                                Token(Some(StartKw), Some("09h00"), "start: 09h00"),
                                Token(Some(StopKw), Some("12h00"), "stop: 12h00"),
                                Token(Some(StartKw), Some("13h00"), "start: 13h00"),
                                Token(Some(StopKw), Some("17h30"), "stop: 17h30")]

  lemma {:induction false} LogTokens()
    ensures Tokens(Log) == LogRead
  {
    forall j | 0 <= j < |Log| ensures Tokens(Log)[j] == LogRead[j] {
      LogToken(j);
    }
  }

  lemma {:induction false} LogToken(j: nat)
    requires j < |Log|
    ensures Classify(Log[j]) == LogRead[j]
  {
    if j == 0 {
      LogLine(Log[0], LogRead[0]);
    } else if j == 1 {
      LogLine(Log[1], LogRead[1]);
    } else if j == 2 {
      LogLine(Log[2], LogRead[2]);
    } else if j == 3 {
      LogLine(Log[3], LogRead[3]);
    } else {
      LogLine(Log[4], LogRead[4]);
    }
  }

  /** The summary echoes the date, reports the day's 450 minutes, and prints the same total. */
  lemma {:induction false} SummaryOfOneDay()
    ensures FormatInput(Log, true) == Total([Echo("date: Mon"), Elapsed(450)], 450)
  {
    LogTokens();
    DecideRuns(Log, 0, true);
    RunOfLog();
  }

  /** The pass over the log, line by line: 180 minutes before the break and 270 after. */
  lemma {:induction false} RunOfLog()
    ensures Conclude(Run(LogRead, 0), true) == Total([Echo("date: Mon"), Elapsed(450)], 450)
  {
    LogReadTimes();
    RunOfTimedLog(LogRead);
  }

  lemma {:induction false} RunOfTimedLog(toks: seq<Token>)
    requires TimedLog(toks)
    ensures Conclude(Run(toks, 0), true) == Total([Echo("date: Mon"), Elapsed(450)], 450)
  {
    AfterSecondStop(toks);
    assert Run(toks, 0) == Pass([Echo("date: Mon"), Elapsed(450)], Finished(450, true));
  }

  /** What the pass needs to know of the log: the keywords, the date line and the times. */
  predicate TimedLog(toks: seq<Token>) {
    && |toks| == 5
    && toks[0].keyword == Some(DateKw) && toks[0].line == "date: Mon"
    && toks[1].keyword == Some(StartKw) && TimeOf(toks[1].suffix) == Some(9 * MinutesPerHour)
    && toks[2].keyword == Some(StopKw) && TimeOf(toks[2].suffix) == Some(12 * MinutesPerHour)
    && toks[3].keyword == Some(StartKw) && TimeOf(toks[3].suffix) == Some(13 * MinutesPerHour)
    && toks[4].keyword == Some(StopKw) && TimeOf(toks[4].suffix) == Some(17 * MinutesPerHour + 30)
  }

  lemma {:induction false} LogReadTimes()
    ensures TimedLog(LogRead)
  {
    Nine();
    Twelve();
    Thirteen();
    HalfPastFive();
  }

  /** A running machine that takes line `n` without a fault runs on, having printed what it prints. */
  lemma {:induction false} FeedNext(toks: seq<Token>, startLine: int, n: nat, c: Ctx, events: seq<Event>, c': Ctx, out: seq<Event>)
    requires 0 < n <= |toks| && Feed(toks, startLine, n - 1) == Running(c, events)
    requires Wf(c) && Step(c, toks[n - 1], startLine + n) == Next(c', out)
    ensures Feed(toks, startLine, n) == Running(c', events + out)
  {
  }

  lemma {:induction false} AfterDate(toks: seq<Token>)
    requires TimedLog(toks)
    ensures Feed(toks, 0, 1) == Running(Ctx(Date, false, None, 0, 0), [Echo("date: Mon")])
  {
    FeedNext(toks, 0, 1, Initial, [], Ctx(Date, false, None, 0, 0), [Echo("date: Mon")]);
  }

  lemma {:induction false} AfterFirstStart(toks: seq<Token>)
    requires TimedLog(toks)
    ensures Feed(toks, 0, 2) == Running(Ctx(Start, true, Some(540), 0, 0), [Echo("date: Mon")])
  {
    AfterDate(toks);
    var c := Ctx(Date, false, None, 0, 0);
    assert Step(c, toks[1], 2) == Next(Ctx(Start, true, Some(540), 0, 0), []);
    FeedNext(toks, 0, 2, c, [Echo("date: Mon")], Ctx(Start, true, Some(540), 0, 0), []);
  }

  lemma {:induction false} AfterFirstStop(toks: seq<Token>)
    requires TimedLog(toks)
    ensures Feed(toks, 0, 3) == Running(Ctx(Content, true, Some(540), 180, 180), [Echo("date: Mon")])
  {
    AfterFirstStart(toks);
    var c := Ctx(Start, true, Some(540), 0, 0);
    assert Duration(540, 720) == 180;
    assert Step(c, toks[2], 3) == Next(Ctx(Content, true, Some(540), 180, 180), []);
    FeedNext(toks, 0, 3, c, [Echo("date: Mon")], Ctx(Content, true, Some(540), 180, 180), []);
  }

  lemma {:induction false} AfterSecondStart(toks: seq<Token>)
    requires TimedLog(toks)
    ensures Feed(toks, 0, 4) == Running(Ctx(Start, true, Some(780), 180, 180), [Echo("date: Mon")])
  {
    AfterFirstStop(toks);
    var c := Ctx(Content, true, Some(540), 180, 180);
    assert Step(c, toks[3], 4) == Next(Ctx(Start, true, Some(780), 180, 180), []);
    FeedNext(toks, 0, 4, c, [Echo("date: Mon")], Ctx(Start, true, Some(780), 180, 180), []);
  }

  lemma {:induction false} AfterSecondStop(toks: seq<Token>)
    requires TimedLog(toks)
    ensures Feed(toks, 0, 5) == Running(Ctx(Content, true, Some(780), 450, 450), [Echo("date: Mon")])
  {
    AfterSecondStart(toks);
    var c := Ctx(Start, true, Some(780), 180, 180);
    assert Duration(780, 1050) == 270;
    assert Step(c, toks[4], 5) == Next(Ctx(Content, true, Some(780), 450, 450), []);
    FeedNext(toks, 0, 5, c, [Echo("date: Mon")], Ctx(Content, true, Some(780), 450, 450), []);
  }
}
