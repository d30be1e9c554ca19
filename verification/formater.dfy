/**
 * The `Formater` state machine of report.py.
 *
 * The script consumes lines by mutual recursion (`_consume` calls a transition, which calls
 * `_consume` again). Here the same left-to-right pass is a fold over the line index: `Step`
 * handles one line and `Feed` applies it to the first `n` lines. Printing becomes a list of
 * events and `sys.exit` a fault that ends the pass.
 */
module Formater {
  import opened Wrappers
  import opened Text
  import opened Clock
  import opened Lines

  datatype State = Init | Date | Start | Content

  /** The names `_parse_error` prints for each state. */
  function StateName(s: State): (r: string)
    ensures r == "init" <==> s == Init
    ensures r == "date" <==> s == Date
    ensures r == "start" <==> s == Start
    ensures r == "content" <==> s == Content
  {
    match s
    case Init => "init"
    case Date => "date"
    case Start => "start"
    case Content => "content"
  }

  /** The state a legal keyword leads to. */
  function Target(k: Keyword): State {
    match k
    case DateKw => Date
    case StartKw => Start
    case StopKw => Content
  }

  /**
   * The guards of `_date`, `_start` and `_stop`: `date` is legal from INIT or CONTENT, `start`
   * from DATE or CONTENT, `stop` only from START. None means the keyword is illegal here.
   */
  function Transition(k: Keyword, s: State): (r: Option<State>)
    ensures r.Some? ==> r.value == Target(k)
    ensures s == Init ==> (r.Some? <==> k == DateKw)
    ensures s == Start ==> (r.Some? <==> k == StopKw)
    ensures k == StopKw ==> (r.Some? <==> s == Start)
    ensures r.Some? <==> || (k == DateKw && s in {Init, Content})
                         || (k == StartKw && s in {Date, Content})
                         || (k == StopKw && s == Start)
  {
    match (k, s)
    case (DateKw, Init) => Some(Date)
    case (DateKw, Content) => Some(Date)
    case (StartKw, Date) => Some(Start)
    case (StartKw, Content) => Some(Start)
    case (StopKw, Start) => Some(Content)
    case _ => None
  }

  /** What the script prints, with the time banners reduced to their minute counts. */
  datatype Event =
    | Echo(text: string)       // a date line, printed as stripped
    | Indented(text: string)   // a content line, printed after eight spaces
    | Elapsed(minutes: nat)    // "Time worked: ..." for the day in progress

  /** The two ways a pass over the lines stops early. */
  datatype Fault =
    | ParseError(keyword: string, state: string, lineNo: int, line: string)  // `_parse_error`, then exit(1)
    | BadTime(keyword: string, lineNo: int, line: string)  // strptime raises on the suffix

  /**
   * The mutable fields of a `Formater`: the state, the `must_print` argument of the pending
   * `_consume`, `_start_datetime`, and the daily and total durations in minutes.
   */
  datatype Ctx = Ctx(state: State, echo: bool, started: Option<Minute>, daily: nat, total: nat)

  const Initial := Ctx(Init, false, None, 0, 0)

  /**
   * What every reachable context satisfies: an open session has a start time, and content is
   * echoed exactly after a `start` or a `stop`.
   */
  predicate Wf(c: Ctx) {
    && (c.state == Start ==> c.started.Some?)
    && (c.echo <==> c.state == Start || c.state == Content)
  }

  /** `hours_to_datetime` on a suffix; a missing suffix makes strptime raise as well. */
  function TimeOf(suffix: Option<string>): (r: Option<Minute>)
    ensures suffix.None? ==> r.None?
    ensures r.Some? ==> suffix.Some? && ParseClock(suffix.value) == r
    ensures r.Some? <==> suffix.Some? && ParseClock(suffix.value).Some?
  {
    match suffix
    case None => None
    case Some(t) => ParseClock(t)
  }

  datatype Outcome = Next(ctx: Ctx, out: seq<Event>) | Fail(fault: Fault)

  /** Consume one line, the `lineNo`-th of the file, already read into a token. */
  function Step(c: Ctx, t: Token, lineNo: int): (r: Outcome)
    requires Wf(c)
    ensures r.Next? ==> Wf(r.ctx)
    ensures r.Next? ==> c.total <= r.ctx.total
    ensures r.Next? && t.keyword != Some(DateKw) ==> c.daily <= r.ctx.daily
    ensures r.Next? && t.keyword == Some(DateKw) ==> r.ctx.daily == 0 && r.ctx.state == Date
    ensures t.keyword.None? ==>
              r == Next(c, if c.state in {Start, Content} then [Indented(t.line)] else [])
    ensures r.Fail? ==> t.keyword.Some? && r.fault.lineNo == lineNo && r.fault.line == t.line
    ensures r.Fail? ==> r.fault.keyword == Name(t.keyword.value)
  {
    match t.keyword
    case None =>
      Next(c, if c.echo then [Indented(t.line)] else [])
    case Some(k) =>
      if Transition(k, c.state).None? then
        Fail(ParseError(Name(k), StateName(c.state), lineNo, t.line))
      else
        match k
        case DateKw =>
          var report := if c.state == Content then [Elapsed(c.daily)] else [];
          Next(c.(state := Date, echo := false, daily := 0), report + [Echo(t.line)])
        case StartKw =>
          (match TimeOf(t.suffix)
           case None => Fail(BadTime(Name(k), lineNo, t.line))
           case Some(time) => Next(c.(state := Start, echo := true, started := Some(time)), []))
        case StopKw =>
          (match TimeOf(t.suffix)
           case None => Fail(BadTime(Name(k), lineNo, t.line))
           case Some(time) =>
             var d := Duration(c.started.value, time);
             Next(c.(state := Content, echo := true, daily := c.daily + d, total := c.total + d), []))
  }

  datatype Machine = Running(ctx: Ctx, events: seq<Event>) | Halted(events: seq<Event>, fault: Fault)

  /**
   * The machine after the first `n` lines, numbered from `startLine + 1`. A fault stops the
   * pass: the remaining lines are not looked at.
   */
  function Feed(toks: seq<Token>, startLine: int, n: nat): (m: Machine)
    requires n <= |toks|
    ensures m.Running? ==> Wf(m.ctx)
    ensures m.Halted? ==> && startLine < m.fault.lineNo <= startLine + n
                          && m.fault.line == toks[m.fault.lineNo - startLine - 1].line
  {
    if n == 0 then Running(Initial, [])
    else
      match Feed(toks, startLine, n - 1)
      case Halted(events, fault) => Halted(events, fault)
      case Running(c, events) =>
        match Step(c, toks[n - 1], startLine + n)
        case Next(c', out) => Running(c', events + out)
        case Fail(fault) => Halted(events, fault)
  }

  datatype End = Finished(total: nat, valid: bool) | Aborted(fault: Fault)

  /** Everything a `Formater` prints, and how its pass ended. */
  datatype Pass = Pass(events: seq<Event>, end: End)

  /**
   * Constructing a `Formater` on lines already read: consume every line, then report the day in
   * progress. `valid` is `is_valid()`: whether `_start_datetime` was ever set.
   */
  function Run(toks: seq<Token>, startLine: int): (r: Pass)
    ensures r.end.Finished? ==> |r.events| > 0 && r.events[|r.events| - 1].Elapsed?
    ensures r.end.Aborted? ==> && startLine < r.end.fault.lineNo <= startLine + |toks|
                               && r.end.fault.line == toks[r.end.fault.lineNo - startLine - 1].line
  {
    match Feed(toks, startLine, |toks|)
    case Running(c, events) => Pass(events + [Elapsed(c.daily)], Finished(c.total, c.started.Some?))
    case Halted(events, fault) => Pass(events, Aborted(fault))
  }

  /** `fault` names one of `lines`, numbered from `startLine + 1`, and prints it stripped. */
  predicate NamesLine(lines: seq<string>, startLine: int, fault: Fault) {
    && startLine < fault.lineNo <= startLine + |lines|
    && fault.line == Strip(lines[fault.lineNo - startLine - 1])
  }

  /** `Formater(lines, startLine)`: the lines numbered from `startLine + 1`. */
  function Format(lines: seq<string>, startLine: int): (r: Pass)
    ensures r.end.Finished? ==> |r.events| > 0 && r.events[|r.events| - 1].Elapsed?
    ensures r.end.Aborted? ==> NamesLine(lines, startLine, r.end.fault)
  {
    var toks := Tokens(lines);
    var r := Run(toks, startLine);
    assert r.end.Aborted? ==>
             var j := r.end.fault.lineNo - startLine - 1;
             r.end.fault.line == toks[j].line == Strip(lines[j]);
    r
  }
}
