/**
 * What a pass of the `Formater` means, stated from the lines alone.
 *
 * Each summary below looks only at the first `n` lines of the log (the latest keyword line, the
 * latest start, the sessions closed so far, where the current day began) with no machine state.
 * `FeedFollowsHistory` proves that the state threaded through `Feed` is always these summaries,
 * and `RunFollowsHistory` draws the consequences for a whole pass.
 */
module Accounting {
  import opened Wrappers
  import opened Clock
  import opened Lines
  import opened Formater

  function KeywordAt(toks: seq<Token>, j: nat): Option<Keyword>
    requires j < |toks|
  {
    toks[j].keyword
  }

  function TimeAt(toks: seq<Token>, j: nat): Option<Minute>
    requires j < |toks|
  {
    TimeOf(toks[j].suffix)
  }

  /** The index of the last keyword line among the first `n`. */
  function LastKeywordLine(toks: seq<Token>, n: nat): (r: Option<nat>)
    requires n <= |toks|
    ensures r.Some? ==> r.value < n && KeywordAt(toks, r.value).Some?
    ensures r.Some? ==> forall i :: r.value < i < n ==> KeywordAt(toks, i).None?
    ensures r.None? ==> forall i :: 0 <= i < n ==> KeywordAt(toks, i).None?
  {
    if n == 0 then None
    else if KeywordAt(toks, n - 1).Some? then Some(n - 1)
    else LastKeywordLine(toks, n - 1)
  }

  /** The index of the last line among the first `n` with keyword `k`. */
  function LastLineOf(toks: seq<Token>, n: nat, k: Keyword): (r: Option<nat>)
    requires n <= |toks|
    ensures r.Some? ==> r.value < n && KeywordAt(toks, r.value) == Some(k)
    ensures r.Some? ==> forall i :: r.value < i < n ==> KeywordAt(toks, i) != Some(k)
    ensures r.None? ==> forall i :: 0 <= i < n ==> KeywordAt(toks, i) != Some(k)
  {
    if n == 0 then None
    else if KeywordAt(toks, n - 1) == Some(k) then Some(n - 1)
    else LastLineOf(toks, n - 1, k)
  }

  /** The state after the first `n` lines: where the latest keyword line leads, INIT if none. */
  function StateAfter(toks: seq<Token>, n: nat): State
    requires n <= |toks|
  {
    match LastKeywordLine(toks, n)
    case None => Init
    case Some(j) => Target(KeywordAt(toks, j).value)
  }

  /** The time on the latest `start` line among the first `n`, if there is one. */
  function LastStart(toks: seq<Token>, n: nat): Option<Minute>
    requires n <= |toks|
  {
    match LastLineOf(toks, n, StartKw)
    case None => None
    case Some(j) => TimeAt(toks, j)
  }

  /**
   * The session line `j` closes: a `stop` line with a time closes the one opened by the latest
   * `start` before it, and lasts from that start to the stop.
   */
  function SessionAt(toks: seq<Token>, j: nat): (r: seq<nat>)
    requires j < |toks|
    ensures |r| <= 1
  {
    var start := LastStart(toks, j);
    var stop := TimeAt(toks, j);
    if KeywordAt(toks, j) == Some(StopKw) && start.Some? && stop.Some? then [Duration(start.value, stop.value)]
    else []
  }

  /** The sessions closed by lines `from` to `n - 1`, in order. */
  function SessionsFrom(toks: seq<Token>, from: nat, n: nat): seq<nat>
    requires from <= n <= |toks|
    decreases n
  {
    if n == from then [] else SessionsFrom(toks, from, n - 1) + SessionAt(toks, n - 1)
  }

  /** The sessions closed within the first `n` lines, in order. */
  function Sessions(toks: seq<Token>, n: nat): seq<nat>
    requires n <= |toks|
  {
    SessionsFrom(toks, 0, n)
  }

  function Sum(xs: seq<nat>): nat {
    if xs == [] then 0 else Sum(xs[..|xs| - 1]) + xs[|xs| - 1]
  }

  lemma {:induction false} SumAppend(xs: seq<nat>, x: nat)
    ensures Sum(xs + [x]) == Sum(xs) + x
  {
    assert (xs + [x])[..|xs|] == xs;
  }

  /** Later lines only add sessions: the sessions of a shorter prefix are a prefix. */
  lemma {:induction false} SessionsGrow(toks: seq<Token>, k: nat, n: nat)
    requires k <= n <= |toks|
    ensures |Sessions(toks, k)| <= |Sessions(toks, n)|
    ensures Sessions(toks, n)[..|Sessions(toks, k)|] == Sessions(toks, k)
  {
    if k < n {
      SessionsGrow(toks, k, n - 1);
      var before := Sessions(toks, n - 1);
      var closed := SessionAt(toks, n - 1);
      assert Sessions(toks, n) == before + closed;
      PrefixExtend(Sessions(toks, k), before, closed);
    }
  }

  /** The first line of the day in progress: just after the latest `date`, or the first line. */
  function DayStart(toks: seq<Token>, n: nat): (d: nat)
    requires n <= |toks|
    ensures d <= n
  {
    match LastLineOf(toks, n, DateKw)
    case None => 0
    case Some(j) => j + 1
  }

  /** The minutes worked in the day in progress: the sum of the sessions closed since its `date`. */
  function Daily(toks: seq<Token>, n: nat): nat
    requires n <= |toks|
  {
    Sum(SessionsFrom(toks, DayStart(toks, n), n))
  }

  /**
   * Line `j` stops the pass: a keyword illegal in the state its predecessors lead to, or a
   * `start` or `stop` whose suffix is not a time.
   */
  predicate FaultAt(toks: seq<Token>, j: nat)
    requires j < |toks|
  {
    match KeywordAt(toks, j)
    case None => false
    case Some(k) => Transition(k, StateAfter(toks, j)).None? || (k != DateKw && TimeAt(toks, j).None?)
  }

  /** The fault raised at line `j` (0-based) of lines numbered from `startLine + 1`. */
  function FaultOf(toks: seq<Token>, startLine: int, j: nat): Fault
    requires j < |toks| && KeywordAt(toks, j).Some?
  {
    var k := KeywordAt(toks, j).value;
    var state := StateAfter(toks, j);
    if Transition(k, state).None? then
      ParseError(Name(k), StateName(state), startLine + j + 1, toks[j].line)
    else
      BadTime(Name(k), startLine + j + 1, toks[j].line)
  }

  lemma {:induction false} FaultFields(toks: seq<Token>, startLine: int, j: nat)
    requires j < |toks| && KeywordAt(toks, j).Some?
    ensures var f := FaultOf(toks, startLine, j);
            f.lineNo == startLine + j + 1 && f.line == toks[j].line && f.keyword == Name(toks[j].keyword.value)
  {
  }

  /** The first faulty line among the first `n`. */
  function FirstFault(toks: seq<Token>, n: nat): (r: Option<nat>)
    requires n <= |toks|
    ensures r.None? <==> forall j :: 0 <= j < n ==> !FaultAt(toks, j)
    ensures r.Some? ==> r.value < n && FaultAt(toks, r.value)
    ensures r.Some? ==> forall j :: 0 <= j < r.value ==> !FaultAt(toks, j)
  {
    if n == 0 then None
    else
      var earlier := FirstFault(toks, n - 1);
      if earlier.Some? then earlier
      else if FaultAt(toks, n - 1) then Some(n - 1)
      else None
  }

  /**
   * What line `j` prints: a content line is echoed, indented, only after a `start` or a `stop`;
   * a `date` line first reports the day it closes (when the latest keyword before it is a
   * `stop`, that is in state CONTENT) and is then echoed; `start` and `stop` print nothing.
   */
  function EmitAt(toks: seq<Token>, j: nat): seq<Event>
    requires j < |toks|
  {
    var state := StateAfter(toks, j);
    match KeywordAt(toks, j)
    case None => if state in {Start, Content} then [Indented(toks[j].line)] else []
    case Some(DateKw) =>
      (if state == Content then [Elapsed(Daily(toks, j))] else []) + [Echo(toks[j].line)]
    case Some(_) => []
  }

  /** Everything the first `n` lines print. */
  function Emitted(toks: seq<Token>, n: nat): seq<Event>
    requires n <= |toks|
  {
    if n == 0 then [] else Emitted(toks, n - 1) + EmitAt(toks, n - 1)
  }

  /** A context holds exactly the summaries of the first `n` lines. */
  predicate Agrees(toks: seq<Token>, n: nat, c: Ctx)
    requires n <= |toks|
  {
    && c.state == StateAfter(toks, n)
    && c.started == LastStart(toks, n)
    && c.total == Sum(Sessions(toks, n))
    && c.daily == Daily(toks, n)
  }

  /** A stop line adds its session to the day in progress. */
  lemma {:induction false} DailyAfterStop(toks: seq<Token>, j: nat)
    requires j < |toks| && KeywordAt(toks, j) == Some(StopKw)
    requires TimeAt(toks, j).Some? && LastStart(toks, j).Some?
    ensures Daily(toks, j + 1) == Daily(toks, j) + Duration(LastStart(toks, j).value, TimeAt(toks, j).value)
  {
    var d := Duration(LastStart(toks, j).value, TimeAt(toks, j).value);
    var day := DayStart(toks, j);
    DaysOnlyAtDate(toks, j);
    assert SessionsFrom(toks, day, j + 1) == SessionsFrom(toks, day, j) + [d];
    SumAppend(SessionsFrom(toks, day, j), d);
  }

  /** Step `j` of the machine does what the summaries say line `j` does. */
  predicate StepMatches(toks: seq<Token>, startLine: int, j: nat, c: Ctx)
    requires j < |toks| && Wf(c)
  {
    var r := Step(c, toks[j], startLine + j + 1);
    && (r.Next? <==> !FaultAt(toks, j))
    && (r.Next? ==> Agrees(toks, j + 1, r.ctx) && r.out == EmitAt(toks, j))
    && (r.Fail? ==> KeywordAt(toks, j).Some? && r.fault == FaultOf(toks, startLine, j))
  }

  /** A keyword line leads to the state its keyword targets. */
  lemma {:induction false} KeywordLineLeads(toks: seq<Token>, j: nat)
    requires j < |toks| && KeywordAt(toks, j).Some?
    ensures StateAfter(toks, j + 1) == Target(KeywordAt(toks, j).value)
  {
    assert LastKeywordLine(toks, j + 1) == Some(j);
  }

  /** A content line leaves the state as it was. */
  lemma {:induction false} ContentLineStays(toks: seq<Token>, j: nat)
    requires j < |toks| && KeywordAt(toks, j).None?
    ensures StateAfter(toks, j + 1) == StateAfter(toks, j)
  {
    assert LastKeywordLine(toks, j + 1) == LastKeywordLine(toks, j);
  }

  /** Only a `start` line changes the latest start. */
  lemma {:induction false} StartsOnlyAtStart(toks: seq<Token>, j: nat)
    requires j < |toks|
    ensures KeywordAt(toks, j) != Some(StartKw) ==> LastStart(toks, j + 1) == LastStart(toks, j)
    ensures KeywordAt(toks, j) == Some(StartKw) ==> LastStart(toks, j + 1) == TimeAt(toks, j)
  {
    if KeywordAt(toks, j) != Some(StartKw) {
      assert LastLineOf(toks, j + 1, StartKw) == LastLineOf(toks, j, StartKw);
    } else {
      assert LastLineOf(toks, j + 1, StartKw) == Some(j);
    }
  }

  /** Only a `stop` line closes a session. */
  lemma {:induction false} SessionsOnlyAtStop(toks: seq<Token>, j: nat)
    requires j < |toks| && KeywordAt(toks, j) != Some(StopKw)
    ensures SessionAt(toks, j) == []
    ensures Sessions(toks, j + 1) == Sessions(toks, j)
    ensures forall d :: 0 <= d <= j ==> SessionsFrom(toks, d, j + 1) == SessionsFrom(toks, d, j)
  {
    forall d | 0 <= d <= j ensures SessionsFrom(toks, d, j + 1) == SessionsFrom(toks, d, j) {
      assert SessionsFrom(toks, d, j) + [] == SessionsFrom(toks, d, j);
    }
  }

  /** Only a `date` line starts a new day, and after it nothing has been worked that day. */
  lemma {:induction false} DaysOnlyAtDate(toks: seq<Token>, j: nat)
    requires j < |toks|
    ensures KeywordAt(toks, j) != Some(DateKw) ==> DayStart(toks, j + 1) == DayStart(toks, j)
    ensures KeywordAt(toks, j) == Some(DateKw) ==> Daily(toks, j + 1) == 0
  {
    if KeywordAt(toks, j) != Some(DateKw) {
      assert LastLineOf(toks, j + 1, DateKw) == LastLineOf(toks, j, DateKw);
    } else {
      assert LastLineOf(toks, j + 1, DateKw) == Some(j);
      assert SessionsFrom(toks, j + 1, j + 1) == [];
    }
  }

  lemma {:induction false} StepContent(toks: seq<Token>, startLine: int, j: nat, c: Ctx)
    requires j < |toks| && Wf(c) && Agrees(toks, j, c) && KeywordAt(toks, j).None?
    ensures StepMatches(toks, startLine, j, c)
  {
    ContentLineStays(toks, j);
    StartsOnlyAtStart(toks, j);
    SessionsOnlyAtStop(toks, j);
    DaysOnlyAtDate(toks, j);
  }

  /** A keyword illegal in the current state is the fault `_parse_error` reports. */
  lemma {:induction false} StepIllegal(toks: seq<Token>, startLine: int, j: nat, c: Ctx)
    requires j < |toks| && Wf(c) && Agrees(toks, j, c) && KeywordAt(toks, j).Some?
    requires Transition(KeywordAt(toks, j).value, c.state).None?
    ensures StepMatches(toks, startLine, j, c)
  {
  }

  /** A legal `start` or `stop` whose suffix is not a time is the fault strptime raises. */
  lemma {:induction false} StepUntimed(toks: seq<Token>, startLine: int, j: nat, c: Ctx)
    requires j < |toks| && Wf(c) && Agrees(toks, j, c) && KeywordAt(toks, j) in {Some(StartKw), Some(StopKw)}
    requires Transition(KeywordAt(toks, j).value, c.state).Some? && TimeAt(toks, j).None?
    ensures StepMatches(toks, startLine, j, c)
  {
  }

  lemma {:induction false} StepDate(toks: seq<Token>, startLine: int, j: nat, c: Ctx)
    requires j < |toks| && Wf(c) && Agrees(toks, j, c) && KeywordAt(toks, j) == Some(DateKw)
    requires Transition(DateKw, c.state).Some?
    ensures StepMatches(toks, startLine, j, c)
  {
    DateAgrees(toks, j, c);
    DateEmits(toks, j, c);
    var report := if c.state == Content then [Elapsed(c.daily)] else [];
    assert Step(c, toks[j], startLine + j + 1) == Next(c.(state := Date, echo := false, daily := 0), report + [Echo(toks[j].line)]);
  }

  /** A legal `date` line reports the day it closes, then is echoed. */
  lemma {:induction false} DateEmits(toks: seq<Token>, j: nat, c: Ctx)
    requires j < |toks| && Agrees(toks, j, c) && KeywordAt(toks, j) == Some(DateKw)
    requires Transition(DateKw, c.state).Some?
    ensures !FaultAt(toks, j)
    ensures EmitAt(toks, j) == (if c.state == Content then [Elapsed(c.daily)] else []) + [Echo(toks[j].line)]
  {
  }

  lemma {:induction false} DateAgrees(toks: seq<Token>, j: nat, c: Ctx)
    requires j < |toks| && Agrees(toks, j, c) && KeywordAt(toks, j) == Some(DateKw)
    ensures Agrees(toks, j + 1, c.(state := Date, echo := false, daily := 0))
  {
    KeywordLineLeads(toks, j);
    StartsOnlyAtStart(toks, j);
    SessionsOnlyAtStop(toks, j);
    DaysOnlyAtDate(toks, j);
  }

  lemma {:induction false} StepStart(toks: seq<Token>, startLine: int, j: nat, c: Ctx)
    requires j < |toks| && Wf(c) && Agrees(toks, j, c) && KeywordAt(toks, j) == Some(StartKw)
    requires Transition(StartKw, c.state).Some? && TimeAt(toks, j).Some?
    ensures StepMatches(toks, startLine, j, c)
  {
    StartAgrees(toks, j, c);
    TimedEmits(toks, j, c);
    assert Step(c, toks[j], startLine + j + 1) == Next(c.(state := Start, echo := true, started := TimeAt(toks, j)), []);
  }

  lemma {:induction false} StartAgrees(toks: seq<Token>, j: nat, c: Ctx)
    requires j < |toks| && Agrees(toks, j, c) && KeywordAt(toks, j) == Some(StartKw)
    ensures Agrees(toks, j + 1, c.(state := Start, echo := true, started := TimeAt(toks, j)))
  {
    KeywordLineLeads(toks, j);
    StartsOnlyAtStart(toks, j);
    SessionsOnlyAtStop(toks, j);
    DaysOnlyAtDate(toks, j);
  }

  lemma {:induction false} StepStop(toks: seq<Token>, startLine: int, j: nat, c: Ctx)
    requires j < |toks| && Wf(c) && Agrees(toks, j, c) && KeywordAt(toks, j) == Some(StopKw)
    requires Transition(StopKw, c.state).Some? && TimeAt(toks, j).Some?
    ensures StepMatches(toks, startLine, j, c)
  {
    var d := Duration(c.started.value, TimeAt(toks, j).value);
    var c' := c.(state := Content, echo := true, daily := c.daily + d, total := c.total + d);
    StopAgrees(toks, j, c, c');
    TimedEmits(toks, j, c);
    StopCloses(toks, startLine, j, c, c');
    MatchesOfNext(toks, startLine, j, c, c', []);
  }

  /** A step that goes on, from a line that is not faulty, to the summaries and output of the longer prefix. */
  lemma {:induction false} MatchesOfNext(toks: seq<Token>, startLine: int, j: nat, c: Ctx, c': Ctx, out: seq<Event>)
    requires j < |toks| && Wf(c) && Step(c, toks[j], startLine + j + 1) == Next(c', out)
    requires !FaultAt(toks, j) && Agrees(toks, j + 1, c') && out == EmitAt(toks, j)
    ensures StepMatches(toks, startLine, j, c)
  {
  }

  /** A legal `stop` with a time closes the session into both accumulators and prints nothing. */
  lemma {:induction false} StopCloses(toks: seq<Token>, startLine: int, j: nat, c: Ctx, c': Ctx)
    requires j < |toks| && Wf(c) && KeywordAt(toks, j) == Some(StopKw)
    requires Transition(StopKw, c.state).Some? && TimeAt(toks, j).Some?
    requires var d := Duration(c.started.value, TimeAt(toks, j).value);
             c' == c.(state := Content, echo := true, daily := c.daily + d, total := c.total + d)
    ensures Step(c, toks[j], startLine + j + 1) == Next(c', [])
  {
    assert c.state == Start;
    assert Transition(StopKw, Start) == Some(Content);
  }

  /** A legal `start` or `stop` line with a time prints nothing. */
  lemma {:induction false} TimedEmits(toks: seq<Token>, j: nat, c: Ctx)
    requires j < |toks| && Agrees(toks, j, c) && KeywordAt(toks, j) in {Some(StartKw), Some(StopKw)}
    requires Transition(KeywordAt(toks, j).value, c.state).Some? && TimeAt(toks, j).Some?
    ensures !FaultAt(toks, j)
    ensures EmitAt(toks, j) == []
  {
  }

  lemma {:induction false} StopAgrees(toks: seq<Token>, j: nat, c: Ctx, c': Ctx)
    requires j < |toks| && Agrees(toks, j, c) && KeywordAt(toks, j) == Some(StopKw)
    requires c.started.Some? && TimeAt(toks, j).Some?
    requires var d := Duration(c.started.value, TimeAt(toks, j).value);
             c' == c.(state := Content, echo := true, daily := c.daily + d, total := c.total + d)
    ensures Agrees(toks, j + 1, c')
  {
    KeywordLineLeads(toks, j);
    StartsOnlyAtStart(toks, j);
    DaysOnlyAtDate(toks, j);
    var d := Duration(LastStart(toks, j).value, TimeAt(toks, j).value);
    assert Sessions(toks, j + 1) == Sessions(toks, j) + [d];
    DailyAfterStop(toks, j);
    SumAppend(Sessions(toks, j), d);
  }

  /** One step of the machine keeps it in agreement with the summaries. */
  lemma {:induction false} StepFollowsHistory(toks: seq<Token>, startLine: int, j: nat, c: Ctx)
    requires j < |toks| && Wf(c) && Agrees(toks, j, c)
    ensures StepMatches(toks, startLine, j, c)
  {
    match KeywordAt(toks, j)
    case None => StepContent(toks, startLine, j, c);
    case Some(k) =>
      if Transition(k, c.state).None? {
        StepIllegal(toks, startLine, j, c);
      } else if k == DateKw {
        StepDate(toks, startLine, j, c);
      } else if TimeAt(toks, j).None? {
        StepUntimed(toks, startLine, j, c);
      } else if k == StartKw {
        StepStart(toks, startLine, j, c);
      } else {
        StepStop(toks, startLine, j, c);
      }
  }

  /**
   * The machine after `n` lines is the summaries of those lines: it runs exactly while no line
   * so far is faulty, and once halted it holds the fault of the first faulty line and what the
   * lines before that one printed.
   */
  predicate Follows(toks: seq<Token>, startLine: int, n: nat)
    requires n <= |toks|
  {
    && (Feed(toks, startLine, n).Running? <==> FirstFault(toks, n).None?)
    && (Feed(toks, startLine, n).Running? ==>
          Agrees(toks, n, Feed(toks, startLine, n).ctx) &&
          Feed(toks, startLine, n).events == Emitted(toks, n))
    && (Feed(toks, startLine, n).Halted? ==>
          FirstFault(toks, n).Some? &&
          KeywordAt(toks, FirstFault(toks, n).value).Some? &&
          Feed(toks, startLine, n).fault == FaultOf(toks, startLine, FirstFault(toks, n).value) &&
          Feed(toks, startLine, n).events == Emitted(toks, FirstFault(toks, n).value))
  }

  lemma {:induction false} FeedFollowsHistory(toks: seq<Token>, startLine: int, n: nat)
    requires n <= |toks|
    ensures Follows(toks, startLine, n)
  {
    if n > 0 {
      FeedFollowsHistory(toks, startLine, n - 1);
      if Feed(toks, startLine, n - 1).Halted? {
        FollowsAfterHalt(toks, startLine, n);
      } else {
        FollowsAfterStep(toks, startLine, n);
      }
    }
  }

  /** Once halted, the machine stays halted and later lines change nothing. */
  lemma {:induction false} FollowsAfterHalt(toks: seq<Token>, startLine: int, n: nat)
    requires 0 < n <= |toks| && Follows(toks, startLine, n - 1) && Feed(toks, startLine, n - 1).Halted?
    ensures Follows(toks, startLine, n)
  {
    assert Feed(toks, startLine, n) == Feed(toks, startLine, n - 1);
    assert FirstFault(toks, n) == FirstFault(toks, n - 1);
  }

  /** A running machine takes line `n - 1` as the summaries say it does. */
  lemma {:induction false} FollowsAfterStep(toks: seq<Token>, startLine: int, n: nat)
    requires 0 < n <= |toks| && Follows(toks, startLine, n - 1) && Feed(toks, startLine, n - 1).Running?
    ensures Follows(toks, startLine, n)
  {
    var j := n - 1;
    var c := Feed(toks, startLine, j).ctx;
    StepFollowsHistory(toks, startLine, j, c);
    if Step(c, toks[j], startLine + j + 1).Next? {
      FollowsAfterNext(toks, startLine, j);
    } else {
      FollowsAfterFail(toks, startLine, j);
    }
  }

  /** A line that is not faulty keeps the machine running, in agreement with one more line. */
  lemma {:induction false} FollowsAfterNext(toks: seq<Token>, startLine: int, j: nat)
    requires j < |toks| && Follows(toks, startLine, j) && Feed(toks, startLine, j).Running?
    requires StepMatches(toks, startLine, j, Feed(toks, startLine, j).ctx)
    requires Step(Feed(toks, startLine, j).ctx, toks[j], startLine + j + 1).Next?
    ensures Follows(toks, startLine, j + 1)
  {
    var c, events := Feed(toks, startLine, j).ctx, Feed(toks, startLine, j).events;
    var r := Step(c, toks[j], startLine + j + 1);
    assert Agrees(toks, j + 1, r.ctx) && r.out == EmitAt(toks, j) && !FaultAt(toks, j);
    assert Feed(toks, startLine, j + 1) == Running(r.ctx, events + r.out);
    assert Emitted(toks, j + 1) == events + r.out;
    assert FirstFault(toks, j + 1).None?;
  }

  /** The first faulty line halts the machine with its fault. */
  lemma {:induction false} FollowsAfterFail(toks: seq<Token>, startLine: int, j: nat)
    requires j < |toks| && Follows(toks, startLine, j) && Feed(toks, startLine, j).Running?
    requires StepMatches(toks, startLine, j, Feed(toks, startLine, j).ctx)
    requires Step(Feed(toks, startLine, j).ctx, toks[j], startLine + j + 1).Fail?
    ensures Follows(toks, startLine, j + 1)
  {
    var c, events := Feed(toks, startLine, j).ctx, Feed(toks, startLine, j).events;
    var r := Step(c, toks[j], startLine + j + 1);
    assert KeywordAt(toks, j).Some? && r.fault == FaultOf(toks, startLine, j) && FaultAt(toks, j);
    assert Feed(toks, startLine, j + 1) == Halted(events, r.fault);
    assert FirstFault(toks, j + 1) == Some(j);
  }

  /** Without a faulty line, `_start_datetime` is set exactly when some line is a `start`. */
  lemma {:induction false} StartSeen(toks: seq<Token>, n: nat)
    requires n <= |toks|
    requires forall j :: 0 <= j < n ==> !FaultAt(toks, j)
    ensures LastStart(toks, n).Some? <==> exists j :: 0 <= j < n && KeywordAt(toks, j) == Some(StartKw)
  {
    if n > 0 {
      StartSeen(toks, n - 1);
      if KeywordAt(toks, n - 1) == Some(StartKw) {
        assert !FaultAt(toks, n - 1);
      }
    }
  }

  predicate HasStart(toks: seq<Token>) {
    exists j :: 0 <= j < |toks| && KeywordAt(toks, j) == Some(StartKw)
  }

  /**
   * A whole pass over the lines: it finishes exactly when no line is faulty. Then it prints
   * what each line prints followed by the day in progress, its total is the sum of all closed
   * sessions, and it is valid exactly when some line is a `start`. Otherwise it stops at the
   * first faulty line with that line's fault, having printed what the lines before it print.
   */
  lemma {:induction false} RunFollowsHistory(toks: seq<Token>, startLine: int)
    ensures var r := Run(toks, startLine);
            && (r.end.Finished? <==> FirstFault(toks, |toks|).None?)
            && (r.end.Finished? ==>
                  && r.events == Emitted(toks, |toks|) + [Elapsed(Daily(toks, |toks|))]
                  && r.end.total == Sum(Sessions(toks, |toks|))
                  && (r.end.valid <==> HasStart(toks)))
            && (r.end.Aborted? ==>
                  && FirstFault(toks, |toks|).Some?
                  && KeywordAt(toks, FirstFault(toks, |toks|).value).Some?
                  && r.end.fault == FaultOf(toks, startLine, FirstFault(toks, |toks|).value)
                  && r.events == Emitted(toks, FirstFault(toks, |toks|).value))
  {
    FeedFollowsHistory(toks, startLine, |toks|);
    if FirstFault(toks, |toks|).None? {
      StartSeen(toks, |toks|);
    }
  }

  /**
   * Where a pass stops: at the first faulty line, numbered `start_line` plus the lines consumed,
   * with that line's keyword and text. It is a parse error exactly when the keyword is illegal
   * in the state the earlier lines lead to, and the error then names that state; otherwise the
   * line's suffix is not a time.
   */
  lemma {:induction false} FaultLocates(toks: seq<Token>, startLine: int)
    ensures var r := Run(toks, startLine);
            r.end.Aborted? ==>
              && FirstFault(toks, |toks|).Some?
              && var j := FirstFault(toks, |toks|).value;
              && toks[j].keyword.Some?
              && r.end.fault.lineNo == startLine + j + 1
              && r.end.fault.line == toks[j].line
              && r.end.fault.keyword == Name(toks[j].keyword.value)
              && (r.end.fault.ParseError? <==> Transition(toks[j].keyword.value, StateAfter(toks, j)).None?)
              && (r.end.fault.ParseError? ==> r.end.fault.state == StateName(StateAfter(toks, j)))
              && (r.end.fault.BadTime? ==> TimeAt(toks, j).None?)
  {
    RunFollowsHistory(toks, startLine);
    if Run(toks, startLine).end.Aborted? {
      FaultFields(toks, startLine, FirstFault(toks, |toks|).value);
    }
  }

  /** The latest keyword line is also the latest line with its own keyword. */
  lemma {:induction false} LatestKeywordIsLatestOfItsKind(toks: seq<Token>, n: nat)
    requires n <= |toks| && LastKeywordLine(toks, n).Some?
    ensures LastLineOf(toks, n, KeywordAt(toks, LastKeywordLine(toks, n).value).value) == LastKeywordLine(toks, n)
  {
    if KeywordAt(toks, n - 1).None? {
      LatestKeywordIsLatestOfItsKind(toks, n - 1);
    }
  }

  /** Lines without a `stop` close no session. */
  lemma {:induction false} NoStopNoSessions(toks: seq<Token>, from: nat, n: nat)
    requires from <= n <= |toks|
    requires forall i :: from <= i < n ==> KeywordAt(toks, i) != Some(StopKw)
    ensures SessionsFrom(toks, from, n) == []
  {
    if from < n {
      NoStopNoSessions(toks, from, n - 1);
      assert SessionAt(toks, n - 1) == [];
    }
  }

  /**
   * In INIT or DATE no session has been closed since the day began: before any keyword line
   * there is no `stop`, and after a `date` the next keyword line would leave DATE.
   */
  lemma {:induction false} IdleDayReportsZero(toks: seq<Token>, n: nat)
    requires n <= |toks|
    requires StateAfter(toks, n) in {Init, Date}
    ensures Daily(toks, n) == 0
  {
    match LastKeywordLine(toks, n)
    case None =>
      NoStopNoSessions(toks, DayStart(toks, n), n);
    case Some(j) =>
      assert KeywordAt(toks, j) == Some(DateKw);
      LatestKeywordIsLatestOfItsKind(toks, n);
      assert DayStart(toks, n) == j + 1;
      NoStopNoSessions(toks, j + 1, n);
  }

  /**
   * A pass that finishes in INIT or DATE still reports the day in progress, with zero minutes:
   * the final `Time worked` line is printed in every state.
   */
  lemma {:induction false} IdleRunReportsZero(toks: seq<Token>, startLine: int)
    requires StateAfter(toks, |toks|) in {Init, Date}
    ensures var r := Run(toks, startLine);
            r.end.Finished? ==> r.events[|r.events| - 1] == Elapsed(0)
  {
    RunFollowsHistory(toks, startLine);
    IdleDayReportsZero(toks, |toks|);
  }

  /** The number of lines with keyword `k` among the first `n`. */
  function CountOf(toks: seq<Token>, n: nat, k: Keyword): nat
    requires n <= |toks|
  {
    if n == 0 then 0 else CountOf(toks, n - 1, k) + (if KeywordAt(toks, n - 1) == Some(k) then 1 else 0)
  }

  /**
   * Without a faulty line every `stop` closes exactly one session: the one opened by the latest
   * `start`, which no other `stop` has closed.
   */
  lemma {:induction false} StopsCloseSessions(toks: seq<Token>, n: nat)
    requires n <= |toks|
    requires forall j :: 0 <= j < n ==> !FaultAt(toks, j)
    ensures |Sessions(toks, n)| == CountOf(toks, n, StopKw)
  {
    if n > 0 {
      var j := n - 1;
      StopsCloseSessions(toks, j);
      if KeywordAt(toks, j) == Some(StopKw) {
        assert !FaultAt(toks, j);
        assert StateAfter(toks, j) == Start;
        var i := LastKeywordLine(toks, j).value;
        LatestKeywordIsLatestOfItsKind(toks, j);
        assert !FaultAt(toks, i);
      }
    }
  }

  /** The total never decreases as lines are consumed. */
  lemma {:induction false} TotalNeverDecreases(toks: seq<Token>, startLine: int, k: nat, n: nat)
    requires k <= n <= |toks| && Feed(toks, startLine, n).Running?
    ensures Feed(toks, startLine, k).Running?
    ensures Feed(toks, startLine, k).ctx.total <= Feed(toks, startLine, n).ctx.total
  {
    FeedFollowsHistory(toks, startLine, k);
    FeedFollowsHistory(toks, startLine, n);
    SessionsGrow(toks, k, n);
    SumPrefix(Sessions(toks, n), |Sessions(toks, k)|);
  }

  lemma {:induction false} SumPrefix(xs: seq<nat>, k: nat)
    requires k <= |xs|
    ensures Sum(xs[..k]) <= Sum(xs)
  {
    if k < |xs| {
      var init := xs[..|xs| - 1];
      SumPrefix(init, k);
      assert init[..k] == xs[..k];
      assert Sum(xs) == Sum(init) + xs[|xs| - 1];
    } else {
      assert xs[..k] == xs;
    }
  }

  /** A session still open after the last line adds nothing: no `stop` after a start, no session. */
  lemma {:induction false} OpenSessionUncounted(toks: seq<Token>, j: nat, n: nat)
    requires j < n <= |toks| && KeywordAt(toks, j) == Some(StartKw)
    requires forall i :: j < i < n ==> KeywordAt(toks, i) != Some(StopKw)
    ensures Sessions(toks, n) == Sessions(toks, j)
  {
    if n > j + 1 {
      OpenSessionUncounted(toks, j, n - 1);
    }
  }

  /**
   * The legality of a keyword in terms of the keyword lines before it, content lines aside:
   * a `date` must be the first keyword or follow a `stop`, a `start` must follow a `date` or a
   * `stop`, and a `stop` must follow a `start`.
   */
  lemma {:induction false} KeywordLegality(toks: seq<Token>, j: nat)
    requires j < |toks| && KeywordAt(toks, j).Some?
    ensures var previous := match LastKeywordLine(toks, j)
                            case None => None
                            case Some(i) => KeywordAt(toks, i);
            Transition(KeywordAt(toks, j).value, StateAfter(toks, j)).Some? <==>
              match KeywordAt(toks, j).value
              case DateKw => previous.None? || previous == Some(StopKw)
              case StartKw => previous == Some(DateKw) || previous == Some(StopKw)
              case StopKw => previous == Some(StartKw)
  {
  }

  /** Later lines only add output: what a prefix prints is a prefix of what the whole prints. */
  lemma {:induction false} EmittedPrefix(toks: seq<Token>, k: nat, n: nat)
    requires k <= n <= |toks|
    ensures |Emitted(toks, k)| <= |Emitted(toks, n)|
    ensures Emitted(toks, n)[..|Emitted(toks, k)|] == Emitted(toks, k)
  {
    if k < n {
      EmittedPrefix(toks, k, n - 1);
      var e := EmitAt(toks, n - 1);
      assert Emitted(toks, n) == Emitted(toks, n - 1) + e;
      PrefixExtend(Emitted(toks, k), Emitted(toks, n - 1), e);
    }
  }

  lemma {:induction false} PrefixExtend<T>(a: seq<T>, b: seq<T>, c: seq<T>)
    requires |a| <= |b| && b[..|a|] == a
    ensures |a| <= |b + c| && (b + c)[..|a|] == a
  {
    assert (b + c)[..|a|] == b[..|a|];
  }
}
