/** The current message handler (index.js): the transition table, the
    lateness check on Start Work, and the Off Work summary computed after the
    open activity is closed but before the session marker is pushed.
    Segmentation cuts after the last marker. */
module Engine {
  import opened Wrappers
  import opened Clock
  import opened ActivityLog
  import opened Session
  import opened Summary
  import opened Commands
  import opened Replies

  /** One recognised button applied to the day's log at moment `at`. */
  function Step(log: Log, cmd: Command, at: Moment): (o: Outcome)
    ensures o.Saved? && o.reply.cmd == cmd
    ensures o.reply.late <==> cmd == StartWork && IsLate(at)
    ensures cmd == ShowSummary ==>
      && o.log == log && o.reply.previous.None?
      && o.reply.summary == Some(BuildSummary(log, AfterLastMarker))
    ensures cmd != ShowSummary ==>
      var stopped := StopPrevious(log, TimeOfDay(at));
      && |o.log| == |log| + 1 && o.log[..|log|] == stopped.log
      && o.reply.previous == stopped.previous
    ensures Opens(cmd).Some? ==>
      o.log[|log|] == Entry(Opens(cmd).value, TimeOfDay(at), None) && o.reply.summary.None?
    ensures cmd == OffWork ==>
      && o.log[|log|] == Entry(SessionEnd, TimeOfDay(at), Some(TimeOfDay(at)))
      && o.reply.summary == Some(BuildSummary(o.log[..|log|], AfterLastMarker))
  {
    var now := TimeOfDay(at);
    match cmd
    case ShowSummary =>
      Saved(log, Reply(cmd, None, false, Some(BuildSummary(log, AfterLastMarker))))
    case OffWork =>
      var stopped := StopPrevious(log, now);
      var summary := BuildSummary(stopped.log, AfterLastMarker);
      Saved(MarkSessionEnd(stopped.log, now), Reply(cmd, stopped.previous, false, Some(summary)))
    case _ =>
      var stopped := StopPrevious(log, now);
      Saved(OpenNew(stopped.log, Opens(cmd).value, now),
            Reply(cmd, stopped.previous, cmd == StartWork && IsLate(at), None))
  }

  /** The `message` handler: load today's record (a fresh empty one when
      there is none), dispatch, save. Unrecognised text saves nothing. */
  function Handle(stored: Option<Log>, text: Option<string>, at: Moment): (o: Outcome)
    ensures o.Ignored? <==> Recognize(text).None?
    ensures o.Saved? ==> o == Step(stored.GetOr([]), Recognize(text).value, at)
  {
    match Recognize(text)
    case None => Ignored
    case Some(cmd) => Step(stored.GetOr([]), cmd, at)
  }

  /** Every handled message keeps the log's invariant, only grows it the
      append-only way, and adds exactly one entry unless it is Summary. */
  lemma HandlePreservesInvariant(stored: Option<Log>, text: Option<string>, at: Moment)
    requires stored.Some? ==> WellFormed(stored.value)
    ensures var o := Handle(stored, text, at);
      o.Saved? ==>
        && WellFormed(o.log)
        && Evolves(stored.GetOr([]), o.log)
        && |o.log| == |stored.GetOr([])| + (if o.reply.cmd == ShowSummary then 0 else 1)
  {
    var o := Handle(stored, text, at);
    if o.Saved? {
      var log := stored.GetOr([]);
      var cmd := Recognize(text).value;
      var now := TimeOfDay(at);
      StepPreservesInvariant(log, cmd, at);
    }
  }

  lemma StepPreservesInvariant(log: Log, cmd: Command, at: Moment)
    requires WellFormed(log)
    ensures var o := Step(log, cmd, at);
      && WellFormed(o.log) && Evolves(log, o.log)
      && |o.log| == |log| + (if cmd == ShowSummary then 0 else 1)
  {
    var o := Step(log, cmd, at);
    var now := TimeOfDay(at);
    if cmd != ShowSummary {
      var stopped := StopPrevious(log, now);
      assert NoneOpen(stopped.log);
      StopPreviousEvolves(log, now);
      assert o.log == stopped.log + [o.log[|log|]];
      assert Evolves(stopped.log, o.log);
      EvolvesTransitive(log, stopped.log, o.log);
    }
  }

  /** Any tap other than Summary first ends the open activity, reporting the
      category that was open and how long it ran, and stamps its `end`. */
  lemma TapClosesOpenActivity(log: Log, cmd: Command, at: Moment)
    requires cmd != ShowSummary && HasOpenActivity(log)
    ensures var o := Step(log, cmd, at);
      var last := log[|log| - 1];
      && o.reply.previous == Some(Closed(last.cat, TimeOfDay(at) - last.start))
      && o.log[|log| - 1] == Entry(last.cat, last.start, Some(TimeOfDay(at)))
  {
    var o := Step(log, cmd, at);
    var stopped := StopPrevious(log, TimeOfDay(at));
    assert o.log[..|log|] == stopped.log;
    assert o.log[|log| - 1] == o.log[..|log|][|log| - 1];
  }

  /** Off Work leaves nothing open and ends the log with a zero-length marker. */
  lemma OffWorkClosesAll(log: Log, at: Moment)
    requires WellFormed(log)
    ensures var o := Step(log, OffWork, at);
      && NoneOpen(o.log)
      && o.log[|o.log| - 1] == Entry(SessionEnd, TimeOfDay(at), Some(TimeOfDay(at)))
  {
  }

  /** The Off Work summary counts the activity this tap ends: its category
      gains that activity's length and one more closed entry, and the other
      categories are as a Summary tap just before would have shown them. */
  lemma OffWorkCountsEndedActivity(log: Log, at: Moment, c: Category)
    requires WellFormed(log) && HasOpenActivity(log) && c != SessionEnd
    ensures var last := log[|log| - 1];
      var before := Step(log, ShowSummary, at).reply.summary.value;
      var after := Step(log, OffWork, at).reply.summary.value;
      && before.Report? && after.Report?
      && TallyFor(after, c) ==
           if c == last.cat
           then Tally(TallyFor(before, c).seconds + (TimeOfDay(at) - last.start), TallyFor(before, c).count + 1)
           else TallyFor(before, c)
  {
    var now := TimeOfDay(at);
    StepSummaries(log, at);
    ClosingCountsInSession(log, now, c);
  }

  /** Which log each summary-showing button aggregates. */
  lemma StepSummaries(log: Log, at: Moment)
    ensures Step(log, ShowSummary, at).reply.summary == Some(BuildSummary(log, AfterLastMarker))
    ensures Step(log, OffWork, at).reply.summary == Some(BuildSummary(StopPrevious(log, TimeOfDay(at)).log, AfterLastMarker))
  {
  }

  /** Closing the open activity adds it to its category in the current
      session and changes no other category. */
  lemma ClosingCountsInSession(log: Log, now: TimeOfDaySeconds, c: Category)
    requires HasOpenActivity(log) && c != SessionEnd
    ensures var last := log[|log| - 1];
      var before := BuildSummary(log, AfterLastMarker);
      var after := BuildSummary(StopPrevious(log, now).log, AfterLastMarker);
      && before.Report? && after.Report?
      && TallyFor(after, c) ==
           if c == last.cat
           then Tally(TallyFor(before, c).seconds + (now - last.start), TallyFor(before, c).count + 1)
           else TallyFor(before, c)
  {
    var last := log[|log| - 1];
    var stopped := StopPrevious(log, now).log;
    var common := SessionBeforeLast(log, now);
    assert stopped[|log| - 1] == Entry(last.cat, last.start, Some(now));
    EndingLastTally(common, last, now, c);
    BuildSummaryTally(log, AfterLastMarker, c);
    BuildSummaryTally(stopped, AfterLastMarker, c);
    assert TallyFor(BuildSummary(log, AfterLastMarker), c) == TallyOf(common + [last], c);
    assert TallyFor(BuildSummary(stopped, AfterLastMarker), c) == TallyOf(common + [stopped[|log| - 1]], c);
  }

  /** Before and after the close, the current session is the same run of
      entries followed by the last entry, open before and ended after. */
  lemma SessionBeforeLast(log: Log, now: TimeOfDaySeconds) returns (common: Log)
    requires HasOpenActivity(log)
    ensures CurrentSession(log, AfterLastMarker) == common + [log[|log| - 1]]
    ensures CurrentSession(StopPrevious(log, now).log, AfterLastMarker) == common + [StopPrevious(log, now).log[|log| - 1]]
  {
    var stopped := StopPrevious(log, now).log;
    StopPreviousKeepsCategories(log, now);
    SessionStartByCategories(log, stopped, AfterLastMarker);
    LastEntryInSession(log, AfterLastMarker);
    var k := SessionStart(log, AfterLastMarker);
    var n := |log| - 1;
    common := log[k..n];
    SplitLast(log, k);
    SplitLast(stopped, k);
    StopPreviousKeepsPrefix(log, now);
    SameSlice(stopped, log, k, n);
  }

  /** A slice running to the end is the slice up to the last entry, then it. */
  lemma SplitLast(xs: Log, k: nat)
    requires k < |xs|
    ensures xs[k..] == xs[k..|xs| - 1] + [xs[|xs| - 1]]
  {
  }

  lemma SameSlice(xs: Log, ys: Log, k: nat, n: nat)
    requires k <= n <= |xs| && n <= |ys| && xs[..n] == ys[..n]
    ensures xs[k..n] == ys[k..n]
  {
    assert xs[k..n] == xs[..n][k..];
    assert ys[k..n] == ys[..n][k..];
  }

  /** Closing the open activity touches only the last entry. */
  lemma StopPreviousKeepsPrefix(log: Log, now: TimeOfDaySeconds)
    requires |log| > 0
    ensures StopPrevious(log, now).log[..|log| - 1] == log[..|log| - 1]
  {
    var stopped := StopPrevious(log, now).log;
    var n := |log| - 1;
    assert forall i :: 0 <= i < n ==> stopped[i] == log[i];
    assert stopped[..n] == log[..n];
  }

  /** The marker Off Work pushes is not counted anywhere: a Summary right
      after Off Work shows an empty session with zero totals. */
  lemma SummaryAfterOffWorkIsEmpty(log: Log, at: Moment, later: Moment)
    ensures var off := Step(log, OffWork, at);
      var r := Step(off.log, ShowSummary, later).reply.summary.value;
      r.Report? && r.total == 0 && r.net == 0 && ListedCategories(r) == []
  {
    var off := Step(log, OffWork, at).log;
    assert IsMarker(off[|off| - 1]);
    MarkerEndedSummaryIsZero(off);
    assert Step(off, ShowSummary, later).reply.summary.value == BuildSummary(off, AfterLastMarker);
  }

  lemma MarkerEndedSummaryIsZero(off: Log)
    requires |off| > 0 && IsMarker(off[|off| - 1])
    ensures var r := BuildSummary(off, AfterLastMarker);
      r.Report? && r.total == 0 && r.net == 0 && ListedCategories(r) == []
  {
    EndingMarkerEmptiesSession(off);
    EmptySessionZero();
    assert BuildSummary(off, AfterLastMarker) == Aggregate([]);
  }

  /** A day's messages through the current handler: a record is created
      only by a recognised button, and the stored log never shrinks. */
  function Run(stored: Option<Log>, events: seq<Event>): (r: Option<Log>)
    ensures r.None? ==> forall i :: 0 <= i < |events| ==> Recognize(events[i].text).None?
    ensures |r.GetOr([])| >= |stored.GetOr([])|
  {
    ReplayNeverShrinks(stored, events);
    Replay(Handle, stored, events)
  }

  lemma {:induction false} ReplayNeverShrinks(stored: Option<Log>, events: seq<Event>)
    ensures |Replay(Handle, stored, events).GetOr([])| >= |stored.GetOr([])|
    decreases |events|
  {
    if events != [] {
      var o := Handle(stored, events[0].text, events[0].at);
      if o.Ignored? {
        ReplayNeverShrinks(stored, events[1..]);
      } else {
        ReplayNeverShrinks(Some(o.log), events[1..]);
      }
    }
  }

  /** For every sequence of messages: at most one entry is open and it is the
      last one, markers have zero length, and earlier entries are never
      removed, reordered or changed beyond setting a missing `end`. */
  lemma {:induction false} RunPreservesInvariant(stored: Option<Log>, events: seq<Event>)
    requires stored.Some? ==> WellFormed(stored.value)
    ensures var r := Run(stored, events);
      (r.Some? ==> WellFormed(r.value)) && Evolves(stored.GetOr([]), r.GetOr([]))
    decreases |events|
  {
    if events != [] {
      var o := Handle(stored, events[0].text, events[0].at);
      HandlePreservesInvariant(stored, events[0].text, events[0].at);
      if o.Ignored? {
        RunPreservesInvariant(stored, events[1..]);
      } else {
        RunPreservesInvariant(Some(o.log), events[1..]);
        EvolvesTransitive(stored.GetOr([]), o.log, Run(Some(o.log), events[1..]).GetOr([]));
      }
    }
  }

  lemma RunAtMostOneOpen(events: seq<Event>)
    ensures var r := Run(None, events).GetOr([]);
      OpenCount(r) <= 1 && (OpenCount(r) == 1 ==> IsOpen(r[|r| - 1]))
  {
    RunPreservesInvariant(None, events);
    WellFormedAtMostOneOpen(Run(None, events).GetOr([]));
  }
}
