/** The earlier message handler (older/index.js). Its log mutations are
    those of the current handler; it differs in three ways: there is no
    lateness check, segmentation cuts after the FIRST session marker, and
    every summary is built by re-reading the stored record, so the Off Work
    summary sees the log as it was before this tap. */
module OlderEngine {
  import opened Wrappers
  import opened Clock
  import opened ActivityLog
  import opened Session
  import opened Summary
  import opened Commands
  import opened Replies
  import Engine

  /** One recognised button applied to the stored record at moment `at`.
      A missing record and an empty one both summarise as "no activity". */
  function Step(stored: Option<Log>, cmd: Command, at: Moment): (o: Outcome)
    ensures o.Saved? && o.reply.cmd == cmd && !o.reply.late
    ensures cmd == ShowSummary || cmd == OffWork ==>
      o.reply.summary == Some(BuildSummary(stored.GetOr([]), AfterFirstMarker))
    ensures Opens(cmd).Some? ==> o.reply.summary.None?
    ensures cmd == ShowSummary ==> o.log == stored.GetOr([])
    ensures cmd != ShowSummary ==> |o.log| == |stored.GetOr([])| + 1
  {
    var log := stored.GetOr([]);
    var now := TimeOfDay(at);
    var persisted := BuildSummary(log, AfterFirstMarker);
    match cmd
    case ShowSummary =>
      Saved(log, Reply(cmd, None, false, Some(persisted)))
    case OffWork =>
      var stopped := StopPrevious(log, now);
      Saved(MarkSessionEnd(stopped.log, now), Reply(cmd, stopped.previous, false, Some(persisted)))
    case _ =>
      var stopped := StopPrevious(log, now);
      Saved(OpenNew(stopped.log, Opens(cmd).value, now), Reply(cmd, stopped.previous, false, None))
  }

  function Handle(stored: Option<Log>, text: Option<string>, at: Moment): (o: Outcome)
    ensures o.Ignored? <==> Recognize(text).None?
    ensures o.Saved? ==> o == Step(stored, Recognize(text).value, at)
  {
    match Recognize(text)
    case None => Ignored
    case Some(cmd) => Step(stored, cmd, at)
  }

  /** Both versions drop the same messages and leave the same log behind,
      with the same notice for the ended activity; only the lateness flag
      and the summary can differ. */
  lemma SameLogAsCurrent(stored: Option<Log>, text: Option<string>, at: Moment)
    ensures var older := Handle(stored, text, at);
      var current := Engine.Handle(stored, text, at);
      && (older.Ignored? <==> current.Ignored?)
      && (older.Saved? ==>
            && older.log == current.log
            && older.reply.cmd == current.reply.cmd
            && older.reply.previous == current.reply.previous)
  {
  }

  /** No Start Work is ever flagged late in this version. */
  lemma NeverLate(stored: Option<Log>, text: Option<string>, at: Moment)
    ensures var o := Handle(stored, text, at); o.Saved? ==> !o.reply.late
  {
  }

  /** Off Work reports exactly what a Summary tap would have reported just
      before it: the activity this tap ends is left out. */
  lemma OffWorkSummaryIsPreEvent(stored: Option<Log>, at: Moment)
    ensures Step(stored, OffWork, at).reply.summary == Step(stored, ShowSummary, at).reply.summary
  {
  }

  /** With at most one session marker in the log, both versions show the
      same Summary. */
  lemma SummaryAgreesWithCurrent(stored: Option<Log>, at: Moment)
    requires MarkerCount(stored.GetOr([])) <= 1
    ensures Step(stored, ShowSummary, at).reply.summary == Engine.Step(stored.GetOr([]), ShowSummary, at).reply.summary
  {
    var log := stored.GetOr([]);
    RulesAgreeIffAtMostOneMarker(log);
    assert SessionStart(log, AfterFirstMarker) == SessionStart(log, AfterLastMarker);
  }

  /** Over any day of messages both versions store the same log, so the
      current version's invariant holds of the earlier one too. */
  lemma {:induction false} RunSameAsCurrent(stored: Option<Log>, events: seq<Event>)
    ensures Replay(Handle, stored, events) == Engine.Run(stored, events)
    decreases |events|
  {
    if events != [] {
      SameLogAsCurrent(stored, events[0].text, events[0].at);
      var o := Handle(stored, events[0].text, events[0].at);
      if o.Ignored? {
        RunSameAsCurrent(stored, events[1..]);
      } else {
        RunSameAsCurrent(Some(o.log), events[1..]);
      }
    }
  }

  lemma RunPreservesInvariant(events: seq<Event>)
    ensures Replay(Handle, None, events).Some? ==> WellFormed(Replay(Handle, None, events).value)
  {
    RunSameAsCurrent(None, events);
    Engine.RunPreservesInvariant(None, events);
  }
}
