/** Two places where the earlier version's behaviour departs from what its
    own code and comments evidently intend, each shown on a concrete input
    next to the current version, which behaves as intended. */
module Findings {
  import opened Wrappers
  import opened Clock
  import opened ActivityLog
  import opened Session
  import opened Summary
  import opened Commands
  import opened Replies
  import Engine
  import OlderEngine

  function At(h: Hour, m: Sixty): TimeOfDaySeconds {
    TimeOfDay(Moment(1, h, m, 0))
  }

  /** Two finished shifts (09:00-12:00 and 13:00-15:00) and a third one
      started at 16:00. */
  function ThreeShifts(): Log {
    [ Entry(Work, At(9, 0), Some(At(12, 0))), Entry(SessionEnd, At(12, 0), Some(At(12, 0))),
      Entry(Work, At(13, 0), Some(At(15, 0))), Entry(SessionEnd, At(15, 0), Some(At(15, 0))),
      Entry(Work, At(16, 0), None) ]
  }

  /** The earlier version's comment asks for the most recent marker but
      `findIndex` returns the first: its Summary during the third shift
      still counts the second shift's two hours. */
  lemma FirstMarkerCountsEarlierShift()
    ensures var r := OlderEngine.Step(Some(ThreeShifts()), ShowSummary, Moment(1, 16, 30, 0)).reply.summary.value;
      r.Report? && r.work == Tally(7200, 1)
  {
    FirstMarkerSessionWork();
  }

  /** Cutting after the first marker leaves the second shift, its marker
      and the open third shift: one closed two-hour Work entry. */
  lemma FirstMarkerSessionWork()
    ensures TallyOf(CurrentSession(ThreeShifts(), AfterFirstMarker), Work) == Tally(7200, 1)
  {
    var log := ThreeShifts();
    assert StartAfterFirst(log) == 2;
    assert CurrentSession(log, AfterFirstMarker) == [log[2], log[3], log[4]];
    TallyOfThree(log[2], log[3], log[4], Work);
  }

  /** The current version cuts after the last marker: the third shift has
      no closed work yet. */
  lemma LastMarkerCountsOnlyCurrentShift()
    ensures var r := Engine.Step(ThreeShifts(), ShowSummary, Moment(1, 16, 30, 0)).reply.summary.value;
      r.Report? && r.work == Tally(0, 0)
  {
    var log := ThreeShifts();
    assert IsMarker(log[3]);
    assert StartAfterLast(log) == 4;
    assert CurrentSession(log, AfterLastMarker) == [log[4]];
    assert ClosedOf([log[4]], Work) == [];
  }

  /** The earlier Off Work summary re-reads the stored record, in which the
      shift is still open: a whole 09:00-17:00 shift reports no work. */
  lemma OlderOffWorkDropsEndedShift()
    ensures var r := OlderEngine.Step(Some([Entry(Work, At(9, 0), None)]), OffWork, Moment(1, 17, 0, 0)).reply.summary.value;
      r.Report? && r.work == Tally(0, 0) && r.total == 0
  {
    OnlyOpenWorkSummary([Entry(Work, At(9, 0), None)], AfterFirstMarker);
  }

  /** A log holding nothing but one open Work entry summarises to zero. */
  lemma OnlyOpenWorkSummary(log: Log, rule: Rule)
    requires |log| == 1 && log[0].cat == Work && IsOpen(log[0])
    ensures var r := BuildSummary(log, rule); r.Report? && r.work == Tally(0, 0) && r.total == 0
  {
    assert SessionStart(log, rule) == 0;
    assert CurrentSession(log, rule) == log;
    NothingClosedAllZero(log);
    EmptyTally(log, Work);
  }

  /** The current Off Work summary is built after the shift is closed and
      reports its eight hours. */
  lemma CurrentOffWorkCountsEndedShift()
    ensures var r := Engine.Step([Entry(Work, At(9, 0), None)], OffWork, Moment(1, 17, 0, 0)).reply.summary.value;
      r.Report? && r.work == Tally(28800, 1) && r.net == 28800
  {
    var log := [Entry(Work, At(9, 0), None)];
    var closed := [Entry(Work, At(9, 0), Some(At(17, 0)))];
    assert StopPrevious(log, At(17, 0)).log == closed;
    assert StartAfterLast(closed) == 0;
    assert CurrentSession(closed, AfterLastMarker) == closed;
    assert ClosedOf(closed, Work) == closed;
    assert SumLengths(closed) == 28800;
  }
}
