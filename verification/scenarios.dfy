/** Worked examples: a full Monday shift through the current handler, the
    lateness boundaries, and sample renderings of durations. */
module Scenarios {
  import opened Wrappers
  import opened Clock
  import opened ActivityLog
  import opened Summary
  import opened Commands
  import opened Replies
  import opened DurationFormat
  import Engine

  /** Start Work 09:00, Eat 09:30, Back to Seat 09:40 on a Monday: no
      lateness, each tap ends the previous activity and opens the next. */
  lemma MondayMorning()
    ensures var s1 := Engine.Step([], StartWork, Moment(1, 9, 0, 0));
      var s2 := Engine.Step(s1.log, GoEat, Moment(1, 9, 30, 0));
      var s3 := Engine.Step(s2.log, BackToSeat, Moment(1, 9, 40, 0));
      && !s1.reply.late && s1.reply.previous.None? && s1.log == [Entry(Work, 32400, None)]
      && s2.reply.previous == Some(Closed(Work, 1800))
      && s2.log == [Entry(Work, 32400, Some(34200)), Entry(Eat, 34200, None)]
      && s3.reply.previous == Some(Closed(Eat, 600))
      && s3.log == MorningLog()
  {
    NineOClock();
    HalfPastNine();
    TwentyToTen();
  }

  lemma NineOClock()
    ensures var s1 := Engine.Step([], StartWork, Moment(1, 9, 0, 0));
      !s1.reply.late && s1.reply.previous.None? && s1.log == [Entry(Work, 32400, None)]
  {
    assert TimeOfDay(Moment(1, 9, 0, 0)) == 32400;
    assert StopPrevious([], 32400).log == [];
  }

  lemma HalfPastNine()
    ensures var s2 := Engine.Step([Entry(Work, 32400, None)], GoEat, Moment(1, 9, 30, 0));
      && s2.reply.previous == Some(Closed(Work, 1800))
      && s2.log == [Entry(Work, 32400, Some(34200)), Entry(Eat, 34200, None)]
  {
    var log := [Entry(Work, 32400, None)];
    assert TimeOfDay(Moment(1, 9, 30, 0)) == 34200;
    var stopped := StopPrevious(log, 34200);
    assert stopped.log == [Entry(Work, 32400, Some(34200))];
    assert stopped.previous == Some(Closed(Work, 1800));
  }

  lemma TwentyToTen()
    ensures var s3 := Engine.Step([Entry(Work, 32400, Some(34200)), Entry(Eat, 34200, None)], BackToSeat, Moment(1, 9, 40, 0));
      && s3.reply.previous == Some(Closed(Eat, 600))
      && s3.log == MorningLog()
  {
    var log := [Entry(Work, 32400, Some(34200)), Entry(Eat, 34200, None)];
    assert TimeOfDay(Moment(1, 9, 40, 0)) == 34800;
    var stopped := StopPrevious(log, 34800);
    assert stopped.log == [Entry(Work, 32400, Some(34200)), Entry(Eat, 34200, Some(34800))];
    assert stopped.previous == Some(Closed(Eat, 600));
  }

  function MorningLog(): Log {
    [Entry(Work, 32400, Some(34200)), Entry(Eat, 34200, Some(34800)), Entry(Work, 34800, None)]
  }

  /** Off Work at 17:40 after that morning: the Off Work summary shows 8h30m
      of work in two stretches, one 10-minute meal, and net working time
      equal to the work total. */
  lemma MondayOffWork()
    ensures var s4 := Engine.Step(MorningLog(), OffWork, Moment(1, 17, 40, 0));
      var r := s4.reply.summary.value;
      && s4.reply.previous == Some(Closed(Work, 28800))
      && r.Report? && r.work == Tally(30600, 2) && r.eat == Tally(600, 1)
      && r.toilet == Tally(0, 0) && r.smoke == Tally(0, 0)
      && r.total == 31200 && r.net == 30600
  {
    var at := Moment(1, 17, 40, 0);
    assert TimeOfDay(at) == 63600;
    var closed := EveningLog();
    assert StopPrevious(MorningLog(), 63600).log == closed;
    Engine.StepSummaries(MorningLog(), at);
    MondayTotals();
  }

  /** The morning with the last Work stretch ended at 17:40. */
  function EveningLog(): Log {
    [Entry(Work, 32400, Some(34200)), Entry(Eat, 34200, Some(34800)), Entry(Work, 34800, Some(63600))]
  }

  lemma MondayTotals()
    ensures var r := BuildSummary(EveningLog(), Session.AfterLastMarker);
      && r.Report? && r.work == Tally(30600, 2) && r.eat == Tally(600, 1)
      && r.toilet == Tally(0, 0) && r.smoke == Tally(0, 0)
      && r.total == 31200 && r.net == 30600
  {
    var closed := EveningLog();
    assert Session.StartAfterLast(closed) == 0;
    assert Session.CurrentSession(closed, Session.AfterLastMarker) == closed;
    EveningTally(Work);
    EveningTally(Eat);
    EveningTally(Toilet);
    EveningTally(Smoke);
  }

  /** Each category's line over the evening log, entry by entry. */
  lemma EveningTally(c: Category)
    ensures TallyOf(EveningLog(), c) ==
      match c
      case Work => Tally(30600, 2)
      case Eat => Tally(600, 1)
      case _ => Tally(0, 0)
  {
    var closed := EveningLog();
    TallyOfThree(closed[0], closed[1], closed[2], c);
  }

  /** 11:00:00 on a Monday is on time, 11:00:01 is late; on Sunday the line
      is 14:00:00. */
  lemma LatenessBoundaries()
    ensures !IsLate(Moment(1, 11, 0, 0)) && IsLate(Moment(1, 11, 0, 1)) && IsLate(Moment(1, 11, 1, 0))
    ensures !IsLate(Moment(0, 14, 0, 0)) && IsLate(Moment(0, 14, 0, 1)) && !IsLate(Moment(0, 12, 0, 0))
    ensures !IsLate(Moment(6, 10, 59, 59)) && IsLate(Moment(6, 12, 0, 0))
  {
  }

  /** No time renders as "0秒" and half a minute as "30秒". */
  lemma SecondsOnlyRenderings()
    ensures FormatDuration(0) == "0秒"
    ensures FormatDuration(30) == "30秒"
  {
    SecondsOnlyUnits();
    assert NatToString(30) == "30";
  }

  lemma SecondsOnlyUnits()
    ensures Units(0) == [SecondsUnit(0)]
    ensures Units(30) == [SecondsUnit(30)]
  {
    assert Decompose(0) == Parts(0, 0, 0);
    assert TruncRem(30, 3600) == 30 && TruncRem(30, 60) == 30;
    assert Decompose(30) == Parts(0, 0, 30);
  }

  /** 61.5 minutes renders as "1小时1分30秒". */
  lemma HourMinuteSecondRendering()
    ensures FormatDuration(3690) == "1小时1分30秒"
  {
    HourMinuteSecondUnits();
    JoinThree(HoursUnit(1), MinutesUnit(1), SecondsUnit(30));
    HourMinuteSecondPieces();
  }

  lemma HourMinuteSecondUnits()
    ensures Units(3690) == [HoursUnit(1), MinutesUnit(1), SecondsUnit(30)]
  {
    assert TruncRem(3690, 3600) == 90 && TruncRem(3690, 60) == 30;
    assert Decompose(3690) == Parts(1, 1, 30);
  }

  lemma HourMinuteSecondPieces()
    ensures RenderUnit(HoursUnit(1)) == "1小时"
    ensures RenderUnit(MinutesUnit(1)) == "1分"
    ensures RenderUnit(SecondsUnit(30)) == "30秒"
  {
    assert NatToString(30) == "30";
  }

  /** The Monday shift's work total renders as "8小时30分0秒". */
  lemma ShiftRendering()
    ensures FormatDuration(30600) == "8小时30分0秒"
  {
    ShiftUnits();
    JoinThree(HoursUnit(8), MinutesUnit(30), SecondsUnit(0));
    ShiftPieces();
  }

  /** Three pieces join in order. */
  lemma JoinThree(a: Unit, b: Unit, c: Unit)
    ensures Join([a, b, c]) == RenderUnit(a) + RenderUnit(b) + RenderUnit(c)
  {
    var u := [a, b, c];
    assert u[1..] == [b, c] && [b, c][1..] == [c] && [c][1..] == [];
    assert Join([c]) == RenderUnit(c) + Join([]) == RenderUnit(c);
    assert Join([b, c]) == RenderUnit(b) + RenderUnit(c);
    assert Join(u) == RenderUnit(a) + (RenderUnit(b) + RenderUnit(c));
  }

  lemma ShiftUnits()
    ensures Units(30600) == [HoursUnit(8), MinutesUnit(30), SecondsUnit(0)]
  {
    assert TruncRem(30600, 3600) == 1800 && TruncRem(30600, 60) == 0;
    assert Decompose(30600) == Parts(8, 30, 0);
  }

  lemma ShiftPieces()
    ensures RenderUnit(HoursUnit(8)) == "8小时"
    ensures RenderUnit(MinutesUnit(30)) == "30分"
    ensures RenderUnit(SecondsUnit(0)) == "0秒"
  {
    assert NatToString(30) == "30";
  }

  /** A minute and a half backwards (an end time before its start) renders
      as "-30秒": only the truncated seconds survive. */
  lemma NegativeRendering()
    ensures FormatDuration(-90) == "-30秒"
  {
    NegativeShowsOnlySeconds(-90);
    assert TruncRem(-90, 60) == -30;
    assert NatToString(30) == "30";
    assert Join([SecondsUnit(-30)]) == "-30秒";
  }
}
