/** The per-user, per-day activity log and the three mutations the handlers
    make to it: close the open activity, open a new one, mark the end of a
    session. The log is append-only; the only in-place change is setting the
    `end` of the entry that has none. */
module ActivityLog {
  import opened Wrappers
  import opened Clock

  datatype Category = Work | Eat | Toilet | Smoke | SessionEnd

  /** One recorded interval; a `SessionEnd` marker has `end` equal to `start`. */
  datatype Entry = Entry(cat: Category, start: TimeOfDaySeconds, end: Option<TimeOfDaySeconds>)

  type Log = seq<Entry>

  predicate IsOpen(e: Entry) {
    e.end.None?
  }

  /** The state invariant: every entry but the last is closed, and every
      session marker is a zero-length closed entry. */
  predicate WellFormed(log: Log) {
    && (forall i :: 0 <= i < |log| - 1 ==> !IsOpen(log[i]))
    && (forall i :: 0 <= i < |log| && log[i].cat == SessionEnd ==> log[i].end == Some(log[i].start))
  }

  predicate NoneOpen(log: Log) {
    forall i :: 0 <= i < |log| ==> !IsOpen(log[i])
  }

  /** How many entries have no `end`. */
  function OpenCount(log: Log): nat {
    if log == [] then 0 else (if IsOpen(log[0]) then 1 else 0) + OpenCount(log[1..])
  }

  lemma {:induction false} OpenCountZero(log: Log)
    ensures OpenCount(log) == 0 <==> NoneOpen(log)
  {
    if log != [] {
      OpenCountZero(log[1..]);
      if NoneOpen(log[1..]) && !IsOpen(log[0]) {
        forall i | 0 <= i < |log| ensures !IsOpen(log[i]) {
          if i > 0 { assert log[i] == log[1..][i - 1]; }
        }
      }
    }
  }

  /** The invariant read as the source's own promise: at most one entry is
      open, and when one is, it is the last entry. */
  lemma {:induction false} WellFormedAtMostOneOpen(log: Log)
    requires WellFormed(log)
    ensures OpenCount(log) <= 1
    ensures OpenCount(log) == 1 ==> IsOpen(log[|log| - 1])
  {
    if log != [] {
      var init := log[..|log| - 1];
      assert log == init + [log[|log| - 1]];
      assert NoneOpen(init);
      OpenCountZero(init);
      OpenCountAppend(init, log[|log| - 1]);
    }
  }

  lemma {:induction false} OpenCountAppend(log: Log, e: Entry)
    ensures OpenCount(log + [e]) == OpenCount(log) + (if IsOpen(e) then 1 else 0)
  {
    if log == [] {
      assert [e][1..] == [];
    } else {
      assert (log + [e])[1..] == log[1..] + [e];
      OpenCountAppend(log[1..], e);
    }
  }

  /** The notice for the activity that a tap ended: its category and length. */
  datatype Closed = Closed(cat: Category, seconds: int)

  datatype Stopped = Stopped(log: Log, previous: Option<Closed>)

  /** The last entry is open and is an activity, so a new tap ends it. */
  predicate HasOpenActivity(log: Log) {
    |log| > 0 && IsOpen(log[|log| - 1]) && log[|log| - 1].cat != SessionEnd
  }

  /** `stopPrevious`: when the last entry exists, has no `end` and is not a
      session marker, set its `end` to `now` and report its category and
      length; otherwise report nothing and leave the log as it was. */
  function StopPrevious(log: Log, now: TimeOfDaySeconds): (r: Stopped)
    ensures r.previous.Some? <==> HasOpenActivity(log)
    ensures r.previous.None? ==> r.log == log
    ensures |r.log| == |log|
    ensures forall i :: 0 <= i < |log| - 1 ==> r.log[i] == log[i]
    ensures r.previous.Some? ==>
      var last := log[|log| - 1];
      && r.log[|log| - 1] == Entry(last.cat, last.start, Some(now))
      && r.previous.value.cat == last.cat
      && last.start + r.previous.value.seconds == now
    ensures WellFormed(log) ==> WellFormed(r.log) && NoneOpen(r.log)
  {
    if HasOpenActivity(log) then
      var last := log[|log| - 1];
      Stopped(log[..|log| - 1] + [last.(end := Some(now))],
              Some(Closed(last.cat, Elapsed(Some(last.start), Some(now)))))
    else
      Stopped(log, None)
  }

  /** Push `{category, start: now}` with no `end`. */
  function OpenNew(log: Log, c: Category, now: TimeOfDaySeconds): (r: Log)
    ensures |r| == |log| + 1 && r[..|log|] == log
    ensures IsOpen(r[|log|]) && r[|log|].cat == c && r[|log|].start == now
    ensures NoneOpen(log) && c != SessionEnd && WellFormed(log) ==> WellFormed(r)
  {
    log + [Entry(c, now, None)]
  }

  /** Push `{SessionEnd, start: now, end: now}`. It closes nothing itself. */
  function MarkSessionEnd(log: Log, now: TimeOfDaySeconds): (r: Log)
    ensures |r| == |log| + 1 && r[..|log|] == log
    ensures r[|log|].cat == SessionEnd && r[|log|].start == now && r[|log|].end == Some(now)
    ensures NoneOpen(log) && WellFormed(log) ==> WellFormed(r) && NoneOpen(r)
  {
    log + [Entry(SessionEnd, now, Some(now))]
  }

  /** `b` is `a` grown the only ways the engine grows a log: entries kept in
      place, an open entry possibly given an `end`, new entries appended. */
  predicate SameOrEnded(x: Entry, y: Entry) {
    y == x || (IsOpen(x) && !IsOpen(y) && y.cat == x.cat && y.start == x.start)
  }

  predicate Evolves(a: Log, b: Log) {
    |a| <= |b| && forall i :: 0 <= i < |a| ==> SameOrEnded(a[i], b[i])
  }

  lemma EvolvesTransitive(a: Log, b: Log, c: Log)
    requires Evolves(a, b) && Evolves(b, c)
    ensures Evolves(a, c)
  {
    forall i | 0 <= i < |a| ensures SameOrEnded(a[i], c[i]) {
      assert SameOrEnded(a[i], b[i]) && SameOrEnded(b[i], c[i]);
    }
  }

  lemma StopPreviousEvolves(log: Log, now: TimeOfDaySeconds)
    ensures Evolves(log, StopPrevious(log, now).log)
  {
  }

  /** Entries' categories never change, so closing an entry cannot move a
      session boundary. */
  function Categories(log: Log): (cs: seq<Category>)
    ensures |cs| == |log| && forall i :: 0 <= i < |log| ==> cs[i] == log[i].cat
  {
    if log == [] then [] else [log[0].cat] + Categories(log[1..])
  }

  lemma StopPreviousKeepsCategories(log: Log, now: TimeOfDaySeconds)
    ensures Categories(StopPrevious(log, now).log) == Categories(log)
  {
    var after := Categories(StopPrevious(log, now).log);
    var before := Categories(log);
    forall i | 0 <= i < |log|
      ensures after[i] == before[i]
    {
      assert StopPrevious(log, now).log[i].cat == log[i].cat;
    }
  }
}
