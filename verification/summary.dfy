/** `buildSessionSummary` without its text: per-category totals and counts
    over the closed entries of the current session, the session total and
    the net working time. The rendered lines are reduced to which categories
    get a line. */
module Summary {
  import opened Wrappers
  import opened Clock
  import opened ActivityLog
  import opened Session

  /** A closed entry's length (`getDurationMinutes(a.start, a.end)`, in seconds). */
  function Length(e: Entry): int {
    Elapsed(Some(e.start), e.end)
  }

  predicate ClosedIn(e: Entry, c: Category) {
    e.cat == c && !IsOpen(e)
  }

  /** `filter(a => a.category === cat && a.end)`: closed entries of one category, in order. */
  function ClosedOf(s: Log, c: Category): (r: Log)
    ensures |r| <= |s|
  {
    if s == [] then []
    else (if ClosedIn(s[0], c) then [s[0]] else []) + ClosedOf(s[1..], c)
  }

  /** `reduce((sum, a) => sum + duration, 0)`. */
  function SumLengths(s: Log): (total: int)
    ensures (forall i :: 0 <= i < |s| ==> Length(s[i]) >= 0) ==> total >= 0
  {
    if s == [] then 0 else Length(s[0]) + SumLengths(s[1..])
  }

  /** A category's line: total seconds and number of closed entries. */
  datatype Tally = Tally(seconds: int, count: nat)

  function TallyOf(s: Log, c: Category): (t: Tally)
    ensures t.count <= |s|
    ensures t.count == 0 ==> t.seconds == 0
  {
    var closed := ClosedOf(s, c);
    Tally(SumLengths(closed), |closed|)
  }

  lemma {:induction false} ClosedOfAppend(s: Log, e: Entry, c: Category)
    ensures ClosedOf(s + [e], c) == ClosedOf(s, c) + (if ClosedIn(e, c) then [e] else [])
  {
    if s == [] {
      assert [e][1..] == [];
    } else {
      var head := if ClosedIn(s[0], c) then [s[0]] else [];
      assert (s + [e])[0] == s[0];
      assert (s + [e])[1..] == s[1..] + [e];
      ClosedOfAppend(s[1..], e, c);
      assert ClosedOf(s + [e], c) == head + ClosedOf(s[1..] + [e], c);
      assert ClosedOf(s, c) == head + ClosedOf(s[1..], c);
    }
  }

  lemma {:induction false} SumLengthsAppend(s: Log, e: Entry)
    ensures SumLengths(s + [e]) == SumLengths(s) + Length(e)
  {
    if s == [] {
      assert [e][1..] == [];
    } else {
      assert (s + [e])[0] == s[0];
      assert (s + [e])[1..] == s[1..] + [e];
      SumLengthsAppend(s[1..], e);
    }
  }

  /** A category's line after one more entry: a closed entry of the
      category adds its length and one; anything else leaves it as it was. */
  function TallyStep(t: Tally, e: Entry, c: Category): Tally {
    if ClosedIn(e, c) then Tally(t.seconds + Length(e), t.count + 1) else t
  }

  /** One more entry changes a category's tally only when it is a closed
      entry of that category, and then by its length and by one. An open
      entry contributes nothing. */
  lemma TallyAppend(s: Log, e: Entry, c: Category)
    ensures TallyOf(s + [e], c) == TallyStep(TallyOf(s, c), e, c)
  {
    ClosedOfAppend(s, e, c);
    if ClosedIn(e, c) {
      SumLengthsAppend(ClosedOf(s, c), e);
    } else {
      assert ClosedOf(s + [e], c) == ClosedOf(s, c);
    }
  }

  /** Ending the last, open entry of a log at `now` adds its length and one
      to its own category's line and leaves every other line alone. */
  lemma EndingLastTally(common: Log, e: Entry, now: TimeOfDaySeconds, c: Category)
    requires IsOpen(e)
    ensures TallyOf(common + [Entry(e.cat, e.start, Some(now))], c) ==
      if c == e.cat then Tally(TallyOf(common + [e], c).seconds + (now - e.start), TallyOf(common + [e], c).count + 1)
      else TallyOf(common + [e], c)
  {
    TallyAppend(common, e, c);
    TallyAppend(common, Entry(e.cat, e.start, Some(now)), c);
  }

  /** A three-entry log's line, entry by entry. */
  lemma TallyOfThree(a: Entry, b: Entry, d: Entry, c: Category)
    ensures TallyOf([a, b, d], c) == TallyStep(TallyStep(TallyStep(Tally(0, 0), a, c), b, c), d, c)
  {
    assert TallyOf([], c) == Tally(0, 0);
    assert [] + [a] == [a] && [a] + [b] == [a, b] && [a, b] + [d] == [a, b, d];
    TallyAppend([], a, c);
    TallyAppend([a], b, c);
    TallyAppend([a, b], d, c);
  }

  /** The filter-then-reduce pass for one category, as a loop. */
  method TallyCategory(s: Log, c: Category) returns (t: Tally)
    ensures t == TallyOf(s, c)
    ensures t.count == 0 ==> t.seconds == 0
  {
    t := Tally(0, 0);
    var i := 0;
    while i < |s|
      invariant 0 <= i <= |s|
      invariant t == TallyOf(s[..i], c)
    {
      assert s[..i + 1] == s[..i] + [s[i]];
      TallyAppend(s[..i], s[i], c);
      if ClosedIn(s[i], c) {
        t := Tally(t.seconds + Length(s[i]), t.count + 1);
      }
      i := i + 1;
    }
    assert s[..i] == s;
    EmptyTally(s, c);
  }

  /** The filter keeps exactly the closed entries of the category. */
  lemma {:induction false} ClosedOfMembers(s: Log, c: Category)
    ensures forall e :: e in ClosedOf(s, c) <==> e in s && ClosedIn(e, c)
  {
    if s != [] {
      ClosedOfMembers(s[1..], c);
      assert s == [s[0]] + s[1..];
    }
  }

  /** No closed entry of a category means a zero line for it. */
  lemma EmptyTally(s: Log, c: Category)
    ensures TallyOf(s, c).count == 0 <==> (forall e :: e in s ==> !ClosedIn(e, c))
    ensures TallyOf(s, c).count == 0 ==> TallyOf(s, c).seconds == 0
  {
    var closed := ClosedOf(s, c);
    ClosedOfMembers(s, c);
    if |closed| > 0 {
      assert closed[0] in closed;
    }
  }

  datatype Report =
    | NoActivity
    | Report(work: Tally, eat: Tally, toilet: Tally, smoke: Tally, total: int, net: int)

  /** The totals of one session. The session total adds the four categories;
      net working time subtracts the three break categories back out of it,
      which leaves the Work total. */
  function Aggregate(session: Log): (r: Report)
    ensures r.Report?
    ensures r.work == TallyOf(session, Work) && r.eat == TallyOf(session, Eat)
    ensures r.toilet == TallyOf(session, Toilet) && r.smoke == TallyOf(session, Smoke)
    ensures r.total == r.work.seconds + r.eat.seconds + r.toilet.seconds + r.smoke.seconds
    ensures r.net == r.work.seconds
  {
    var work := TallyOf(session, Work);
    var eat := TallyOf(session, Eat);
    var toilet := TallyOf(session, Toilet);
    var smoke := TallyOf(session, Smoke);
    var total := work.seconds + eat.seconds + toilet.seconds + smoke.seconds;
    var breaks := eat.seconds + toilet.seconds + smoke.seconds;
    Report(work, eat, toilet, smoke, total, total - breaks)
  }

  /** One category's line of a report (markers have none). */
  function TallyFor(r: Report, c: Category): Tally
    requires r.Report?
  {
    match c
    case Work => r.work
    case Eat => r.eat
    case Toilet => r.toilet
    case Smoke => r.smoke
    case SessionEnd => Tally(0, 0)
  }

  /** `buildSessionSummary(record)`: the fixed "no activity" answer for an
      empty log, otherwise the totals of the session the rule selects. */
  function BuildSummary(log: Log, rule: Rule): (r: Report)
    ensures r.NoActivity? <==> |log| == 0
    ensures r.Report? ==> r == Aggregate(CurrentSession(log, rule))
  {
    if |log| == 0 then NoActivity else Aggregate(CurrentSession(log, rule))
  }

  /** A category's line in a non-empty log's summary is its tally over the
      selected session. */
  lemma BuildSummaryTally(log: Log, rule: Rule, c: Category)
    requires |log| > 0 && c != SessionEnd
    ensures BuildSummary(log, rule).Report?
    ensures TallyFor(BuildSummary(log, rule), c) == TallyOf(CurrentSession(log, rule), c)
  {
  }

  /** An empty session gives all-zero totals and no category lines. */
  lemma EmptySessionZero()
    ensures var r := Aggregate([]); r.total == 0 && r.net == 0 && ListedCategories(r) == []
  {
    NothingClosedAllZero([]);
  }

  /** A category gets a line when its total or its count is positive. */
  predicate Listed(t: Tally) {
    t.seconds > 0 || t.count > 0
  }

  /** Position of a category's line in the summary: Work, Eat, Toilet, Smoke. */
  function LineRank(c: Category): nat {
    match c
    case Work => 0
    case Eat => 1
    case Toilet => 2
    case Smoke => 3
    case SessionEnd => 4
  }

  /** The categories that get a line, in the fixed order Work, Eat, Toilet,
      Smoke. When none does, the summary shows its "no records" line. */
  function ListedCategories(r: Report): (cs: seq<Category>)
    requires r.Report?
    ensures Work in cs <==> Listed(r.work)
    ensures Eat in cs <==> Listed(r.eat)
    ensures Toilet in cs <==> Listed(r.toilet)
    ensures Smoke in cs <==> Listed(r.smoke)
    ensures SessionEnd !in cs
    ensures forall i, j :: 0 <= i < j < |cs| ==> LineRank(cs[i]) < LineRank(cs[j])
  {
    (if Listed(r.work) then [Work] else [])
    + (if Listed(r.eat) then [Eat] else [])
    + (if Listed(r.toilet) then [Toilet] else [])
    + (if Listed(r.smoke) then [Smoke] else [])
  }

  /** A category is listed exactly when the session holds a closed entry of it. */
  lemma ListedIffClosedEntry(session: Log, c: Category)
    ensures Listed(TallyOf(session, c)) <==> exists e :: e in session && ClosedIn(e, c)
  {
    EmptyTally(session, c);
  }

  /** A session without closed activity gives all-zero totals and no lines. */
  lemma NothingClosedAllZero(session: Log)
    requires forall e :: e in session ==> IsOpen(e) || e.cat == SessionEnd
    ensures var r := Aggregate(session); r.total == 0 && r.net == 0 && ListedCategories(r) == []
  {
    EmptyTally(session, Work);
    EmptyTally(session, Eat);
    EmptyTally(session, Toilet);
    EmptyTally(session, Smoke);
  }

  /** All closed entries of any category, in order. */
  function ClosedEntries(s: Log): Log
  {
    if s == [] then []
    else (if !IsOpen(s[0]) then [s[0]] else []) + ClosedEntries(s[1..])
  }

  lemma {:induction false} ClosedEntriesAppend(s: Log, e: Entry)
    ensures ClosedEntries(s + [e]) == ClosedEntries(s) + (if !IsOpen(e) then [e] else [])
  {
    if s == [] {
      assert [e][1..] == [];
    } else {
      var head := if !IsOpen(s[0]) then [s[0]] else [];
      assert (s + [e])[0] == s[0];
      assert (s + [e])[1..] == s[1..] + [e];
      ClosedEntriesAppend(s[1..], e);
      assert ClosedEntries(s + [e]) == head + ClosedEntries(s[1..] + [e]);
      assert ClosedEntries(s) == head + ClosedEntries(s[1..]);
    }
  }

  /** The four categories' totals added up. */
  function CategoriesTotal(s: Log): int {
    TallyOf(s, Work).seconds + TallyOf(s, Eat).seconds
    + TallyOf(s, Toilet).seconds + TallyOf(s, Smoke).seconds
  }

  lemma CategoriesTotalAppend(s: Log, e: Entry)
    ensures CategoriesTotal(s + [e]) ==
      CategoriesTotal(s) + (if !IsOpen(e) && e.cat != SessionEnd then Length(e) else 0)
  {
    TallyAppend(s, e, Work);
    TallyAppend(s, e, Eat);
    TallyAppend(s, e, Toilet);
    TallyAppend(s, e, Smoke);
  }

  /** The session total is the summed length of every closed entry in the
      session, provided every marker in it has zero length (as the engine
      writes them). */
  lemma TotalIsAllClosedTime(s: Log)
    requires forall i :: 0 <= i < |s| && s[i].cat == SessionEnd ==> s[i].end == Some(s[i].start)
    ensures Aggregate(s).total == SumLengths(ClosedEntries(s))
  {
    CategoriesTotalIsClosedTime(s);
  }

  lemma {:induction false} CategoriesTotalIsClosedTime(s: Log)
    requires forall i :: 0 <= i < |s| && s[i].cat == SessionEnd ==> s[i].end == Some(s[i].start)
    ensures CategoriesTotal(s) == SumLengths(ClosedEntries(s))
    decreases |s|
  {
    if s != [] {
      var init := s[..|s| - 1];
      var e := s[|s| - 1];
      assert s == init + [e];
      assert forall i :: 0 <= i < |init| ==> init[i] == s[i];
      CategoriesTotalIsClosedTime(init);
      ClosedTimeStep(init, e);
    }
  }

  lemma ClosedTimeStep(init: Log, e: Entry)
    requires CategoriesTotal(init) == SumLengths(ClosedEntries(init))
    requires e.cat == SessionEnd ==> e.end == Some(e.start)
    ensures CategoriesTotal(init + [e]) == SumLengths(ClosedEntries(init + [e]))
  {
    CategoriesTotalAppend(init, e);
    ClosedEntriesAppend(init, e);
    if !IsOpen(e) {
      SumLengthsAppend(ClosedEntries(init), e);
      assert SumLengths(ClosedEntries(init + [e])) == SumLengths(ClosedEntries(init)) + Length(e);
      if e.cat == SessionEnd {
        assert Length(e) == 0;
        assert CategoriesTotal(init + [e]) == CategoriesTotal(init);
      } else {
        assert CategoriesTotal(init + [e]) == CategoriesTotal(init) + Length(e);
      }
    } else {
      assert ClosedEntries(init + [e]) == ClosedEntries(init);
    }
  }
}
