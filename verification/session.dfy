/** Session segmentation: the current session is the run of entries after a
    `SessionEnd` marker. The current engine cuts after the LAST marker (a
    backward scan); the earlier version cuts after the FIRST one
    (`findIndex`). Both cut nowhere when the log holds no marker. */
module Session {
  import opened ActivityLog

  datatype Rule = AfterLastMarker | AfterFirstMarker

  predicate IsMarker(e: Entry) {
    e.cat == SessionEnd
  }

  /** Where the session starts under the current rule: one past the last
      marker, or 0 when there is none. Nothing after it is a marker. */
  function StartAfterLast(log: Log): (k: nat)
    ensures k <= |log|
    ensures k > 0 ==> IsMarker(log[k - 1])
    ensures forall i :: k <= i < |log| ==> !IsMarker(log[i])
    decreases |log|
  {
    if log == [] then 0
    else if IsMarker(log[|log| - 1]) then |log|
    else StartAfterLast(log[..|log| - 1])
  }

  /** Where the session starts under the earlier rule: one past the first
      marker, or 0 when there is none. Nothing before that marker is one. */
  function StartAfterFirst(log: Log): (k: nat)
    ensures k <= |log|
    ensures k == 0 ==> forall i :: 0 <= i < |log| ==> !IsMarker(log[i])
    ensures k > 0 ==> IsMarker(log[k - 1]) && forall i :: 0 <= i < k - 1 ==> !IsMarker(log[i])
  {
    if log == [] then 0
    else if IsMarker(log[0]) then 1
    else
      var k := StartAfterFirst(log[1..]);
      if k == 0 then 0 else k + 1
  }

  function SessionStart(log: Log, rule: Rule): (k: nat)
    ensures k <= |log|
  {
    match rule
    case AfterLastMarker => StartAfterLast(log)
    case AfterFirstMarker => StartAfterFirst(log)
  }

  /** The slice of the log the summary is computed over. */
  function CurrentSession(log: Log, rule: Rule): (s: Log)
    ensures s == log[SessionStart(log, rule)..]
    ensures rule == AfterLastMarker ==> forall i :: 0 <= i < |s| ==> !IsMarker(s[i])
  {
    log[SessionStart(log, rule)..]
  }

  /** A log that ends with a marker has an empty current session. */
  lemma EndingMarkerEmptiesSession(log: Log)
    requires |log| > 0 && IsMarker(log[|log| - 1])
    ensures CurrentSession(log, AfterLastMarker) == []
  {
    assert StartAfterLast(log) == |log|;
  }

  /** A log that does not end with a marker has its last entry in the
      current session, under either rule. */
  lemma LastEntryInSession(log: Log, rule: Rule)
    requires |log| > 0 && !IsMarker(log[|log| - 1])
    ensures SessionStart(log, rule) < |log|
  {
  }

  /** The backward scan of `buildSessionSummary`: walk from the end, stop at
      the first marker met, start one past it (or at 0 if none is met). */
  method FindSessionStart(log: Log) returns (k: nat)
    ensures k <= |log|
    ensures k > 0 ==> IsMarker(log[k - 1])
    ensures forall i :: k <= i < |log| ==> !IsMarker(log[i])
    ensures k == StartAfterLast(log)
  {
    var index := -1;
    var i := |log| - 1;
    while i >= 0
      invariant -1 <= i < |log|
      invariant forall j :: i < j < |log| ==> !IsMarker(log[j])
      decreases i
    {
      if IsMarker(log[i]) {
        index := i;
        break;
      }
      i := i - 1;
    }
    k := if index == -1 then 0 else index + 1;
    LastMarkerUnique(log, k);
  }

  /** The earlier version's `findIndex`: walk from the front, start one past
      the first marker met (or at 0 if none is met). */
  method FindFirstSessionStart(log: Log) returns (k: nat)
    ensures k <= |log|
    ensures k == 0 ==> forall i :: 0 <= i < |log| ==> !IsMarker(log[i])
    ensures k > 0 ==> IsMarker(log[k - 1]) && forall i :: 0 <= i < k - 1 ==> !IsMarker(log[i])
    ensures k == StartAfterFirst(log)
  {
    var index := -1;
    var i := 0;
    while i < |log|
      invariant 0 <= i <= |log|
      invariant forall j :: 0 <= j < i ==> !IsMarker(log[j])
    {
      if IsMarker(log[i]) {
        index := i;
        break;
      }
      i := i + 1;
    }
    k := if index == -1 then 0 else index + 1;
    FirstMarkerUnique(log, k);
  }

  /** The characterisation of StartAfterLast has one solution only. */
  lemma LastMarkerUnique(log: Log, k: nat)
    requires k <= |log|
    requires k > 0 ==> IsMarker(log[k - 1])
    requires forall i :: k <= i < |log| ==> !IsMarker(log[i])
    ensures k == StartAfterLast(log)
  {
  }

  lemma FirstMarkerUnique(log: Log, k: nat)
    requires k <= |log|
    requires k == 0 ==> forall i :: 0 <= i < |log| ==> !IsMarker(log[i])
    requires k > 0 ==> IsMarker(log[k - 1]) && forall i :: 0 <= i < k - 1 ==> !IsMarker(log[i])
    ensures k == StartAfterFirst(log)
  {
  }

  /** How many session markers the log holds. */
  function MarkerCount(log: Log): nat
    decreases |log|
  {
    if log == [] then 0
    else MarkerCount(log[..|log| - 1]) + (if IsMarker(log[|log| - 1]) then 1 else 0)
  }

  lemma {:induction false} MarkerCountSplit(a: Log, b: Log)
    ensures MarkerCount(a + b) == MarkerCount(a) + MarkerCount(b)
    decreases |b|
  {
    if b == [] {
      assert a + b == a;
    } else {
      var b' := b[..|b| - 1];
      assert (a + b)[..|a + b| - 1] == a + b';
      MarkerCountSplit(a, b');
    }
  }

  lemma {:induction false} NoMarkerCountZero(log: Log)
    requires forall i :: 0 <= i < |log| ==> !IsMarker(log[i])
    ensures MarkerCount(log) == 0
    decreases |log|
  {
    if log != [] {
      NoMarkerCountZero(log[..|log| - 1]);
    }
  }

  /** Marker at `p` splits the count into before, itself, and after. */
  lemma MarkerCountAround(log: Log, p: nat)
    requires p < |log| && IsMarker(log[p])
    ensures MarkerCount(log) == MarkerCount(log[..p]) + 1 + MarkerCount(log[p + 1..])
  {
    assert log == log[..p] + ([log[p]] + log[p + 1..]);
    MarkerCountSplit(log[..p], [log[p]] + log[p + 1..]);
    MarkerCountSplit([log[p]], log[p + 1..]);
    assert [log[p]][..0] == [];
  }

  /** The two rules pick the same session exactly when the log holds at most
      one marker; with two or more, the earlier rule's session reaches back
      over every later session. */
  lemma RulesAgreeIffAtMostOneMarker(log: Log)
    ensures StartAfterFirst(log) == StartAfterLast(log) <==> MarkerCount(log) <= 1
  {
    if StartAfterFirst(log) == StartAfterLast(log) {
      AgreeingRulesOneMarker(log);
    } else {
      DisagreeingRulesTwoMarkers(log);
    }
  }

  lemma AgreeingRulesOneMarker(log: Log)
    requires StartAfterFirst(log) == StartAfterLast(log)
    ensures MarkerCount(log) <= 1
  {
    var k := StartAfterFirst(log);
    if k == 0 {
      NoMarkerCountZero(log);
    } else {
      var p := k - 1;
      MarkerCountAround(log, p);
      var before := log[..p];
      forall i | 0 <= i < |before|
        ensures !IsMarker(before[i])
      {
        assert before[i] == log[i];
      }
      NoMarkerCountZero(before);
      var after := log[p + 1..];
      forall i | 0 <= i < |after|
        ensures !IsMarker(after[i])
      {
        assert after[i] == log[k + i];
      }
      NoMarkerCountZero(after);
    }
  }

  lemma DisagreeingRulesTwoMarkers(log: Log)
    requires StartAfterFirst(log) != StartAfterLast(log)
    ensures MarkerCount(log) >= 2
  {
    var f := StartAfterFirst(log);
    var l := StartAfterLast(log);
    FirstBeforeLast(log);
    assert f < l;
    assert IsMarker(log[l - 1]);
    assert f > 0;
    MarkerCountAround(log, l - 1);
    var before := log[..l - 1];
    assert before[f - 1] == log[f - 1];
    MarkerCountAround(before, f - 1);
    assert MarkerCount(before) >= 1;
  }

  /** The earlier rule's session always contains the current rule's session. */
  lemma FirstBeforeLast(log: Log)
    ensures StartAfterFirst(log) <= StartAfterLast(log)
  {
  }

  /** Closing an entry moves no boundary: segmentation reads categories only. */
  lemma {:induction false} SessionStartByCategories(a: Log, b: Log, rule: Rule)
    requires Categories(a) == Categories(b)
    ensures SessionStart(a, rule) == SessionStart(b, rule)
  {
    assert |a| == |b|;
    assert forall i :: 0 <= i < |a| ==> (IsMarker(a[i]) <==> IsMarker(b[i])) by {
      forall i | 0 <= i < |a| ensures IsMarker(a[i]) <==> IsMarker(b[i]) {
        assert Categories(a)[i] == Categories(b)[i];
      }
    }
    match rule
    case AfterLastMarker => LastMarkerUnique(b, StartAfterLast(a));
    case AfterFirstMarker => FirstMarkerUnique(b, StartAfterFirst(a));
  }
}
