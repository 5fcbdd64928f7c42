/** The inbound side of the message handler shared by both versions: which
    texts are taken up at all, JavaScript's `trim`, and the exact keyboard
    labels the `switch` dispatches on. */
module Commands {
  import opened Wrappers
  import opened ActivityLog

  /** The seven keyboard buttons. */
  datatype Command = StartWork | GoEat | GoToilet | GoSmoke | BackToSeat | ShowSummary | OffWork

  /** The exact label of each button, as the `case` strings spell it. */
  function Token(c: Command): (t: string)
    ensures |t| > 1 && t[0] != '/'
  {
    match c
    case StartWork => "💼 开始工作 / Start Work"
    case GoEat => "🍔 吃饭 / Eat"
    case GoToilet => "🚽 上厕所 / Toilet"
    case GoSmoke => "🚬 抽烟 / Smoke"
    case BackToSeat => "🪑 回到座位 / Back to Seat"
    case ShowSummary => "📊 本次总结 / Session Summary"
    case OffWork => "🏁 下班 / Off Work"
  }

  /** The category a button opens: Start Work and Back to Seat open Work,
      the three break buttons open their own category; Summary and Off Work
      open nothing. */
  function Opens(c: Command): (r: Option<Category>)
    ensures r.Some? ==> r.value != SessionEnd
    ensures r.None? <==> c == ShowSummary || c == OffWork
    ensures c == StartWork || c == BackToSeat ==> r == Some(Work)
    ensures c == GoEat ==> r == Some(Eat)
    ensures c == GoToilet ==> r == Some(Toilet)
    ensures c == GoSmoke ==> r == Some(Smoke)
  {
    match c
    case StartWork => Some(Work)
    case GoEat => Some(Eat)
    case GoToilet => Some(Toilet)
    case GoSmoke => Some(Smoke)
    case BackToSeat => Some(Work)
    case ShowSummary => None
    case OffWork => None
  }

  /** The `switch (text)`: a text selects a button only when it is that
      button's label exactly; any other text selects nothing. */
  function ParseToken(t: string): (r: Option<Command>)
    ensures r.Some? ==> Token(r.value) == t
  {
    if t == Token(StartWork) then Some(StartWork)
    else if t == Token(GoEat) then Some(GoEat)
    else if t == Token(GoToilet) then Some(GoToilet)
    else if t == Token(GoSmoke) then Some(GoSmoke)
    else if t == Token(BackToSeat) then Some(BackToSeat)
    else if t == Token(ShowSummary) then Some(ShowSummary)
    else if t == Token(OffWork) then Some(OffWork)
    else None
  }

  /** Every label selects its own button, so no two buttons share a label. */
  lemma ParseTokenRoundTrip(c: Command)
    ensures ParseToken(Token(c)) == Some(c)
  {
    match c
    case StartWork =>
    case GoEat => assert Token(GoEat)[0] != Token(StartWork)[0];
    case GoToilet =>
      assert Token(GoToilet)[0] != Token(StartWork)[0];
      assert Token(GoToilet)[0] != Token(GoEat)[0];
    case GoSmoke =>
      assert Token(GoSmoke)[0] != Token(StartWork)[0];
      assert Token(GoSmoke)[0] != Token(GoEat)[0];
      assert Token(GoSmoke)[0] != Token(GoToilet)[0];
    case BackToSeat =>
      assert Token(BackToSeat)[0] != Token(StartWork)[0];
      assert Token(BackToSeat)[0] != Token(GoEat)[0];
      assert Token(BackToSeat)[0] != Token(GoToilet)[0];
      assert Token(BackToSeat)[0] != Token(GoSmoke)[0];
    case ShowSummary =>
      assert Token(ShowSummary)[0] != Token(StartWork)[0];
      assert Token(ShowSummary)[0] != Token(GoEat)[0];
      assert Token(ShowSummary)[0] != Token(GoToilet)[0];
      assert Token(ShowSummary)[0] != Token(GoSmoke)[0];
      assert Token(ShowSummary)[0] != Token(BackToSeat)[0];
    case OffWork =>
      assert Token(OffWork)[0] != Token(StartWork)[0];
      assert Token(OffWork)[0] != Token(GoEat)[0];
      assert Token(OffWork)[0] != Token(GoToilet)[0];
      assert Token(OffWork)[0] != Token(GoSmoke)[0];
      assert Token(OffWork)[0] != Token(BackToSeat)[0];
      assert Token(OffWork)[0] != Token(ShowSummary)[0];
  }

  /** ECMAScript's WhiteSpace and LineTerminator code points, the set
      `String.prototype.trim` strips. */
  predicate IsSpace(ch: char) {
    || ('\U{9}' <= ch <= '\U{D}')
    || ch == ' ' || ch == '\U{A0}' || ch == '\U{1680}'
    || ('\U{2000}' <= ch <= '\U{200A}')
    || ch == '\U{2028}' || ch == '\U{2029}' || ch == '\U{202F}' || ch == '\U{205F}'
    || ch == '\U{3000}' || ch == '\U{FEFF}'
  }

  predicate AllSpace(s: string) {
    forall i :: 0 <= i < |s| ==> IsSpace(s[i])
  }

  /** Every character of `s` at an index in `lo..hi` is white space. */
  predicate SpaceBetween(s: string, lo: int, hi: int) {
    forall i :: lo <= i < hi && 0 <= i < |s| ==> IsSpace(s[i])
  }

  /** Leading white space removed: a suffix of `s`, and all that was cut is space. */
  function TrimStart(s: string): (r: string)
    ensures |r| <= |s| && r == s[|s| - |r|..]
    ensures SpaceBetween(s, 0, |s| - |r|)
    ensures r == [] || !IsSpace(r[0])
  {
    if s != [] && IsSpace(s[0]) then
      var r := TrimStart(s[1..]);
      assert forall i :: 1 <= i < |s| - |r| ==> s[i] == s[1..][i - 1];
      r
    else s
  }

  /** Trailing white space removed: a prefix of `s`, and all that was cut is space. */
  function TrimEnd(s: string): (r: string)
    ensures |r| <= |s| && r == s[..|r|]
    ensures SpaceBetween(s, |r|, |s|)
    ensures r == [] || !IsSpace(r[|r| - 1])
  {
    if s != [] && IsSpace(s[|s| - 1]) then
      var r := TrimEnd(s[..|s| - 1]);
      assert forall i :: |r| <= i < |s| - 1 ==> s[i] == s[..|s| - 1][i];
      r
    else s
  }

  /** `text.trim()`: no space is left at either end. */
  function Trim(s: string): (r: string)
    ensures |r| <= |s|
    ensures r == [] || (!IsSpace(r[0]) && !IsSpace(r[|r| - 1]))
  {
    var front := TrimStart(s);
    var r := TrimEnd(front);
    assert r != [] ==> r[0] == front[0];
    r
  }

  /** What `trim` keeps is a slice of the text, and only white space is cut
      off either side of it. */
  lemma TrimCutsOnlySpace(s: string)
    ensures var r := Trim(s);
      exists i :: 0 <= i <= |s| - |r| && r == s[i..i + |r|]
        && SpaceBetween(s, 0, i) && SpaceBetween(s, i + |r|, |s|)
  {
    var i := TrimOffset(s);
  }

  /** The offset at which the kept slice starts. */
  lemma TrimOffset(s: string) returns (i: int)
    ensures var r := Trim(s);
      && 0 <= i <= |s| - |r| && r == s[i..i + |r|]
      && SpaceBetween(s, 0, i) && SpaceBetween(s, i + |r|, |s|)
  {
    var front := TrimStart(s);
    var r := TrimEnd(front);
    assert Trim(s) == r;
    i := |s| - |front|;
    assert front == s[i..];
    assert r == front[..|r|];
    assert r == s[i..i + |r|];
    SpaceBetweenShift(s, i, |r|, |front|);
  }

  /** Space in a suffix of `s` is space in `s`, shifted by where the suffix starts. */
  lemma SpaceBetweenShift(s: string, i: int, lo: int, hi: int)
    requires 0 <= i <= |s| && 0 <= lo && SpaceBetween(s[i..], lo, hi)
    ensures SpaceBetween(s, i + lo, i + hi)
  {
    forall j | i + lo <= j < i + hi && 0 <= j < |s|
      ensures IsSpace(s[j])
    {
      assert s[j] == s[i..][j - i];
    }
  }

  lemma {:induction false} TrimStartSkipsSpace(p: string, t: string)
    requires AllSpace(p) && (t == [] || !IsSpace(t[0]))
    ensures TrimStart(p + t) == t
    decreases |p|
  {
    if p == [] {
      assert p + t == t;
    } else {
      assert (p + t)[1..] == p[1..] + t;
      TrimStartSkipsSpace(p[1..], t);
    }
  }

  lemma {:induction false} TrimEndSkipsSpace(t: string, q: string)
    requires AllSpace(q) && (t == [] || !IsSpace(t[|t| - 1]))
    ensures TrimEnd(t + q) == t
    decreases |q|
  {
    if q == [] {
      assert t + q == t;
    } else {
      assert (t + q)[..|t + q| - 1] == t + q[..|q| - 1];
      TrimEndSkipsSpace(t, q[..|q| - 1]);
    }
  }

  /** Trimming removes exactly the surrounding space: a text with no space at
      either end survives any padding. */
  lemma TrimPadded(p: string, t: string, q: string)
    requires AllSpace(p) && AllSpace(q)
    requires t != [] && !IsSpace(t[0]) && !IsSpace(t[|t| - 1])
    ensures Trim(p + t + q) == t
  {
    assert p + t + q == p + (t + q);
    TrimStartSkipsSpace(p, t + q);
    TrimEndSkipsSpace(t, q);
  }

  /** The guard and dispatch of the `message` handler: no text, an empty
      text, or one whose first character is `/` is dropped before anything
      else; otherwise the trimmed text must be a button label. */
  function Recognize(text: Option<string>): (r: Option<Command>)
    ensures text.None? || text.value == [] || text.value[0] == '/' ==> r.None?
    ensures r.Some? ==> Trim(text.value) == Token(r.value)
  {
    if text.None? || text.value == [] || text.value[0] == '/' then None
    else ParseToken(Trim(text.value))
  }

  /** Every label starts with its icon and ends with a letter. */
  lemma TokenShape(c: Command)
    ensures !IsSpace(Token(c)[0]) && !IsSpace(Token(c)[|Token(c)| - 1])
  {
  }

  /** A button label with any white space around it selects that button. */
  lemma RecognizePaddedToken(p: string, c: Command, q: string)
    requires AllSpace(p) && AllSpace(q)
    ensures Recognize(Some(p + Token(c) + q)) == Some(c)
  {
    var t := Token(c);
    TokenShape(c);
    TrimPadded(p, t, q);
    ParseTokenRoundTrip(c);
    var s := p + t + q;
    assert s[0] != '/' by {
      if p == [] {
        assert s[0] == t[0];
      } else {
        assert s[0] == p[0];
      }
    }
    assert Recognize(Some(s)) == ParseToken(Trim(s));
  }
}
