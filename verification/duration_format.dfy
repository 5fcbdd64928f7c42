/** `formatDuration`: a duration split into hours, minutes and seconds and
    rendered with the leading zero units left out. The source works on
    fractional minutes; here the duration is whole seconds, and the floor and
    remainder operations are written out with JavaScript's meaning
    (`Math.floor` rounds down, `%` keeps the sign of the dividend). */
module DurationFormat {
  import opened DivMod

  /** JavaScript's `%` on integers: the remainder takes the dividend's sign. */
  function TruncRem(a: int, b: int): (r: int)
    requires b > 0
    ensures a >= 0 ==> 0 <= r < b
    ensures a < 0 ==> -b < r <= 0
    ensures (a - r) % b == 0
  {
    TruncRemMultiple(a, b);
    if a >= 0 then a % b else -((-a) % b)
  }

  /** What the truncating remainder removes is a whole number of divisors. */
  lemma TruncRemMultiple(a: int, b: int)
    requires b > 0
    ensures a >= 0 ==> (a - a % b) % b == 0
    ensures a < 0 ==> (a + (-a) % b) % b == 0
  {
    if a >= 0 {
      assert a - a % b == (a / b) * b + 0;
      DivModUnique(a - a % b, b, a / b, 0);
    } else {
      var n := -a;
      assert a + n % b == (-(n / b)) * b + 0;
      DivModUnique(a + n % b, b, -(n / b), 0);
    }
  }

  datatype Parts = Parts(hours: int, minutes: int, seconds: int)

  /** The three numbers `formatDuration` computes for `total` seconds:
      hours = floor(m / 60), minutes = floor(m % 60) and
      seconds = floor((m % 1) * 60), where m = total / 60 minutes. For a
      non-negative duration they are its unique hours/minutes/seconds split. */
  function Decompose(total: int): (p: Parts)
    ensures total >= 0 ==>
      && p.hours >= 0 && 0 <= p.minutes < 60 && 0 <= p.seconds < 60
      && p.hours * 3600 + p.minutes * 60 + p.seconds == total
    ensures total < 0 ==> p.hours < 0 && p.minutes <= 0 && -60 < p.seconds <= 0
  {
    DecomposeSplit(total);
    Parts(total / 3600, TruncRem(total, 3600) / 60, TruncRem(total, 60))
  }

  lemma DecomposeSplit(total: int)
    ensures total >= 0 ==>
      var r := total % 3600;
      && 0 <= r / 60 < 60 && TruncRem(total, 60) == r % 60
      && (total / 3600) * 3600 + (r / 60) * 60 + r % 60 == total
    ensures total < 0 ==> total / 3600 < 0 && TruncRem(total, 3600) / 60 <= 0
  {
    var q := total / 3600;
    var r := total % 3600;
    assert total == q * 3600 + r;
    if total >= 0 {
      var m := r / 60;
      var sec := r % 60;
      assert r == m * 60 + sec;
      assert 0 <= m < 60;
      assert total == (q * 60 + m) * 60 + sec;
      DivModUnique(total, 60, q * 60 + m, sec);
    } else {
      assert q * 3600 < 0;
    }
  }

  /** One emitted piece of the rendering: `N小时`, `N分` or `N秒`. */
  datatype Unit = HoursUnit(n: int) | MinutesUnit(n: int) | SecondsUnit(n: int)

  /** The pieces pushed onto `parts`: hours only when positive, minutes when
      hours or minutes are positive, seconds always. */
  function Units(total: int): (u: seq<Unit>)
    ensures |u| >= 1 && u[|u| - 1] == SecondsUnit(Decompose(total).seconds)
    ensures HoursUnit(Decompose(total).hours) in u <==> Decompose(total).hours > 0
    ensures MinutesUnit(Decompose(total).minutes) in u <==> (Decompose(total).hours > 0 || Decompose(total).minutes > 0)
    ensures forall x :: x in u ==>
      x in [HoursUnit(Decompose(total).hours), MinutesUnit(Decompose(total).minutes), SecondsUnit(Decompose(total).seconds)]
    ensures forall i, j :: 0 <= i < j < |u| ==> UnitRank(u[i]) < UnitRank(u[j])
  {
    var p := Decompose(total);
    (if p.hours > 0 then [HoursUnit(p.hours)] else [])
    + (if p.hours > 0 || p.minutes > 0 then [MinutesUnit(p.minutes)] else [])
    + [SecondsUnit(p.seconds)]
  }

  /** Position of a piece's kind in the rendering: hours, minutes, seconds. */
  function UnitRank(u: Unit): nat {
    match u
    case HoursUnit(_) => 0
    case MinutesUnit(_) => 1
    case SecondsUnit(_) => 2
  }

  /** The seconds one emitted piece stands for. */
  function UnitValue(u: Unit): int
  {
    match u
    case HoursUnit(n) => n * 3600
    case MinutesUnit(n) => n * 60
    case SecondsUnit(n) => n
  }

  /** What a rendering reads back as: the sum of its pieces. */
  function UnitsValue(u: seq<Unit>): int
  {
    if u == [] then 0 else UnitValue(u[0]) + UnitsValue(u[1..])
  }

  /** Leaving out the leading zero units loses nothing: for a non-negative
      duration the shown pieces add up to it again. */
  lemma UnitsReadBack(total: int)
    requires total >= 0
    ensures UnitsValue(Units(total)) == total
  {
    var p := Decompose(total);
    var sec := [SecondsUnit(p.seconds)];
    UnitsValueCons(SecondsUnit(p.seconds), []);
    assert UnitsValue(sec) == p.seconds;
    if p.hours > 0 {
      var mins := [MinutesUnit(p.minutes)] + sec;
      UnitsValueCons(MinutesUnit(p.minutes), sec);
      UnitsValueCons(HoursUnit(p.hours), mins);
      assert Units(total) == [HoursUnit(p.hours)] + mins;
    } else if p.minutes > 0 {
      UnitsValueCons(MinutesUnit(p.minutes), sec);
      assert Units(total) == [MinutesUnit(p.minutes)] + sec;
    } else {
      assert Units(total) == sec;
    }
  }

  lemma UnitsValueCons(a: Unit, rest: seq<Unit>)
    ensures UnitsValue([a] + rest) == UnitValue(a) + UnitsValue(rest)
  {
    assert ([a] + rest)[1..] == rest;
  }


  /** A negative duration (an end time before its start) renders as its
      truncated seconds alone: the hour and minute parts are never positive
      and so are never shown. */
  lemma NegativeShowsOnlySeconds(total: int)
    requires total < 0
    ensures Units(total) == [SecondsUnit(TruncRem(total, 60))]
  {
  }

  function DigitChar(d: int): char
    requires 0 <= d < 10
  {
    "0123456789"[d]
  }

  /** Decimal digits of a natural number, most significant first. */
  function NatToString(n: nat): (s: string)
    ensures |s| >= 1
    ensures forall i :: 0 <= i < |s| ==> '0' <= s[i] <= '9'
    decreases n
  {
    if n < 10 then [DigitChar(n)] else NatToString(n / 10) + [DigitChar(n % 10)]
  }

  /** Reads decimal digits back (the partner of NatToString). */
  function DigitsValue(s: string): int
    decreases |s|
  {
    if s == [] then 0 else DigitsValue(s[..|s| - 1]) * 10 + (s[|s| - 1] as int - '0' as int)
  }

  lemma {:induction false} NatToStringReadsBack(n: nat)
    ensures DigitsValue(NatToString(n)) == n
    decreases n
  {
    if n < 10 {
      assert NatToString(n) == [DigitChar(n)];
      assert [DigitChar(n)][..0] == [];
    } else {
      NatToStringReadsBack(n / 10);
      var s := NatToString(n);
      var high := NatToString(n / 10);
      assert s == high + [DigitChar(n % 10)];
      assert s[..|s| - 1] == high;
      assert s[|s| - 1] as int - '0' as int == n % 10;
      assert DigitsValue(s) == DigitsValue(high) * 10 + n % 10;
    }
  }

  /** How a JavaScript template prints an integer. */
  function IntToString(n: int): (s: string)
    ensures |s| >= 1
    ensures n < 0 <==> s[0] == '-'
  {
    if n < 0 then "-" + NatToString(-n) else NatToString(n)
  }

  /** The three templates: the number, then 小时, 分 or 秒. */
  function RenderUnit(u: Unit): string
  {
    match u
    case HoursUnit(n) => IntToString(n) + "小时"
    case MinutesUnit(n) => IntToString(n) + "分"
    case SecondsUnit(n) => IntToString(n) + "秒"
  }

  /** `parts.join("")`: the rendered pieces side by side, no separator. */
  function Join(u: seq<Unit>): (s: string)
    ensures u != [] ==> |s| >= 1
    ensures |u| == 1 ==> s == RenderUnit(u[0])
  {
    if u == [] then "" else RenderUnit(u[0]) + Join(u[1..])
  }

  /** Joining two runs of pieces is joining each and concatenating. */
  lemma {:induction false} JoinAppend(a: seq<Unit>, b: seq<Unit>)
    ensures Join(a + b) == Join(a) + Join(b)
    decreases |a|
  {
    if a == [] {
      assert a + b == b;
    } else {
      assert (a + b)[1..] == a[1..] + b;
      JoinAppend(a[1..], b);
    }
  }

  /** `formatDuration(total / 60)`: the joined pieces, or "0秒" when the join
      is empty. The join never is, so the fallback never applies, and the
      rendering always ends with the seconds piece. */
  function FormatDuration(total: int): (s: string)
    ensures s == Join(Units(total))
    ensures |s| >= 2 && s[|s| - 1] == '秒'
  {
    var u := Units(total);
    JoinEndsInSeconds(u);
    if Join(u) == [] then "0秒" else Join(u)
  }

  lemma JoinEndsWithLast(u: seq<Unit>)
    requires u != []
    ensures Join(u) == Join(u[..|u| - 1]) + RenderUnit(u[|u| - 1])
  {
    var init, last := u[..|u| - 1], u[|u| - 1];
    assert init + [last] == u;
    JoinAppend(init, [last]);
    assert Join([last]) == RenderUnit(last);
  }


  /** A join whose last piece is a seconds piece ends with that piece. */
  lemma JoinEndsInSeconds(u: seq<Unit>)
    requires u != [] && u[|u| - 1].SecondsUnit?
    ensures Join(u) == Join(u[..|u| - 1]) + IntToString(u[|u| - 1].n) + "秒"
    ensures |Join(u)| >= 2 && Join(u)[|Join(u)| - 1] == '秒'
  {
    JoinEndsWithLast(u);
    var last := IntToString(u[|u| - 1].n) + "秒";
    assert RenderUnit(u[|u| - 1]) == last;
    assert last[|last| - 1] == '秒';
  }

  lemma FormatDurationEndsInSeconds(total: int)
    ensures exists pre :: FormatDuration(total) == pre + IntToString(Decompose(total).seconds) + "秒"
  {
    var u := Units(total);
    JoinEndsInSeconds(u);
    assert FormatDuration(total) == Join(u);
    var pre := Join(u[..|u| - 1]);
    assert FormatDuration(total) == pre + IntToString(u[|u| - 1].n) + "秒";
  }
}
