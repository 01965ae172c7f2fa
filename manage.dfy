/** The command-line helpers: checking the day argument, printing how long
    until a puzzle is released, and the order in which `create` and `run`
    visit the days. The maximum day, read from the environment, is a
    parameter. */
module Manage {
  import opened Common

  // ---------------------------------------------------------------------
  // get_day_from_args
  // ---------------------------------------------------------------------

  datatype DayError = NotANumber | OutOfRange

  /** The day argument: absent is fine, text `int` rejects is an error, and a
      number outside `1..maxDays` is an error. */
  function ValidateDay(arg: Option<string>, maxDays: int): (r: Result<Option<int>, DayError>)
    ensures arg.None? ==> r == Ok(None)
    ensures arg.Some? && ParseInt(arg.value).None? ==> r == Err(NotANumber)
    ensures r.Ok? && r.value.Some? ==> 1 <= r.value.value <= maxDays && ParseInt(arg.value) == Some(r.value.value)
    ensures arg.Some? && ParseInt(arg.value).Some? ==>
      (r.Ok? <==> 1 <= ParseInt(arg.value).value <= maxDays)
  {
    if arg.None? then Ok(None)
    else
      match ParseInt(arg.value)
      case None => Err(NotANumber)
      case Some(day) => if 1 <= day <= maxDays then Ok(Some(day)) else Err(OutOfRange)
  }

  /** Every day in range, written as `str(day)`, is accepted as itself. */
  lemma ValidDayAccepted(day: int, maxDays: int)
    requires 1 <= day <= maxDays
    ensures ValidateDay(Some(IntToStr(day)), maxDays) == Ok(Some(day))
  {
    ParseIntToStr(day);
  }

  // ---------------------------------------------------------------------
  // human_readable_timedelta
  // ---------------------------------------------------------------------

  /** A timedelta's `days` and `seconds` split into the four units. */
  datatype Units = Units(days: int, hours: nat, minutes: nat, seconds: nat)

  /** `divmod(seconds, 3600)` and `divmod(rem, 60)`. */
  function Decompose(days: int, seconds: nat): (u: Units)
    ensures u.days == days
    ensures 3600 * u.hours + 60 * u.minutes + u.seconds == seconds
    ensures u.minutes < 60 && u.seconds < 60
  {
    var rem := seconds % 3600;
    Units(days, seconds / 3600, rem / 60, rem % 60)
  }

  /** The decomposition is the only one with minutes and seconds below 60. */
  lemma DecomposeUnique(days: int, seconds: nat, h: nat, m: nat, s: nat)
    requires 3600 * h + 60 * m + s == seconds && m < 60 && s < 60
    ensures Decompose(days, seconds) == Units(days, h, m, s)
  {
    var u := Decompose(days, seconds);
    assert 60 * m + s < 3600;
    assert 60 * u.minutes + u.seconds < 3600;
    DivUnique(seconds, 3600, h, 60 * m + s);
    DivUnique(seconds, 3600, u.hours, 60 * u.minutes + u.seconds);
    DivUnique(60 * m + s, 60, m, s);
    DivUnique(60 * u.minutes + u.seconds, 60, u.minutes, u.seconds);
  }

  lemma DivUnique(n: nat, d: nat, q: nat, r: nat)
    requires 0 < d && n == d * q + r && r < d
    ensures n / d == q && n % d == r
  {
    var q2, r2 := n / d, n % d;
    assert n == d * q2 + r2;
    if q < q2 {
      MulMono(d, q + 1, q2);
    } else if q2 < q {
      MulMono(d, q2 + 1, q);
    }
  }

  lemma MulMono(d: nat, a: nat, b: nat)
    requires a <= b
    ensures d * a <= d * b && d * a == d * (a - 1) + d
  {
    assert d * b - d * a == d * (b - a);
  }

  /** A value with the name of its unit. */
  datatype Component = Component(value: int, unit: string)

  function Components(u: Units): seq<Component> {
    [Component(u.days, "day"), Component(u.hours, "hour"), Component(u.minutes, "minute"), Component(u.seconds, "second")]
  }

  /** The components with a positive value, in order. */
  function Positive(cs: seq<Component>): (ps: seq<Component>)
    ensures |ps| <= |cs|
    ensures forall k :: 0 <= k < |ps| ==> ps[k].value > 0
    ensures ps == [] <==> forall k :: 0 <= k < |cs| ==> cs[k].value <= 0
  {
    if cs == [] then []
    else if cs[0].value > 0 then [cs[0]] + Positive(cs[1..])
    else
      assert forall k :: 1 <= k < |cs| ==> cs[1..][k - 1] == cs[k];
      Positive(cs[1..])
  }

  /** The first positive component comes first, followed by the positive
      ones after it: the chosen ones need not be adjacent units. */
  lemma {:induction false} PositiveFirst(cs: seq<Component>, i: nat)
    requires i < |cs| && cs[i].value > 0 && forall k :: 0 <= k < i ==> cs[k].value <= 0
    ensures Positive(cs) == [cs[i]] + Positive(cs[i + 1..])
  {
    if i > 0 {
      assert forall k :: 0 <= k < i - 1 ==> cs[1..][k] == cs[k + 1];
      PositiveFirst(cs[1..], i - 1);
      assert cs[1..][i..] == cs[i + 1..];
    }
  }

  /** `f"{v} {u}"` with an "s" unless the value is 1. */
  function Fmt(c: Component): (r: string)
    requires c.value > 0
    ensures var n := NatToStr(c.value); |n| < |r| && ParseInt(r[..|n|]) == Some(c.value) && r[|n|] == ' '
    ensures c.value != 1 ==> r[|r| - 1] == 's'
  {
    var n := NatToStr(c.value);
    var r := n + " " + c.unit + (if c.value != 1 then "s" else "");
    assert r[..|n|] == n;
    ParseNatToStr(c.value);
    r
  }

  /** Reading a shown component back: the number before the space is its
      value, and after it comes the unit, with an "s" exactly when the
      value is not 1. */
  lemma FmtRoundTrip(c: Component)
    requires c.value > 0 && ' ' !in c.unit
    ensures var p := Split(Fmt(c), ' ');
      |p| == 2 && ParseInt(p[0]) == Some(c.value) && p[1] == c.unit + (if c.value == 1 then "" else "s")
  {
    var n := NatToStr(c.value);
    var rest := c.unit + (if c.value != 1 then "s" else "");
    assert ' ' !in n by {
      DigitsNoSpace(n);
    }
    assert ' ' !in rest;
    assert Fmt(c) == n + [' '] + rest;
    SplitWord(n, rest, ' ');
    SplitNoSep(rest, ' ');
    ParseNatToStr(c.value);
  }

  /** `human_readable_timedelta`: at most the first two positive units, joined
      by " and "; none gives "less than a second". */
  function HumanReadableTimedelta(days: int, seconds: nat): (r: string)
    ensures var ps := Positive(Components(Decompose(days, seconds)));
      && (ps == [] ==> r == "less than a second")
      && (|ps| == 1 ==> r == Fmt(ps[0]))
      && (|ps| >= 2 ==> r == Fmt(ps[0]) + " and " + Fmt(ps[1]))
  {
    var ps := Positive(Components(Decompose(days, seconds)));
    var parts := if |ps| > 2 then ps[..2] else ps;
    if |parts| == 2 then Fmt(parts[0]) + " and " + Fmt(parts[1])
    else if |parts| == 1 then Fmt(parts[0])
    else "less than a second"
  }

  /** "less than a second" is shown exactly when no unit is positive: no
      whole day ahead and no second within the day. */
  lemma LessThanASecond(days: int, seconds: nat)
    ensures Positive(Components(Decompose(days, seconds))) == [] <==> days <= 0 && seconds == 0
  {
    var u := Decompose(days, seconds);
    var cs := Components(u);
    assert cs[0].value == days && cs[1].value == u.hours && cs[2].value == u.minutes && cs[3].value == u.seconds;
  }

  /** When hours and seconds are positive but minutes are not, the two
      shown units are hours and seconds, skipping the empty minutes. */
  lemma SkipsEmptyUnits(days: int, seconds: nat)
    requires days <= 0
    ensures var u := Decompose(days, seconds);
      u.hours > 0 && u.minutes == 0 && u.seconds > 0 ==>
        HumanReadableTimedelta(days, seconds) == Fmt(Component(u.hours, "hour")) + " and " + Fmt(Component(u.seconds, "second"))
  {
    var u := Decompose(days, seconds);
    var cs := Components(u);
    if u.hours > 0 && u.minutes == 0 && u.seconds > 0 {
      PositiveFirst(cs, 1);
      PositiveFirst(cs[2..], 1);
      assert cs[2..][2..] == [];
    }
  }

  // ---------------------------------------------------------------------
  // create and run
  // ---------------------------------------------------------------------

  /** One `_create_day` call: the day and whether overwriting is skipped. */
  datatype CreateCall = CreateCall(day: int, skipOverwrite: bool)

  /** `create`: without a day every day from 1 to `maxDays` is created in
      increasing order without prompting; with one only that day is, and a
      prompt may be shown. The calls are returned in the order they are
      made; what each does is not modelled. */
  method Create(day: Option<int>, maxDays: int) returns (calls: seq<CreateCall>)
    ensures day.Some? ==> calls == [CreateCall(day.value, false)]
    ensures day.None? ==>
      |calls| == (if maxDays > 0 then maxDays else 0) && forall k :: 0 <= k < |calls| ==> calls[k] == CreateCall(k + 1, true)
  {
    if day.None? {
      calls := [];
      var d := 1;
      while d <= maxDays
        invariant 1 <= d <= (if maxDays > 0 then maxDays else 0) + 1 && |calls| == d - 1
        invariant forall k :: 0 <= k < |calls| ==> calls[k] == CreateCall(k + 1, true)
      {
        calls := calls + [CreateCall(d, true)];
        d := d + 1;
      }
      return;
    }
    calls := [CreateCall(day.value, false)];
  }

  /** `run`: without a day every day from 1 to `maxDays` is run in increasing
      order, passed as its decimal string; with one only that day is. */
  method Run(day: Option<string>, maxDays: int) returns (calls: seq<string>)
    ensures day.Some? ==> calls == [day.value]
    ensures day.None? ==>
      |calls| == (if maxDays > 0 then maxDays else 0) && forall k :: 0 <= k < |calls| ==> calls[k] == NatToStr(k + 1)
  {
    if day.None? {
      calls := [];
      var d := 1;
      while d <= maxDays
        invariant 1 <= d <= (if maxDays > 0 then maxDays else 0) + 1 && |calls| == d - 1
        invariant forall k :: 0 <= k < |calls| ==> calls[k] == NatToStr(k + 1)
      {
        calls := calls + [NatToStr(d)];
        d := d + 1;
      }
      return;
    }
    calls := [day.value];
  }
}
