/** Day 1: a dial numbered 0 to 99 starts at 50 and is turned by a list of
    rotations. Part 1 counts the rotations that leave it on 0; part 2 counts
    every single click that lands on 0. */
module Day1 {
  import opened Common

  const Start: int := 50

  function Abs(x: int): nat {
    if x < 0 then -x else x
  }

  // ---------------------------------------------------------------------
  // process_data
  // ---------------------------------------------------------------------

  /** One line of input: a first letter `R` turns right by the number that
      follows, any other first letter turns left. A blank line or a
      malformed number is an error. */
  function ParseRotation(line: string): Option<int> {
    var t := Strip(line);
    if t == [] then None
    else match ParseInt(t[1..])
      case None => None
      case Some(n) => Some(if t[0] == 'R' then n else -n)
  }

  /** How the puzzle writes a rotation. */
  function FormatRotation(step: int): string {
    if step >= 0 then "R" + IntToStr(step) else "L" + IntToStr(-step)
  }

  lemma FormatNoSpace(step: int)
    ensures var f := FormatRotation(step); f != [] && !IsSpace(f[0]) && !IsSpace(f[|f| - 1])
  {
    var n: nat := if step >= 0 then step else -step;
    var d := NatToStr(n);
    DigitNotSpace(d[|d| - 1]);
    assert IntToStr(n) == d;
  }

  lemma StripFormat(step: int)
    ensures Strip(FormatRotation(step)) == FormatRotation(step)
  {
    var f := FormatRotation(step);
    FormatNoSpace(step);
    assert StripLeft(f) == f;
    assert StripRight(f) == f;
  }

  /** Reading back a formatted rotation gives the rotation. */
  lemma ParseFormat(step: int)
    ensures ParseRotation(FormatRotation(step)) == Some(step)
  {
    var n: nat := Abs(step);
    var d := NatToStr(n);
    var f := [if step >= 0 then 'R' else 'L'] + d;
    assert FormatRotation(step) == f;
    StripFormat(step);
    ParseNatToStr(n);
    assert f[1..] == d;
    ParseLetter(f, n);
  }

  lemma ParseLetter(f: string, n: nat)
    requires f != [] && Strip(f) == f && ParseInt(f[1..]) == Some(n)
    ensures ParseRotation(f) == Some(if f[0] == 'R' then n as int else -(n as int))
  {
  }

  /** `process_data`: every line parsed, in order; one bad line is an error. */
  function ProcessData(lines: seq<string>): (r: Option<seq<int>>)
    ensures r.Some? <==> forall k :: 0 <= k < |lines| ==> ParseRotation(lines[k]).Some?
    ensures r.Some? ==> |r.value| == |lines|
    ensures r.Some? ==> forall k :: 0 <= k < |lines| ==> r.value[k] == ParseRotation(lines[k]).value
  {
    if forall k :: 0 <= k < |lines| ==> ParseRotation(lines[k]).Some? then
      Some(seq(|lines|, k requires 0 <= k < |lines| => ParseRotation(lines[k]).value))
    else None
  }

  /** Parsing the formatted rotations gives the rotations back. */
  lemma ProcessFormatted(steps: seq<int>)
    ensures ProcessData(seq(|steps|, k requires 0 <= k < |steps| => FormatRotation(steps[k]))) == Some(steps)
  {
    var lines := seq(|steps|, k requires 0 <= k < |steps| => FormatRotation(steps[k]));
    forall k | 0 <= k < |lines| ensures ParseRotation(lines[k]) == Some(steps[k]) {
      ParseFormat(steps[k]);
    }
    var r := ProcessData(lines);
    assert r.Some?;
    assert r.value == steps;
  }

  // ---------------------------------------------------------------------
  // zero_count and part_1
  // ---------------------------------------------------------------------

  /** The number of steps after which the dial, starting at `pos`, shows 0.
      Python's `%` and Dafny's agree for the positive divisor 100. */
  function Hits(pos: int, steps: seq<int>): nat
    decreases steps
  {
    if steps == [] then 0
    else (if (pos + steps[0]) % 100 == 0 then 1 else 0) + Hits(pos + steps[0], steps[1..])
  }

  /** `zero_count`: the loop over the steps that moves `position` and counts
      the zeros. */
  method ZeroCount(steps: seq<int>) returns (count: nat)
    ensures count == Hits(Start, steps)
  {
    var position := Start;
    count := 0;
    for k := 0 to |steps|
      invariant count + Hits(position, steps[k..]) == Hits(Start, steps)
    {
      assert steps[k..][1..] == steps[k + 1..];
      position := position + steps[k];
      if position % 100 == 0 {
        count := count + 1;
      }
    }
  }

  method Part1(steps: seq<int>) returns (answer: nat)
    ensures answer == Hits(Start, steps)
  {
    answer := ZeroCount(steps);
  }

  /** At most one zero per step. */
  lemma {:induction false} HitsBound(pos: int, steps: seq<int>)
    ensures Hits(pos, steps) <= |steps|
    decreases steps
  {
    if steps != [] {
      HitsBound(pos + steps[0], steps[1..]);
    }
  }

  /** Counting over two runs of steps one after the other. */
  lemma {:induction false} HitsAppend(pos: int, a: seq<int>, b: seq<int>)
    ensures Hits(pos, a + b) == Hits(pos, a) + Hits(pos + Sum(a), b)
    decreases a
  {
    if a == [] {
      assert a + b == b;
    } else {
      assert (a + b)[0] == a[0] && (a + b)[1..] == a[1..] + b;
      HitsAppend(pos + a[0], a[1..], b);
    }
  }

  // ---------------------------------------------------------------------
  // part_2: every rotation expanded into single clicks
  // ---------------------------------------------------------------------

  /** `step // abs(step)` repeated `abs(step)` times; a zero step gives no
      clicks, so the division by zero is never evaluated. */
  function Units(step: int): (r: seq<int>)
    ensures |r| == Abs(step)
    ensures forall k :: 0 <= k < |r| ==> r[k] == (if step > 0 then 1 else -1)
  {
    seq(Abs(step), _ requires step != 0 => step / Abs(step))
  }

  function Expand(steps: seq<int>): seq<int> {
    if steps == [] then [] else Units(steps[0]) + Expand(steps[1..])
  }

  lemma {:induction false} UnitsSum(step: int)
    ensures Sum(Units(step)) == step
    decreases Abs(step)
  {
    if step > 0 {
      assert Units(step) == [1] + Units(step - 1);
      UnitsSum(step - 1);
    } else if step < 0 {
      assert Units(step) == [-1] + Units(step + 1);
      UnitsSum(step + 1);
    }
  }

  /** The clicks add up to the same total turn as the rotations. */
  lemma {:induction false} ExpandSum(steps: seq<int>)
    ensures Sum(Expand(steps)) == Sum(steps)
  {
    if steps != [] {
      ExpandSum(steps[1..]);
      UnitsSum(steps[0]);
      SumAppend(Units(steps[0]), Expand(steps[1..]));
    }
  }

  /** A single click lands on 0 exactly when it reaches a multiple of 100. */
  lemma ClickRight(pos: int)
    ensures (pos + 1) / 100 - pos / 100 == if (pos + 1) % 100 == 0 then 1 else 0
  {
  }

  lemma ClickLeft(pos: int)
    ensures (pos - 1) / 100 - (pos - 2) / 100 == if (pos - 1) % 100 == 0 then 1 else 0
  {
  }

  /** Turning right by `step` clicks passes 0 once per multiple of 100 in
      `(pos, pos + step]`; turning left, once per multiple in `[pos + step, pos)`. */
  lemma {:induction false} UnitsHits(pos: int, step: int)
    ensures step >= 0 ==> Hits(pos, Units(step)) == (pos + step) / 100 - pos / 100
    ensures step <= 0 ==> Hits(pos, Units(step)) == (pos - 1) / 100 - (pos + step - 1) / 100
    decreases Abs(step)
  {
    if step > 0 {
      assert Units(step) == [1] + Units(step - 1);
      UnitsHits(pos + 1, step - 1);
      ClickRight(pos);
    } else if step < 0 {
      assert Units(step) == [-1] + Units(step + 1);
      UnitsHits(pos - 1, step + 1);
      ClickLeft(pos);
    }
  }

  /** Part 2 sees every end position part 1 sees, as long as no rotation is
      zero clicks long. */
  lemma {:induction false} ExpandHits(pos: int, steps: seq<int>)
    requires forall k :: 0 <= k < |steps| ==> steps[k] != 0
    ensures Hits(pos, Expand(steps)) >= Hits(pos, steps)
    decreases steps
  {
    if steps != [] {
      var s := steps[0];
      ExpandHits(pos + s, steps[1..]);
      HitsAppend(pos, Units(s), Expand(steps[1..]));
      UnitsSum(s);
      LastClick(pos, s);
    }
  }

  /** The last click of a non-zero rotation ends where the rotation ends. */
  lemma LastClick(pos: int, s: int)
    requires s != 0
    ensures Hits(pos, Units(s)) >= if (pos + s) % 100 == 0 then 1 else 0
  {
    var u := Units(s);
    var init, last := u[..|u| - 1], [u[|u| - 1]];
    assert u == init + last;
    HitsAppend(pos, init, last);
    SumAppend(init, last);
    UnitsSum(s);
  }

  /** A zero rotation that leaves the dial on 0 counts for part 1 but gives
      no click for part 2, so part 2 can be smaller: `R50` then `R0`. */
  lemma ZeroStepCounterexample()
    ensures Hits(Start, [50, 0]) == 2
    ensures Hits(Start, Expand([50, 0])) == 1
  {
    assert Expand([0]) == [];
    assert Expand([50, 0]) == Units(50) + Expand([0]) == Units(50);
    UnitsHits(Start, 50);
  }

  method Part2(steps: seq<int>) returns (answer: nat)
    ensures answer == Hits(Start, Expand(steps))
    ensures (forall k :: 0 <= k < |steps| ==> steps[k] != 0) ==> answer >= Hits(Start, steps)
  {
    if forall k :: 0 <= k < |steps| ==> steps[k] != 0 {
      ExpandHits(Start, steps);
    }
    answer := ZeroCount(Expand(steps));
  }
}
