/** Day 3: each line is a bank of digit batteries; the answer for a line is
    the largest number that can be left by deleting digits until `l` remain,
    found greedily one deletion at a time. Part 1 keeps 2 digits, part 2
    keeps 12, and each answer is the sum over the lines. */
module Day3 {
  import opened Common

  /** `process_data`: every line stripped, in order. */
  function ProcessData(lines: seq<string>): (r: seq<string>)
    ensures |r| == |lines| && forall k :: 0 <= k < |r| ==> r[k] == Strip(lines[k])
  {
    StripLines(lines)
  }

  /** Processing already processed lines changes nothing. */
  lemma ProcessIdempotent(lines: seq<string>)
    ensures ProcessData(ProcessData(lines)) == ProcessData(lines)
  {
    var p := ProcessData(lines);
    forall k | 0 <= k < |p| ensures Strip(p[k]) == p[k] {
      StripIdempotent(lines[k]);
    }
  }

  // ---------------------------------------------------------------------
  // Python's string order and max()
  // ---------------------------------------------------------------------

  /** Python's `a < b` on strings: code point by code point, a proper
      prefix first. */
  predicate LexLess(a: string, b: string)
    decreases |a|
  {
    if a == [] then b != []
    else if b == [] then false
    else a[0] < b[0] || (a[0] == b[0] && LexLess(a[1..], b[1..]))
  }

  lemma {:induction false} LexLessIrreflexive(a: string)
    ensures !LexLess(a, a)
    decreases |a|
  {
    if a != [] {
      LexLessIrreflexive(a[1..]);
    }
  }

  lemma {:induction false} LexLessTrans(a: string, b: string, c: string)
    requires LexLess(a, b) && LexLess(b, c)
    ensures LexLess(a, c)
    decreases |a|
  {
    if a != [] && a[0] == b[0] && b[0] == c[0] {
      LexLessTrans(a[1..], b[1..], c[1..]);
    }
  }

  /** Any two different strings are ordered one way or the other. */
  lemma {:induction false} LexLessTotal(a: string, b: string)
    ensures a == b || LexLess(a, b) || LexLess(b, a)
    decreases |a|
  {
    if a != [] && b != [] && a[0] == b[0] {
      LexLessTotal(a[1..], b[1..]);
      if a[1..] == b[1..] {
        assert a == [a[0]] + a[1..] && b == [b[0]] + b[1..];
      }
    }
  }

  /** `max(cands)`: a later candidate replaces the current one only when it
      is strictly greater, so the first of equal maxima is kept. */
  function MaxOf(cands: seq<string>): (r: string)
    requires cands != []
    ensures r in cands
    ensures forall k :: 0 <= k < |cands| ==> !LexLess(r, cands[k])
  {
    if |cands| == 1 then
      LexLessIrreflexive(cands[0]);
      cands[0]
    else
      var init := cands[..|cands| - 1];
      var m := MaxOf(init);
      var last := cands[|cands| - 1];
      assert forall k :: 0 <= k < |init| ==> cands[k] == init[k];
      if LexLess(m, last) then
        assert forall k :: 0 <= k < |init| ==> !LexLess(last, cands[k]) by {
          forall k | 0 <= k < |init| ensures !LexLess(last, cands[k]) {
            if LexLess(last, cands[k]) {
              LexLessTrans(m, last, cands[k]);
            }
          }
        }
        LexLessIrreflexive(last);
        last
      else
        m
  }

  // ---------------------------------------------------------------------
  // One round: the best single deletion
  // ---------------------------------------------------------------------

  function Delete(s: string, i: nat): (r: string)
    requires i < |s|
    ensures |r| == |s| - 1
  {
    s[..i] + s[i + 1..]
  }

  /** `[s[:i] + s[i+1:] for i in range(len(s))]`. */
  function Deletions(s: string): (r: seq<string>)
    ensures |r| == |s| && forall i :: 0 <= i < |s| ==> r[i] == Delete(s, i)
  {
    seq(|s|, i requires 0 <= i < |s| => Delete(s, i))
  }

  /** One round of the loop: the greatest string left by deleting one
      character. */
  function BestDeletion(s: string): (r: string)
    requires s != []
    ensures |r| == |s| - 1
  {
    var ds := Deletions(s);
    var r := MaxOf(ds);
    var i :| 0 <= i < |ds| && ds[i] == r;
    assert r == Delete(s, i);
    r
  }

  /** A round's result is one of the single deletions, and none of them is
      greater. */
  lemma BestDeletionChoice(s: string)
    requires s != []
    ensures exists i :: 0 <= i < |s| && BestDeletion(s) == Delete(s, i)
    ensures forall i :: 0 <= i < |s| ==> !LexLess(BestDeletion(s), Delete(s, i))
  {
    var ds := Deletions(s);
    var r := MaxOf(ds);
    assert BestDeletion(s) == r;
    var i :| 0 <= i < |ds| && ds[i] == r;
    assert r == Delete(s, i);
  }

  /** The string the loop ends with: rounds run while more than `l`
      characters remain. */
  function Reduce(s: string, l: nat): string
    decreases |s|
  {
    if |s| <= l then s else Reduce(BestDeletion(s), l)
  }

  /** The number the line yields; `int` of an empty line is an error. */
  function Largest(s: string, l: nat): Option<int> {
    ParseInt(Reduce(s, l))
  }

  /** `largest_after_deletions`: the `while` loop that rebinds `s`. */
  method LargestAfterDeletions(s: string, l: nat) returns (r: Option<int>)
    ensures r == Largest(s, l)
  {
    var t := s;
    while |t| > l
      invariant Reduce(t, l) == Reduce(s, l)
      decreases |t|
    {
      t := BestDeletion(t);
    }
    r := ParseInt(t);
  }

  // ---------------------------------------------------------------------
  // What the loop computes
  // ---------------------------------------------------------------------

  /** Each round removes one character, so the result has `l` characters,
      or all of them when there were no more than `l`. */
  lemma {:induction false} ReduceLength(s: string, l: nat)
    ensures |Reduce(s, l)| == if |s| <= l then |s| else l
    decreases |s|
  {
    if |s| > l {
      ReduceLength(BestDeletion(s), l);
    }
  }

  /** The result is `s` with some characters deleted. */
  lemma {:induction false} ReduceSubsequence(s: string, l: nat)
    ensures IsSubsequence(Reduce(s, l), s)
    decreases |s|
  {
    if |s| <= l {
      SubsequenceRefl(s);
    } else {
      var b := BestDeletion(s);
      BestDeletionChoice(s);
      var i :| 0 <= i < |s| && b == Delete(s, i);
      DeleteIsSubsequence(s, i);
      ReduceSubsequence(b, l);
      SubsequenceTrans(Reduce(b, l), b, s);
    }
  }

  lemma DeleteDigits(s: string, i: nat)
    requires i < |s| && AllDigits(s)
    ensures AllDigits(Delete(s, i))
  {
    var d := Delete(s, i);
    forall k | 0 <= k < |d| ensures IsDigit(d[k]) {
      if k < i {
        assert d[k] == s[k];
      } else {
        assert d[k] == s[k + 1];
      }
    }
  }

  lemma {:induction false} ReduceDigits(s: string, l: nat)
    requires AllDigits(s)
    ensures AllDigits(Reduce(s, l))
    decreases |s|
  {
    if |s| > l {
      var b := BestDeletion(s);
      BestDeletionChoice(s);
      var i :| 0 <= i < |s| && b == Delete(s, i);
      DeleteDigits(s, i);
      ReduceDigits(b, l);
    }
  }

  // ---------------------------------------------------------------------
  // The string order agrees with the numeric order on digit strings of
  // equal length
  // ---------------------------------------------------------------------

  function Pow10(n: nat): (r: nat)
    ensures r >= 1
  {
    if n == 0 then 1 else 10 * Pow10(n - 1)
  }

  function Digit(c: char): nat
    requires IsDigit(c)
  {
    c as int - '0' as int
  }

  /** `n` digits spell a number below `10^n`. */
  lemma {:induction false} DigitsBound(d: string)
    requires AllDigits(d)
    ensures DigitsValue(d) < Pow10(|d|)
  {
    if d != [] {
      DigitsBound(d[..|d| - 1]);
    }
  }

  /** The value read from the front: the first digit weighs `10^(n-1)`. */
  lemma {:induction false} DigitsFront(d: string)
    requires d != [] && AllDigits(d)
    ensures DigitsValue(d) == Digit(d[0]) * Pow10(|d| - 1) + DigitsValue(d[1..])
  {
    if |d| > 1 {
      var init := d[..|d| - 1];
      var tail := d[1..];
      DigitsFront(init);
      assert init[1..] == tail[..|tail| - 1];
      var x, p, u := Digit(d[0]), Pow10(|d| - 2), DigitsValue(init[1..]);
      var e := Digit(d[|d| - 1]);
      assert DigitsValue(init) == x * p + u;
      assert DigitsValue(tail) == 10 * u + e;
      assert DigitsValue(d) == 10 * (x * p + u) + e;
      MulTen(x, p);
    }
  }

  lemma MulTen(x: nat, p: nat)
    ensures 10 * (x * p) == x * (10 * p)
  {
  }

  /** A smaller leading digit gives a smaller number, whatever follows. */
  lemma FirstDigitDecides(x: nat, y: nat, u: nat, v: nat, p: nat)
    requires x < y && u < p && v < p
    ensures x * p + u < y * p + v
  {
    MulLe(x + 1, y, p);
    MulSucc(x, p);
  }

  lemma MulSucc(x: nat, p: nat)
    ensures (x + 1) * p == x * p + p
  {
  }

  lemma {:induction false} MulLe(a: nat, b: nat, p: nat)
    requires a <= b
    ensures a * p <= b * p
    decreases b - a
  {
    if a < b {
      MulLe(a + 1, b, p);
      MulSucc(a, p);
    }
  }

  /** Between digit strings of one length, `<` on strings is `<` on numbers. */
  lemma {:induction false} LexIsNumeric(a: string, b: string)
    requires |a| == |b| && AllDigits(a) && AllDigits(b)
    ensures LexLess(a, b) <==> DigitsValue(a) < DigitsValue(b)
    decreases |a|
  {
    if a != [] {
      var p := Pow10(|a| - 1);
      DigitsFront(a);
      DigitsFront(b);
      DigitsBound(a[1..]);
      DigitsBound(b[1..]);
      if a[0] == b[0] {
        LexIsNumeric(a[1..], b[1..]);
      } else if a[0] < b[0] {
        FirstDigitDecides(Digit(a[0]), Digit(b[0]), DigitsValue(a[1..]), DigitsValue(b[1..]), p);
      } else {
        FirstDigitDecides(Digit(b[0]), Digit(a[0]), DigitsValue(b[1..]), DigitsValue(a[1..]), p);
      }
    }
  }

  /** On a line of digits each round keeps the numerically largest of the
      single deletions. */
  lemma BestDeletionIsLargest(s: string, i: nat)
    requires s != [] && AllDigits(s) && i < |s|
    ensures AllDigits(BestDeletion(s)) && AllDigits(Delete(s, i))
    ensures DigitsValue(Delete(s, i)) <= DigitsValue(BestDeletion(s))
  {
    var b := BestDeletion(s);
    BestDeletionChoice(s);
    var j :| 0 <= j < |s| && b == Delete(s, j);
    DeleteDigits(s, i);
    DeleteDigits(s, j);
    LexIsNumeric(b, Delete(s, i));
  }

  /** On a line of at least `l >= 1` digits the result is an `l`-digit number. */
  lemma LargestDigits(s: string, l: nat)
    requires AllDigits(s) && 1 <= l <= |s|
    ensures Largest(s, l).Some?
    ensures 0 <= Largest(s, l).value < Pow10(l)
  {
    var t := Reduce(s, l);
    ReduceLength(s, l);
    ReduceDigits(s, l);
    ParseDigits(t);
    DigitsBound(t);
  }

  // ---------------------------------------------------------------------
  // part_1 and part_2
  // ---------------------------------------------------------------------

  /** Values in `[0, p)` sum to a value in `[0, n * p)`. */
  lemma {:induction false} SumOptionsBound(vs: seq<Option<int>>, p: nat)
    requires forall k :: 0 <= k < |vs| ==> vs[k].Some? && 0 <= vs[k].value < p
    ensures SumOptions(vs).Some?
    ensures vs == [] || 0 <= SumOptions(vs).value < |vs| * p
  {
    if vs != [] {
      var init := vs[..|vs| - 1];
      SumOptionsBound(init, p);
      MulSucc(|init|, p);
    }
  }

  /** What each line yields. */
  function Results(lines: seq<string>, l: nat): (r: seq<Option<int>>)
    ensures |r| == |lines|
  {
    seq(|lines|, k requires 0 <= k < |lines| => Largest(lines[k], l))
  }

  /** `sum(largest_after_deletions(x, l) for x in data)`. */
  function Answer(lines: seq<string>, l: nat): Option<int> {
    SumOptions(Results(lines, l))
  }

  /** Lines of at least `l >= 1` digits always give an answer, and it is
      below `|lines| * 10^l`. */
  lemma AnswerBound(lines: seq<string>, l: nat)
    requires 1 <= l
    requires forall k :: 0 <= k < |lines| ==> AllDigits(lines[k]) && l <= |lines[k]|
    ensures Answer(lines, l).Some?
    ensures lines == [] || 0 <= Answer(lines, l).value < |lines| * Pow10(l)
  {
    var vs := Results(lines, l);
    forall k | 0 <= k < |vs| ensures vs[k].Some? && 0 <= vs[k].value < Pow10(l) {
      LargestDigits(lines[k], l);
    }
    SumOptionsBound(vs, Pow10(l));
  }

  /** An empty line, or any line `int` rejects, makes the answer an error. */
  lemma AnswerError(lines: seq<string>, l: nat, k: nat)
    requires k < |lines| && Largest(lines[k], l).None?
    ensures Answer(lines, l).None?
  {
    var vs := Results(lines, l);
    assert vs[k] == Largest(lines[k], l);
    SumOptionsNone(vs, k);
  }

  /** The generator inside `sum`, with the method standing in for each call. */
  method SumLargest(lines: seq<string>, l: nat) returns (r: Option<int>)
    ensures r == Answer(lines, l)
  {
    ghost var vs := Results(lines, l);
    var total := 0;
    for k := 0 to |lines|
      invariant SumOptions(vs[..k]) == Some(total)
    {
      var v := LargestAfterDeletions(lines[k], l);
      assert vs[k] == v;
      if v.None? {
        SumOptionsNone(vs, k);
        return None;
      }
      SumOptionsStep(vs, k, total);
      total := total + v.value;
    }
    assert vs[..|lines|] == vs;
    r := Some(total);
  }

  method Part1(lines: seq<string>) returns (r: Option<int>)
    ensures r == Answer(lines, 2)
  {
    r := SumLargest(lines, 2);
  }

  method Part2(lines: seq<string>) returns (r: Option<int>)
    ensures r == Answer(lines, 12)
  {
    r := SumLargest(lines, 12);
  }
}
