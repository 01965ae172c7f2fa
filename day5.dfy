/** Day 5: a list of fresh-ingredient id ranges "a-b", a blank line, then a
    list of ingredient ids. The ranges are sorted and merged; part 1 counts
    the ingredients that lie in some range, part 2 counts the ids the ranges
    cover. */
module Day5 {
  import opened Common
  import opened Day2

  /** What `process_data` returns: the merged ranges and the ingredients. */
  datatype Parsed = Parsed(ranges: seq<IdRange>, ingredients: seq<int>)

  // ---------------------------------------------------------------------
  // Reading the lines
  // ---------------------------------------------------------------------

  /** The lines read one by one: an empty line ends the ranges (and any
      later empty line is skipped); before it every line is a range, after
      it an integer. A line either parse rejects is an error. */
  function ParseLines(lines: seq<string>, inRanges: bool): Option<Parsed>
    decreases |lines|
  {
    if lines == [] then Some(Parsed([], []))
    else if lines[0] == [] then ParseLines(lines[1..], false)
    else
      var rest := ParseLines(lines[1..], inRanges);
      if rest.None? then None
      else if inRanges then
        match ParseRange(lines[0])
        case None => None
        case Some(r) => Some(Parsed([r] + rest.value.ranges, rest.value.ingredients))
      else
        match ParseInt(lines[0])
        case None => None
        case Some(i) => Some(Parsed(rest.value.ranges, [i] + rest.value.ingredients))
  }

  /** After the separator only ingredients are read: the lines parse
      exactly when every non-empty one is an integer, and no range comes
      out of them. */
  lemma {:induction false} IngredientsOnly(b: seq<string>)
    ensures ParseLines(b, false).Some? <==> forall k :: 0 <= k < |b| && b[k] != [] ==> ParseInt(b[k]).Some?
    ensures ParseLines(b, false).Some? ==> ParseLines(b, false).value.ranges == []
    decreases |b|
  {
    if b != [] {
      IngredientsOnly(b[1..]);
      assert forall k :: 1 <= k < |b| ==> b[1..][k - 1] == b[k];
    }
  }

  /** `ParseRanges` one field at a time. */
  lemma ParseRangesCons(a: seq<string>)
    requires a != []
    ensures ParseRanges(a) ==
      if ParseRange(a[0]).Some? && ParseRanges(a[1..]).Some?
      then Some([ParseRange(a[0]).value] + ParseRanges(a[1..]).value) else None
  {
    var tail := a[1..];
    if ParseRange(a[0]).None? {
      assert ParseRanges(a).None?;
    } else if ParseRanges(tail).None? {
      var k :| 0 <= k < |tail| && ParseRange(tail[k]).None?;
      assert ParseRange(a[k + 1]).None?;
    } else {
      forall k | 1 <= k < |a| ensures ParseRange(a[k]).Some? {
        assert a[k] == tail[k - 1];
      }
      var v := ParseRanges(a).value;
      var w := [ParseRange(a[0]).value] + ParseRanges(tail).value;
      forall k | 0 <= k < |v| ensures v[k] == w[k] {
        if k > 0 {
          assert a[k] == tail[k - 1];
        }
      }
      assert v == w;
    }
  }

  /** A file of range lines, the empty separator and then the ingredient
      lines: the ranges are the first section's lines read as "a-b" fields,
      in order, and the ingredients come from the second section; one bad
      line in either section rejects the file. */
  lemma {:induction false} ReadSections(a: seq<string>, b: seq<string>)
    requires forall k :: 0 <= k < |a| ==> a[k] != []
    ensures ParseLines(a + [[]] + b, true) ==
      if ParseRanges(a).Some? && ParseLines(b, false).Some?
      then Some(Parsed(ParseRanges(a).value, ParseLines(b, false).value.ingredients)) else None
    decreases |a|
  {
    var s := a + [[]] + b;
    if a == [] {
      assert s[1..] == b;
      IngredientsOnly(b);
    } else {
      assert s[1..] == a[1..] + [[]] + b;
      ReadSections(a[1..], b);
      ParseRangesCons(a);
    }
  }

  /** The lines of the ingredient ids as the puzzle writes them. */
  function FormatIds(xs: seq<int>): (r: seq<string>)
    ensures |r| == |xs| && forall k :: 0 <= k < |xs| ==> r[k] == IntToStr(xs[k])
  {
    seq(|xs|, k requires 0 <= k < |xs| => IntToStr(xs[k]))
  }

  lemma {:induction false} ReadFormattedIds(xs: seq<int>)
    ensures ParseLines(FormatIds(xs), false) == Some(Parsed([], xs))
    decreases |xs|
  {
    if xs != [] {
      var lines := FormatIds(xs);
      assert lines[1..] == FormatIds(xs[1..]);
      ReadFormattedIds(xs[1..]);
      ParseIntToStr(xs[0]);
      assert [xs[0]] + xs[1..] == xs;
    }
  }

  /** Writing non-negative ranges and ingredient ids out as the puzzle
      does, with an empty line between, and reading them back gives them
      unchanged. */
  lemma ReadFormatted(rs: seq<IdRange>, xs: seq<int>)
    requires forall k :: 0 <= k < |rs| ==> rs[k].start >= 0 && rs[k].end >= 0
    ensures ParseLines(FormatRanges(rs) + [[]] + FormatIds(xs), true) == Some(Parsed(rs, xs))
  {
    var a := FormatRanges(rs);
    forall k | 0 <= k < |a| ensures a[k] != [] {
      assert FormatRange(rs[k]) == NatToStr(rs[k].start) + "-" + NatToStr(rs[k].end);
    }
    ReadSections(a, FormatIds(xs));
    ParseFormatted(rs);
    ReadFormattedIds(xs);
  }

  /** What the loop has collected, in front of what the remaining lines give. */
  function Prepend(rs: seq<IdRange>, ings: seq<int>, o: Option<Parsed>): Option<Parsed> {
    if o.None? then None else Some(Parsed(rs + o.value.ranges, ings + o.value.ingredients))
  }

  // ---------------------------------------------------------------------
  // ranges.sort(): lists compare by start, then by end
  // ---------------------------------------------------------------------

  predicate RangeLe(a: IdRange, b: IdRange) {
    a.start < b.start || (a.start == b.start && a.end <= b.end)
  }

  predicate Sorted(rs: seq<IdRange>) {
    forall i, j :: 0 <= i < j < |rs| ==> RangeLe(rs[i], rs[j])
  }

  function Insert(r: IdRange, rs: seq<IdRange>): (s: seq<IdRange>)
    requires Sorted(rs)
    ensures Sorted(s) && multiset(s) == multiset(rs) + multiset{r}
  {
    if rs == [] then [r]
    else if RangeLe(r, rs[0]) then
      SortedCons(r, rs);
      [r] + rs
    else
      var x, rest := rs[0], rs[1..];
      var t := Insert(r, rest);
      assert rs == [x] + rest;
      forall k | 0 <= k < |t| ensures RangeLe(x, t[k]) {
        assert t[k] in multiset(t);
        if t[k] != r {
          assert t[k] in multiset(rest);
          assert t[k] in rest;
        }
      }
      SortedCons(x, t);
      [x] + t
  }

  lemma SortedCons(x: IdRange, t: seq<IdRange>)
    requires Sorted(t) && (t != [] ==> RangeLe(x, t[0]))
    ensures Sorted([x] + t)
  {
    var s := [x] + t;
    forall i, j | 0 <= i < j < |s| ensures RangeLe(s[i], s[j]) {
      if i == 0 && j > 1 {
        assert RangeLe(t[0], t[j - 1]);
      }
    }
  }

  /** The sorted order of `ranges.sort()`: sorted, and a permutation. */
  function Sort(rs: seq<IdRange>): (s: seq<IdRange>)
    ensures Sorted(s) && multiset(s) == multiset(rs)
  {
    if rs == [] then []
    else
      assert rs == [rs[0]] + rs[1..];
      Insert(rs[0], Sort(rs[1..]))
  }

  // ---------------------------------------------------------------------
  // Merging
  // ---------------------------------------------------------------------

  /** One iteration of the merge loop: a range that starts more than one past
      the last merged end opens a new merged range; any other extends the
      last one. */
  function MergeStep(merged: seq<IdRange>, r: IdRange): seq<IdRange> {
    if merged == [] || merged[|merged| - 1].end < r.start - 1 then merged + [r]
    else
      var last := merged[|merged| - 1];
      merged[|merged| - 1 := IdRange(last.start, if last.end < r.end then r.end else last.end)]
  }

  function Merge(rs: seq<IdRange>): seq<IdRange> {
    if rs == [] then [] else MergeStep(Merge(rs[..|rs| - 1]), rs[|rs| - 1])
  }

  lemma PrependNothing(o: Option<Parsed>)
    ensures Prepend([], [], o) == o
  {
    if o.Some? {
      assert [] + o.value.ranges == o.value.ranges;
      assert [] + o.value.ingredients == o.value.ingredients;
    }
  }

  /** `process_data` as a value. */
  function Processed(lines: seq<string>): Option<Parsed> {
    match ParseLines(lines, true)
    case None => None
    case Some(p) => Some(Parsed(Merge(Sort(p.ranges)), p.ingredients))
  }

  /** The reading loop of `process_data`, with its `in_ranges` flag. */
  method ReadLines(lines: seq<string>) returns (r: Option<Parsed>)
    ensures r == ParseLines(lines, true)
  {
    var ranges: seq<IdRange> := [];
    var ingredients: seq<int> := [];
    var inRanges := true;
    assert lines[0..] == lines;
    PrependNothing(ParseLines(lines, true));
    for k := 0 to |lines|
      invariant ParseLines(lines, true) == Prepend(ranges, ingredients, ParseLines(lines[k..], inRanges))
    {
      assert lines[k..][1..] == lines[k + 1..];
      var line := lines[k];
      if line == [] {
        inRanges := false;
        continue;
      }
      if inRanges {
        var range := ParseRange(line);
        if range.None? {
          return None;
        }
        PrependRange(ranges, ingredients, range.value, ParseLines(lines[k + 1..], inRanges));
        ranges := ranges + [range.value];
      } else {
        var ingredient := ParseInt(line);
        if ingredient.None? {
          return None;
        }
        PrependIngredient(ranges, ingredients, ingredient.value, ParseLines(lines[k + 1..], inRanges));
        ingredients := ingredients + [ingredient.value];
      }
    }
    assert lines[|lines|..] == [];
    assert ranges + [] == ranges && ingredients + [] == ingredients;
    r := Some(Parsed(ranges, ingredients));
  }

  lemma PrependRange(rs: seq<IdRange>, ings: seq<int>, r: IdRange, o: Option<Parsed>)
    ensures o.Some? ==>
      Prepend(rs, ings, Some(Parsed([r] + o.value.ranges, o.value.ingredients))) == Prepend(rs + [r], ings, o)
  {
    if o.Some? {
      assert rs + ([r] + o.value.ranges) == rs + [r] + o.value.ranges;
    }
  }

  lemma PrependIngredient(rs: seq<IdRange>, ings: seq<int>, i: int, o: Option<Parsed>)
    ensures o.Some? ==>
      Prepend(rs, ings, Some(Parsed(o.value.ranges, [i] + o.value.ingredients))) == Prepend(rs, ings + [i], o)
  {
    if o.Some? {
      assert ings + ([i] + o.value.ingredients) == ings + [i] + o.value.ingredients;
    }
  }

  /** The merge loop of `process_data`, which widens the last merged range
      in place. */
  method MergeRanges(sorted: seq<IdRange>) returns (merged: seq<IdRange>)
    ensures merged == Merge(sorted)
  {
    merged := [];
    for k := 0 to |sorted|
      invariant merged == Merge(sorted[..k])
    {
      assert sorted[..k + 1][..k] == sorted[..k];
      var start, end := sorted[k].start, sorted[k].end;
      if merged == [] || merged[|merged| - 1].end < start - 1 {
        merged := merged + [IdRange(start, end)];
      } else {
        var last := merged[|merged| - 1];
        merged := merged[|merged| - 1 := IdRange(last.start, if last.end < end then end else last.end)];
      }
    }
    assert sorted[..|sorted|] == sorted;
  }

  /** `process_data`: read, `ranges.sort()`, merge. */
  method ProcessData(lines: seq<string>) returns (r: Option<Parsed>)
    ensures r == Processed(lines)
  {
    var read := ReadLines(lines);
    if read.None? {
      return None;
    }
    var sorted := Sort(read.value.ranges);
    var merged := MergeRanges(sorted);
    r := Some(Parsed(merged, read.value.ingredients));
  }

  // ---------------------------------------------------------------------
  // What merging guarantees
  // ---------------------------------------------------------------------

  /** Consecutive ranges neither overlap nor touch. */
  predicate Separated(ms: seq<IdRange>) {
    forall i :: 0 <= i < |ms| - 1 ==> ms[i + 1].start > ms[i].end + 1
  }

  predicate Proper(rs: seq<IdRange>) {
    forall i :: 0 <= i < |rs| ==> rs[i].start <= rs[i].end
  }

  predicate In(r: IdRange, x: int) {
    r.start <= x <= r.end
  }

  /** `any(start <= x <= end for start, end in ranges)`. */
  predicate Covered(rs: seq<IdRange>, x: int) {
    exists i :: 0 <= i < |rs| && In(rs[i], x)
  }

  /** Merging never produces more ranges than it was given. */
  lemma {:induction false} MergeShorter(rs: seq<IdRange>)
    ensures |Merge(rs)| <= |rs|
  {
    if rs != [] {
      MergeShorter(rs[..|rs| - 1]);
    }
  }

  /** The merged ranges are separated, whatever the input. */
  lemma {:induction false} MergeSeparated(rs: seq<IdRange>)
    ensures Separated(Merge(rs))
  {
    if rs != [] {
      var m := Merge(rs[..|rs| - 1]);
      MergeSeparated(rs[..|rs| - 1]);
      var n := MergeStep(m, rs[|rs| - 1]);
      forall i | 0 <= i < |n| - 1 ensures n[i + 1].start > n[i].end + 1 {
        if i + 1 < |m| {
          assert n[i] == m[i];
        }
      }
    }
  }

  /** Proper ranges merge into proper ranges. */
  lemma {:induction false} MergeProper(rs: seq<IdRange>)
    requires Proper(rs)
    ensures Proper(Merge(rs))
  {
    if rs != [] {
      var init := rs[..|rs| - 1];
      assert Proper(init) by {
        forall i | 0 <= i < |init| ensures init[i].start <= init[i].end {
          assert init[i] == rs[i];
        }
      }
      MergeProper(init);
    }
  }

  /** Sorted input: the last merged range starts no later than the last
      range read. */
  lemma {:induction false} MergeLastStart(rs: seq<IdRange>)
    requires Sorted(rs) && rs != []
    ensures Merge(rs) != [] && Merge(rs)[|Merge(rs)| - 1].start <= rs[|rs| - 1].start
  {
    var init := rs[..|rs| - 1];
    if init != [] {
      assert Sorted(init);
      MergeLastStart(init);
      assert RangeLe(rs[|rs| - 2], rs[|rs| - 1]);
    }
  }

  /** One merge step covers what the merged ranges covered plus the new
      range, when the new range is proper and starts no earlier than the
      last merged one. */
  lemma StepCoverage(m: seq<IdRange>, r: IdRange, x: int)
    requires r.start <= r.end
    requires m != [] ==> m[|m| - 1].start <= r.start
    ensures Covered(MergeStep(m, r), x) <==> Covered(m, x) || In(r, x)
  {
    var n := MergeStep(m, r);
    if m == [] || m[|m| - 1].end < r.start - 1 {
      if In(r, x) {
        assert In(n[|n| - 1], x);
      }
      if Covered(m, x) {
        var i :| 0 <= i < |m| && In(m[i], x);
        assert n[i] == m[i];
      }
      if Covered(n, x) {
        var i :| 0 <= i < |n| && In(n[i], x);
        if i < |m| {
          assert n[i] == m[i];
        }
      }
    } else {
      var j := |m| - 1;
      assert In(n[j], x) <==> In(m[j], x) || In(r, x);
      if Covered(m, x) {
        var i :| 0 <= i < |m| && In(m[i], x);
        if i < j {
          assert n[i] == m[i];
        } else {
          assert In(n[j], x);
        }
      }
      if In(r, x) {
        assert In(n[j], x);
      }
      if Covered(n, x) {
        var i :| 0 <= i < |n| && In(n[i], x);
        if i < j {
          assert n[i] == m[i];
        }
      }
    }
  }

  /** Sorted proper ranges and their merge cover the same integers. */
  lemma {:induction false} MergeCoverage(rs: seq<IdRange>, x: int)
    requires Sorted(rs) && Proper(rs)
    ensures Covered(Merge(rs), x) <==> Covered(rs, x)
  {
    if rs != [] {
      var init := rs[..|rs| - 1];
      var last := rs[|rs| - 1];
      assert Sorted(init);
      assert Proper(init) by {
        forall i | 0 <= i < |init| ensures init[i].start <= init[i].end {
          assert init[i] == rs[i];
        }
      }
      MergeCoverage(init, x);
      if init != [] {
        MergeLastStart(init);
        assert RangeLe(init[|init| - 1], last);
      }
      StepCoverage(Merge(init), last, x);
      if Covered(rs, x) {
        var i :| 0 <= i < |rs| && In(rs[i], x);
        if i < |init| {
          assert init[i] == rs[i];
        }
      }
      if Covered(init, x) {
        var i :| 0 <= i < |init| && In(init[i], x);
        assert rs[i] == init[i];
      }
    }
  }

  /** Reordering does not change what is covered. */
  lemma PermutationCoverage(a: seq<IdRange>, b: seq<IdRange>, x: int)
    requires multiset(a) == multiset(b)
    ensures Covered(a, x) <==> Covered(b, x)
  {
    if Covered(a, x) {
      var i :| 0 <= i < |a| && In(a[i], x);
      assert a[i] in multiset(b);
      var j :| 0 <= j < |b| && b[j] == a[i];
    }
    if Covered(b, x) {
      var i :| 0 <= i < |b| && In(b[i], x);
      assert b[i] in multiset(a);
      var j :| 0 <= j < |a| && a[j] == b[i];
    }
  }

  lemma SortProper(rs: seq<IdRange>)
    requires Proper(rs)
    ensures Proper(Sort(rs))
  {
    var s := Sort(rs);
    forall i | 0 <= i < |s| ensures s[i].start <= s[i].end {
      assert s[i] in multiset(rs);
    }
  }

  /** Separated proper ranges start in strictly increasing order. */
  lemma SeparatedIncreasing(ms: seq<IdRange>)
    requires Separated(ms) && Proper(ms)
    ensures forall i :: 0 <= i < |ms| - 1 ==> ms[i].start < ms[i + 1].start
  {
  }

  /** What `process_data` returns, when the ranges read are all proper:
      separated ranges in increasing order, and no more than were read. */
  lemma ProcessedShape(lines: seq<string>)
    requires ParseLines(lines, true).Some? && Proper(ParseLines(lines, true).value.ranges)
    ensures Processed(lines).Some?
    ensures var ms := Processed(lines).value.ranges;
      && Separated(ms) && Proper(ms)
      && (forall i :: 0 <= i < |ms| - 1 ==> ms[i].start < ms[i + 1].start)
      && |ms| <= |ParseLines(lines, true).value.ranges|
  {
    MergedShape(ParseLines(lines, true).value.ranges);
  }

  lemma MergedShape(read: seq<IdRange>)
    requires Proper(read)
    ensures var ms := Merge(Sort(read));
      && Separated(ms) && Proper(ms)
      && (forall i :: 0 <= i < |ms| - 1 ==> ms[i].start < ms[i + 1].start)
      && |ms| <= |read|
  {
    var s := Sort(read);
    SortProper(read);
    MergeSeparated(s);
    MergeProper(s);
    SeparatedIncreasing(Merge(s));
    MergeShorter(s);
    assert |s| == |multiset(s)| == |multiset(read)| == |read|;
  }

  /** ... and they cover exactly the integers the ranges read cover. */
  lemma ProcessedCoverage(lines: seq<string>, x: int)
    requires ParseLines(lines, true).Some? && Proper(ParseLines(lines, true).value.ranges)
    ensures Processed(lines).Some?
    ensures Covered(Processed(lines).value.ranges, x) <==> Covered(ParseLines(lines, true).value.ranges, x)
  {
    MergedCoverage(ParseLines(lines, true).value.ranges, x);
  }

  lemma MergedCoverage(read: seq<IdRange>, x: int)
    requires Proper(read)
    ensures Covered(Merge(Sort(read)), x) <==> Covered(read, x)
  {
    var s := Sort(read);
    SortProper(read);
    MergeCoverage(s, x);
    PermutationCoverage(s, read, x);
  }

  // ---------------------------------------------------------------------
  // part_1 and part_2
  // ---------------------------------------------------------------------

  /** `part_1`: how many ingredients, counted with repeats, some range holds. */
  function Part1(ranges: seq<IdRange>, ingredients: seq<int>): (r: nat)
    ensures r <= |ingredients|
  {
    if ingredients == [] then 0
    else (if Covered(ranges, ingredients[0]) then 1 else 0) + Part1(ranges, ingredients[1..])
  }

  /** `part_2`: the sum of the range lengths. */
  function Part2(ranges: seq<IdRange>): (r: int)
    ensures (forall k :: 0 <= k < |ranges| ==> ranges[k].start <= ranges[k].end) ==> r >= |ranges|
  {
    if ranges == [] then 0
    else Part2(ranges[..|ranges| - 1]) + (1 + ranges[|ranges| - 1].end - ranges[|ranges| - 1].start)
  }

  /** Ranges that cover the same integers give the same part 1 answer. */
  lemma {:induction false} Part1SameCover(a: seq<IdRange>, b: seq<IdRange>, ingredients: seq<int>)
    requires forall x :: Covered(a, x) <==> Covered(b, x)
    ensures Part1(a, ingredients) == Part1(b, ingredients)
  {
    if ingredients != [] {
      Part1SameCover(a, b, ingredients[1..]);
    }
  }

  /** Part 1 on the merged ranges counts the ingredients the ranges as read
      hold. */
  lemma Part1Meaning(lines: seq<string>)
    requires ParseLines(lines, true).Some? && Proper(ParseLines(lines, true).value.ranges)
    ensures Processed(lines).Some?
    ensures var p := Processed(lines).value;
      Part1(p.ranges, p.ingredients) == Part1(ParseLines(lines, true).value.ranges, p.ingredients)
  {
    var read := ParseLines(lines, true).value.ranges;
    forall x ensures Covered(Processed(lines).value.ranges, x) <==> Covered(read, x) {
      ProcessedCoverage(lines, x);
    }
    var p := Processed(lines).value;
    Part1SameCover(p.ranges, read, p.ingredients);
  }

  /** The integers a range holds. */
  function Span(r: IdRange): (s: set<int>)
    ensures forall x :: x in s <==> In(r, x)
  {
    set x | r.start <= x <= r.end && In(r, x)
  }

  lemma {:induction false} SpanSize(r: IdRange)
    requires r.start <= r.end
    ensures |Span(r)| == 1 + r.end - r.start
    decreases r.end - r.start
  {
    if r.start < r.end {
      var r' := IdRange(r.start, r.end - 1);
      SpanSize(r');
      assert Span(r) == Span(r') + {r.end};
    } else {
      assert Span(r) == {r.start};
    }
  }

  /** The integers a list of ranges holds. */
  function Cover(rs: seq<IdRange>): (s: set<int>)
    ensures forall x :: x in s <==> Covered(rs, x)
  {
    if rs == [] then {}
    else
      var init := rs[..|rs| - 1];
      var s := Cover(init) + Span(rs[|rs| - 1]);
      assert forall x :: Covered(rs, x) <==> Covered(init, x) || In(rs[|rs| - 1], x) by {
        forall x ensures Covered(rs, x) <==> Covered(init, x) || In(rs[|rs| - 1], x) {
          if Covered(rs, x) {
            var i :| 0 <= i < |rs| && In(rs[i], x);
            if i < |init| {
              assert init[i] == rs[i];
            }
          }
          if Covered(init, x) {
            var i :| 0 <= i < |init| && In(init[i], x);
            assert rs[i] == init[i];
          }
        }
      }
      s
  }

  /** Every integer separated proper ranges hold is at most the last end. */
  lemma {:induction false} CoverBelowLastEnd(ms: seq<IdRange>)
    requires ms != [] && Separated(ms) && Proper(ms)
    ensures forall x :: x in Cover(ms) ==> x <= ms[|ms| - 1].end
  {
    var init := ms[..|ms| - 1];
    if init != [] {
      assert Separated(init) && Proper(init);
      CoverBelowLastEnd(init);
      assert ms[|ms| - 2] == init[|init| - 1];
    }
  }

  /** On separated proper ranges the sum of lengths counts each covered
      integer once. */
  lemma {:induction false} Part2Counts(ms: seq<IdRange>)
    requires Separated(ms) && Proper(ms)
    ensures Part2(ms) == |Cover(ms)|
  {
    if ms != [] {
      var init := ms[..|ms| - 1];
      var last := ms[|ms| - 1];
      assert Separated(init) && Proper(init);
      Part2Counts(init);
      SpanSize(last);
      if init != [] {
        CoverBelowLastEnd(init);
        assert init[|init| - 1] == ms[|ms| - 2];
      }
      assert Cover(init) !! Span(last);
    }
  }

  /** Part 2 on the merged ranges counts the distinct ids the ranges as
      read cover. */
  lemma Part2Meaning(lines: seq<string>)
    requires ParseLines(lines, true).Some? && Proper(ParseLines(lines, true).value.ranges)
    ensures Processed(lines).Some?
    ensures Part2(Processed(lines).value.ranges) == |Cover(ParseLines(lines, true).value.ranges)|
  {
    var read := ParseLines(lines, true).value.ranges;
    var ms := Processed(lines).value.ranges;
    ProcessedShape(lines);
    Part2Counts(ms);
    forall x ensures x in Cover(ms) <==> x in Cover(read) {
      ProcessedCoverage(lines, x);
    }
    assert Cover(ms) == Cover(read);
  }

  // ---------------------------------------------------------------------
  // Lines as `readlines` returns them
  // ---------------------------------------------------------------------

  /** The lines as the harness reads them keep their "\n", so a blank
      separator line is "\n", which is not empty: while ranges are being
      read it is read as a range, and `int` rejects it. Whatever the other
      lines hold, the input is then rejected. */
  lemma {:induction false} RawBlankLineRejected(lines: seq<string>, k: nat)
    requires k < |lines| && lines[k] == "\n"
    requires forall j :: 0 <= j < k ==> lines[j] != []
    ensures ParseLines(lines, true).None?
  {
    if k == 0 {
      SplitNoSep("\n", '-');
      assert ParseRange(lines[0]).None?;
    } else {
      RawBlankLineRejected(lines[1..], k - 1);
    }
  }

  /** The lines with their line ends stripped, which is what the separator
      test needs. */
  function StrippedLines(lines: seq<string>): (r: seq<string>)
    ensures |r| == |lines| && forall k :: 0 <= k < |lines| ==> r[k] == Strip(lines[k])
  {
    seq(|lines|, k requires 0 <= k < |lines| => Strip(lines[k]))
  }

  /** Stripped, the "\n" line is the separator: what follows it is read
      as ingredients. */
  lemma StrippedBlankLineSeparates(lines: seq<string>, k: nat, inRanges: bool)
    requires k < |lines| && lines[k] == "\n"
    ensures var t := StrippedLines(lines);
      ParseLines(t[k..], inRanges) == ParseLines(t[k + 1..], false)
  {
    var t := StrippedLines(lines);
    assert StripLeft("\n") == StripLeft("");
    assert t[k] == [];
    assert t[k..][1..] == t[k + 1..];
  }

  /** A whole file read with its line ends stripped: range lines, the raw
      "\n" separator, then ingredient lines. The ranges are the stripped
      first section read as "a-b" fields and the ingredients come from the
      stripped second section. */
  lemma StrippedFileSections(a: seq<string>, b: seq<string>)
    requires forall k :: 0 <= k < |a| ==> Strip(a[k]) != []
    ensures var sa, sb := StrippedLines(a), StrippedLines(b);
      ParseLines(StrippedLines(a + ["\n"] + b), true) ==
        if ParseRanges(sa).Some? && ParseLines(sb, false).Some?
        then Some(Parsed(ParseRanges(sa).value, ParseLines(sb, false).value.ingredients)) else None
  {
    var sa, sb := StrippedLines(a), StrippedLines(b);
    assert StripLeft("\n") == StripLeft("");
    assert StrippedLines(a + ["\n"] + b) == sa + [[]] + sb;
    ReadSections(sa, sb);
  }
}
