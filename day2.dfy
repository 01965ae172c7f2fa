/** Day 2: ranges of product ids; an id is invalid when its decimal form is a
    block of digits repeated. Part 1 only looks at two equal halves, part 2
    at any block repeated at least twice. Each answer is the sum of the
    invalid ids. */
module Day2 {
  import opened Common

  datatype IdRange = IdRange(start: int, end: int)

  // ---------------------------------------------------------------------
  // process_data
  // ---------------------------------------------------------------------

  /** The stripped lines, concatenated. */
  function JoinStripped(lines: seq<string>): string {
    if lines == [] then "" else Strip(lines[0]) + JoinStripped(lines[1..])
  }

  /** One "a-b" field. A field that does not split into exactly two numbers
      is an error: `int` rejects a bad number here, and unpacking `start, end`
      rejects a wrong count when the parts run. */
  function ParseRange(field: string): Option<IdRange> {
    var f := Split(field, '-');
    if |f| != 2 then None
    else match (ParseInt(f[0]), ParseInt(f[1]))
      case (Some(a), Some(b)) => Some(IdRange(a, b))
      case _ => None
  }

  function ParseRanges(fields: seq<string>): (r: Option<seq<IdRange>>)
    ensures r.Some? <==> forall k :: 0 <= k < |fields| ==> ParseRange(fields[k]).Some?
    ensures r.Some? ==> |r.value| == |fields|
    ensures r.Some? ==> forall k :: 0 <= k < |fields| ==> ParseRange(fields[k]) == Some(r.value[k])
  {
    if forall k :: 0 <= k < |fields| ==> ParseRange(fields[k]).Some? then
      Some(seq(|fields|, k requires 0 <= k < |fields| => ParseRange(fields[k]).value))
    else None
  }

  /** `process_data`: the lines are stripped and joined, then split at
      commas into "a-b" fields. */
  function ProcessData(lines: seq<string>): (r: Option<seq<IdRange>>)
    ensures r.Some? ==> |r.value| == |Split(JoinStripped(lines), ',')| >= 1
  {
    ParseRanges(Split(JoinStripped(lines), ','))
  }

  /** How the puzzle writes one range of non-negative ids. */
  function FormatRange(r: IdRange): string
    requires r.start >= 0 && r.end >= 0
  {
    NatToStr(r.start) + "-" + NatToStr(r.end)
  }

  function FormatRanges(rs: seq<IdRange>): (r: seq<string>)
    requires forall k :: 0 <= k < |rs| ==> rs[k].start >= 0 && rs[k].end >= 0
    ensures |r| == |rs| && forall k :: 0 <= k < |rs| ==> r[k] == FormatRange(rs[k])
  {
    seq(|rs|, k requires 0 <= k < |rs| => FormatRange(rs[k]))
  }

  lemma DigitsHaveNo(d: string, c: char)
    requires AllDigits(d) && !IsDigit(c)
    ensures c !in d
  {
  }

  lemma ParseFormatRange(r: IdRange)
    requires r.start >= 0 && r.end >= 0
    ensures ParseRange(FormatRange(r)) == Some(r)
    ensures ',' !in FormatRange(r)
  {
    var a, b := NatToStr(r.start), NatToStr(r.end);
    DigitsHaveNo(a, '-');
    DigitsHaveNo(b, '-');
    DigitsHaveNo(a, ',');
    DigitsHaveNo(b, ',');
    SplitWord(a, b, '-');
    SplitNoSep(b, '-');
    assert FormatRange(r) == a + ['-'] + b;
    ParseNatToStr(r.start);
    ParseNatToStr(r.end);
  }

  /** Reading back the written ranges, as one line, gives the ranges. */
  lemma ProcessFormatted(rs: seq<IdRange>)
    requires rs != []
    requires forall k :: 0 <= k < |rs| ==> rs[k].start >= 0 && rs[k].end >= 0
    ensures ProcessData([Join(FormatRanges(rs), ',')]) == Some(rs)
  {
    var fields := FormatRanges(rs);
    var line := Join(fields, ',');
    StrippedJoin(rs);
    JoinStrippedOne(line);
    assert JoinStripped([line]) == line;
    FormattedSplit(rs);
    assert Split(line, ',') == fields;
    ParseFormatted(rs);
  }

  lemma JoinStrippedOne(line: string)
    ensures JoinStripped([line]) == Strip(line)
  {
    assert [line][1..] == [];
  }

  /** The written line has no whitespace at either end. */
  lemma StrippedJoin(rs: seq<IdRange>)
    requires rs != []
    requires forall k :: 0 <= k < |rs| ==> rs[k].start >= 0 && rs[k].end >= 0
    ensures Strip(Join(FormatRanges(rs), ',')) == Join(FormatRanges(rs), ',')
  {
    FormattedEnds(rs);
    JoinStrippedDigits(FormatRanges(rs));
  }

  lemma JoinStrippedDigits(fields: seq<string>)
    requires fields != []
    requires forall k :: 0 <= k < |fields| ==> DigitEnds(fields[k])
    ensures Strip(Join(fields, ',')) == Join(fields, ',')
  {
    var line := Join(fields, ',');
    JoinEnds(fields);
    DigitEndsStripped(line);
  }

  lemma DigitEndsStripped(line: string)
    requires DigitEnds(line)
    ensures Strip(line) == line
  {
    DigitNotSpace(line[0]);
    DigitNotSpace(line[|line| - 1]);
    StripEnds(line);
  }

  /** Splitting the written line at commas gives the written ranges. */
  lemma FormattedSplit(rs: seq<IdRange>)
    requires rs != []
    requires forall k :: 0 <= k < |rs| ==> rs[k].start >= 0 && rs[k].end >= 0
    ensures Split(Join(FormatRanges(rs), ','), ',') == FormatRanges(rs)
  {
    var fields := FormatRanges(rs);
    forall k | 0 <= k < |rs| ensures ',' !in fields[k] {
      ParseFormatRange(rs[k]);
    }
    SplitJoin(fields, ',');
  }

  lemma ParseFormatted(rs: seq<IdRange>)
    requires forall k :: 0 <= k < |rs| ==> rs[k].start >= 0 && rs[k].end >= 0
    ensures ParseRanges(FormatRanges(rs)) == Some(rs)
  {
    var fields := FormatRanges(rs);
    forall k | 0 <= k < |rs| ensures ParseRange(fields[k]) == Some(rs[k]) {
      ParseFormatRange(rs[k]);
    }
    var r := ParseRanges(fields);
    assert r.Some?;
    assert r.value == rs;
  }

  lemma FormattedEnds(rs: seq<IdRange>)
    requires forall k :: 0 <= k < |rs| ==> rs[k].start >= 0 && rs[k].end >= 0
    ensures var fields := FormatRanges(rs); forall k :: 0 <= k < |fields| ==> DigitEnds(fields[k])
  {
    var fields := FormatRanges(rs);
    forall k | 0 <= k < |fields| ensures DigitEnds(fields[k]) {
      var a, b := NatToStr(rs[k].start), NatToStr(rs[k].end);
      assert fields[k] == a + "-" + b;
      assert fields[k][0] == a[0];
      assert fields[k][|fields[k]| - 1] == b[|b| - 1];
    }
  }

  /** A join of written ranges starts and ends with a digit. */
  lemma JoinEnds(fields: seq<string>)
    requires fields != []
    requires forall k :: 0 <= k < |fields| ==> DigitEnds(fields[k])
    ensures DigitEnds(Join(fields, ','))
  {
    if |fields| > 1 {
      JoinEnds(fields[1..]);
    }
  }

  /** Starts and ends with a digit. */
  predicate DigitEnds(f: string) {
    f != [] && IsDigit(f[0]) && IsDigit(f[|f| - 1])
  }

  // ---------------------------------------------------------------------
  // The two notions of an invalid id
  // ---------------------------------------------------------------------

  /** Part 1: an even number of digits whose two halves are equal. */
  predicate IsDoubled(s: string) {
    |s| % 2 == 0 && s[..|s| / 2] == s[|s| / 2..]
  }

  /** `[s[j : j + c] for j in range(0, len(s), c)]`; the last slice may be short. */
  function ChunkSeq(s: string, c: nat): (r: seq<string>)
    requires c >= 1
    ensures s != [] ==> r != [] && r[0] == s[..if |s| < c then |s| else c]
    decreases |s|
  {
    if s == [] then []
    else if |s| <= c then [s]
    else [s[..c]] + ChunkSeq(s[c..], c)
  }

  /** The set comprehension of `count_bad_ids`. */
  function ChunkSet(s: string, c: nat): set<string>
    requires c >= 1
  {
    set x | x in ChunkSeq(s, c)
  }

  /** Part 2 with a smallest chunk size `m`: some chunk size `c` from `m` to
      half the length divides the length, and all chunks of size `c` are equal. */
  predicate HasRepeatedChunks(s: string, m: nat)
    requires m >= 1
  {
    exists c :: m <= c <= |s| / 2 && |s| % c == 0 && |ChunkSet(s, c)| == 1
  }

  /** `s` is `b` written one or more times. */
  predicate IsRepeatOf(s: string, b: string)
    decreases |s|
  {
    |b| >= 1 && b <= s && (|s| == |b| || IsRepeatOf(s[|b|..], b))
  }

  /** How `count_bad_ids` decides that an id is invalid. */
  datatype Rule = Halves | Chunks(minChunk: nat -> nat)

  ghost predicate ValidRule(rule: Rule) {
    rule.Chunks? ==> forall l: nat :: rule.minChunk(l) >= 1
  }

  predicate Invalid(rule: Rule, i: int)
    requires ValidRule(rule)
  {
    var s := IntToStr(i);
    match rule
    case Halves => IsDoubled(s)
    case Chunks(m) => HasRepeatedChunks(s, m(|s|))
  }

  /** The sum of the invalid ids in `[lo, hi]`; 0 when `lo > hi`. */
  function Between(rule: Rule, lo: int, hi: int): int
    requires ValidRule(rule)
    decreases hi - lo
  {
    if hi < lo then 0 else Between(rule, lo, hi - 1) + (if Invalid(rule, hi) then hi else 0)
  }

  /** The sum over all the ranges. */
  function Total(rule: Rule, ranges: seq<IdRange>): int
    requires ValidRule(rule)
  {
    if ranges == [] then 0
    else
      var last := ranges[|ranges| - 1];
      Total(rule, ranges[..|ranges| - 1]) + Between(rule, last.start, last.end)
  }

  // ---------------------------------------------------------------------
  // part_1, count_bad_ids, part_2
  // ---------------------------------------------------------------------

  /** `part_1`: the nested loops over the ranges and their ids. */
  method Part1(ranges: seq<IdRange>) returns (total: int)
    ensures total == Total(Halves, ranges)
  {
    total := 0;
    for r := 0 to |ranges|
      invariant total == Total(Halves, ranges[..r])
    {
      var sum := SumDoubled(ranges[r].start, ranges[r].end);
      total := total + sum;
      assert ranges[..r + 1][..r] == ranges[..r];
    }
    assert ranges[..|ranges|] == ranges;
  }

  /** The inner loop of `part_1` over the ids of one range, with its `continue`. */
  method SumDoubled(start: int, end: int) returns (sum: int)
    ensures sum == Between(Halves, start, end)
  {
    sum := 0;
    var i := start;
    while i <= end
      invariant start <= i && (i <= end + 1 || i == start)
      invariant sum == Between(Halves, start, i - 1)
    {
      var s := IntToStr(i);
      var l := |s|;
      HalvesStep(start, i);
      if l % 2 != 0 {
        i := i + 1;
        continue;
      }
      if s[..l / 2] == s[l / 2..] {
        sum := sum + i;
      }
      i := i + 1;
    }
  }

  /** One more id of a range under part 1's rule. */
  lemma HalvesStep(start: int, i: int)
    requires start <= i
    ensures Between(Halves, start, i) ==
      Between(Halves, start, i - 1) + (if IsDoubled(IntToStr(i)) then i else 0)
  {
  }

  /** The chunk-size loop of `count_bad_ids` for one id, with its `continue`
      and its `break`. */
  method IsBadId(s: string, minChunk: nat) returns (bad: bool)
    requires minChunk >= 1
    ensures bad == HasRepeatedChunks(s, minChunk)
  {
    var l := |s|;
    var c := minChunk;
    while c <= l / 2
      invariant minChunk <= c
      invariant forall c' :: minChunk <= c' < c && c' <= l / 2 ==> !(l % c' == 0 && |ChunkSet(s, c')| == 1)
    {
      if l % c != 0 {
        c := c + 1;
        continue;
      }
      var chunks := ChunkSet(s, c);
      if |chunks| == 1 {
        return true;
      }
      c := c + 1;
    }
    return false;
  }

  /** `count_bad_ids`: each id is added at most once, however many chunk
      sizes work for it. */
  method CountBadIds(ranges: seq<IdRange>, minChunk: nat -> nat) returns (total: int)
    requires forall l: nat :: minChunk(l) >= 1
    ensures total == Total(Chunks(minChunk), ranges)
  {
    var rule := Chunks(minChunk);
    total := 0;
    for r := 0 to |ranges|
      invariant total == Total(rule, ranges[..r])
    {
      var start, end := ranges[r].start, ranges[r].end;
      ghost var before := total;
      var i := start;
      while i <= end
        invariant start <= i && (i <= end + 1 || i == start)
        invariant total == before + Between(rule, start, i - 1)
      {
        var s := IntToStr(i);
        var bad := IsBadId(s, minChunk(|s|));
        if bad {
          total := total + i;
        }
        i := i + 1;
      }
      assert ranges[..r + 1][..r] == ranges[..r];
    }
    assert ranges[..|ranges|] == ranges;
  }

  /** `min_chunk_size = lambda x: 1`. */
  const AnyChunk: nat -> nat := (_: nat) => 1

  method Part2(ranges: seq<IdRange>) returns (total: int)
    ensures total == Total(Chunks(AnyChunk), ranges)
  {
    total := CountBadIds(ranges, AnyChunk);
  }

  // ---------------------------------------------------------------------
  // What the two rules mean
  // ---------------------------------------------------------------------

  /** A set drawn from a non-empty sequence has one element exactly when all
      the elements equal the first. */
  lemma SingletonSet(cs: seq<string>)
    requires cs != []
    ensures |(set x | x in cs)| == 1 <==> forall k :: 0 <= k < |cs| ==> cs[k] == cs[0]
  {
    var S := set x | x in cs;
    if forall k :: 0 <= k < |cs| ==> cs[k] == cs[0] {
      assert S == {cs[0]};
    } else {
      var k :| 0 <= k < |cs| && cs[k] != cs[0];
      assert cs[k] in S - {cs[0]};
      assert |S - {cs[0]}| == |S| - 1;
    }
  }

  /** Every element of `cs` is `b`. */
  predicate AllEqualTo(cs: seq<string>, b: string) {
    forall k :: 0 <= k < |cs| ==> cs[k] == b
  }

  lemma AllEqualCons(x: string, rest: seq<string>, b: string)
    ensures AllEqualTo([x] + rest, b) <==> x == b && AllEqualTo(rest, b)
  {
    var cs := [x] + rest;
    if AllEqualTo(cs, b) {
      assert cs[0] == x;
      forall k | 0 <= k < |rest| ensures rest[k] == b {
        assert cs[k + 1] == rest[k];
      }
    }
    if x == b && AllEqualTo(rest, b) {
      forall k | 0 <= k < |cs| ensures cs[k] == b {
        if k > 0 {
          assert cs[k] == rest[k - 1];
        }
      }
    }
  }

  /** All chunks of size `|b|` equal `b` exactly when `s` is `b` repeated. */
  lemma {:induction false} ChunksAllEqual(s: string, b: string)
    requires |b| >= 1 && s != []
    ensures AllEqualTo(ChunkSeq(s, |b|), b) <==> IsRepeatOf(s, b)
    decreases |s|
  {
    var c := |b|;
    if |s| > c {
      var t := s[c..];
      ChunksAllEqual(t, b);
      assert ChunkSeq(s, c) == [s[..c]] + ChunkSeq(t, c);
      AllEqualCons(s[..c], ChunkSeq(t, c), b);
      assert (b <= s) == (s[..c] == b);
    } else {
      assert ChunkSeq(s, c) == [s];
      assert (b <= s) == (s == b);
    }
  }

  lemma ModShift(x: nat, m: nat)
    requires m >= 1
    ensures (x + m) % m == x % m
  {
    var q, r := x / m, x % m;
    var q', r' := (x + m) / m, (x + m) % m;
    assert x == q * m + r;
    assert x + m == q' * m + r';
    var k := q' - q - 1;
    assert k * m == q' * m - q * m - m;
    assert k * m == r - r';
  }

  /** A repetition of `b` has a multiple of `|b|` as its length, and at
      least twice `|b|` when `b` is not the whole of it. */
  lemma {:induction false} RepeatLength(s: string, b: string)
    requires IsRepeatOf(s, b)
    ensures |s| % |b| == 0
    ensures |s| > |b| ==> |s| >= 2 * |b|
    decreases |s|
  {
    if |s| > |b| {
      RepeatLength(s[|b|..], b);
      ModShift(|s| - |b|, |b|);
    }
  }

  lemma RepeatedFromChunks(s: string, c: nat)
    requires 1 <= c <= |s| / 2 && |s| % c == 0 && |ChunkSet(s, c)| == 1
    ensures |s[..c]| < |s| && IsRepeatOf(s, s[..c])
  {
    SingletonSet(ChunkSeq(s, c));
    ChunksAllEqual(s, s[..c]);
  }

  lemma ChunksFromRepeated(s: string, b: string)
    requires |b| < |s| && IsRepeatOf(s, b)
    ensures 1 <= |b| <= |s| / 2 && |s| % |b| == 0 && |ChunkSet(s, |b|)| == 1
  {
    RepeatLength(s, b);
    ChunksAllEqual(s, b);
    var cs := ChunkSeq(s, |b|);
    assert cs[0] == b;
    assert forall k :: 0 <= k < |cs| ==> cs[k] == cs[0];
    SingletonSet(cs);
  }

  /** Part 2's rule, stated outright: an id is invalid exactly when its
      digits are some shorter block repeated, that is, at least twice. */
  lemma AnyChunkMeaning(i: int)
    ensures Invalid(Chunks(AnyChunk), i) <==>
      exists b :: |b| < |IntToStr(i)| && IsRepeatOf(IntToStr(i), b)
  {
    var s := IntToStr(i);
    assert AnyChunk(|s|) == 1;
    if HasRepeatedChunks(s, 1) {
      var c :| 1 <= c <= |s| / 2 && |s| % c == 0 && |ChunkSet(s, c)| == 1;
      RepeatedFromChunks(s, c);
    }
    if exists b :: |b| < |s| && IsRepeatOf(s, b) {
      var b :| |b| < |s| && IsRepeatOf(s, b);
      ChunksFromRepeated(s, b);
    }
  }

  /** A one-digit id is never invalid under part 2's rule. */
  lemma OneDigitValid(i: int)
    requires 0 <= i < 10
    ensures !Invalid(Chunks(AnyChunk), i)
  {
    assert |IntToStr(i)| == 1;
  }

  /** A doubled string falls into exactly two chunks of half its length, both the same. */
  lemma DoubledChunks(s: string)
    requires |s| >= 2 && IsDoubled(s)
    ensures ChunkSet(s, |s| / 2) == {s[..|s| / 2]}
  {
    var c := |s| / 2;
    assert ChunkSeq(s[c..], c) == [s[c..]];
    assert ChunkSeq(s, c) == [s[..c], s[c..]];
  }

  /** Every id invalid for part 1 is invalid for part 2 (chunk size half the length). */
  lemma DoubledIsRepeated(i: int)
    ensures Invalid(Halves, i) ==> Invalid(Chunks(AnyChunk), i)
  {
    var s := IntToStr(i);
    if IsDoubled(s) {
      DoubledHasChunks(s);
      assert AnyChunk(|s|) == 1;
    }
  }

  lemma DoubledHasChunks(s: string)
    requires s != [] && IsDoubled(s)
    ensures HasRepeatedChunks(s, 1)
  {
    assert |s| >= 2;
    DoubledChunks(s);
    HalfDivides(|s|);
    RepeatedAt(s, 1, |s| / 2);
  }

  /** An even length of at least 2 is a multiple of its half. */
  lemma HalfDivides(n: nat)
    requires n >= 2 && n % 2 == 0
    ensures n / 2 >= 1 && n % (n / 2) == 0
  {
    var c := n / 2;
    assert n == c * 2;
  }

  /** One chunk size that works is enough. */
  lemma RepeatedAt(s: string, m: nat, c: nat)
    requires 1 <= m <= c <= |s| / 2 && |s| % c == 0 && |ChunkSet(s, c)| == 1
    ensures HasRepeatedChunks(s, m)
  {
  }

  lemma {:induction false} BetweenMonotone(lo: int, hi: int)
    requires lo >= 0
    ensures Between(Halves, lo, hi) <= Between(Chunks(AnyChunk), lo, hi)
    decreases hi - lo
  {
    if hi >= lo {
      BetweenMonotone(lo, hi - 1);
      DoubledIsRepeated(hi);
    }
  }

  /** Over ranges of non-negative ids, part 1's answer is at most part 2's. */
  lemma {:induction false} Part1AtMostPart2(ranges: seq<IdRange>)
    requires forall k :: 0 <= k < |ranges| ==> ranges[k].start >= 0
    ensures Total(Halves, ranges) <= Total(Chunks(AnyChunk), ranges)
  {
    if ranges != [] {
      var last := ranges[|ranges| - 1];
      Part1AtMostPart2(ranges[..|ranges| - 1]);
      BetweenMonotone(last.start, last.end);
    }
  }

  /** A range whose start is past its end contributes nothing. */
  lemma EmptyRange(rule: Rule, ranges: seq<IdRange>, r: IdRange)
    requires ValidRule(rule) && r.start > r.end
    ensures Total(rule, ranges + [r]) == Total(rule, ranges)
  {
    assert (ranges + [r])[..|ranges|] == ranges;
  }
}
