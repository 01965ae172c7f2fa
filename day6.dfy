/** Day 6: a worksheet of problems laid out in columns. The last line holds
    the operators; the columns made only of whitespace separate the
    problems. Part 1 reads each problem's numbers row by row, part 2 column
    by column; each answer is the sum of the problems' results. */
module Day6 {
  import opened Common

  /** What `process_data` returns: for each problem the slice of every
      number line, and the operators. */
  datatype Worksheet = Worksheet(blocks: seq<seq<string>>, operators: seq<string>)

  // ---------------------------------------------------------------------
  // The separating columns
  // ---------------------------------------------------------------------

  /** `all(line[i].isspace() for line in data)`: the lines are looked at in
      order and the first non-space character ends the scan, so a line too
      short for `i` is an error only when it is reached. */
  function AllSpaceAt(data: seq<string>, i: nat): Option<bool> {
    if data == [] then Some(true)
    else if i >= |data[0]| then None
    else if !IsSpace(data[0][i]) then Some(false)
    else AllSpaceAt(data[1..], i)
  }

  /** Column `i` is whitespace on every line exactly when the scan says so;
      when every line reaches column `i` the scan does not fail. */
  lemma {:induction false} AllSpaceMeaning(data: seq<string>, i: nat)
    ensures AllSpaceAt(data, i) == Some(true) <==> forall j :: 0 <= j < |data| ==> i < |data[j]| && IsSpace(data[j][i])
    ensures (forall j :: 0 <= j < |data| ==> i < |data[j]|) ==> AllSpaceAt(data, i).Some?
  {
    if data != [] {
      AllSpaceMeaning(data[1..], i);
      assert forall j :: 1 <= j < |data| ==> data[1..][j - 1] == data[j];
    }
  }

  predicate Increasing(xs: seq<int>) {
    forall a, b :: 0 <= a < b < |xs| ==> xs[a] < xs[b]
  }

  /** The columns in `[lo, w)` that are whitespace on every line, in order. */
  function SpaceColumns(data: seq<string>, lo: nat, w: nat): (r: Option<seq<int>>)
    ensures r.Some? ==> Increasing(r.value) && forall k :: 0 <= k < |r.value| ==> lo <= r.value[k] < w
    decreases w - lo
  {
    if lo >= w then Some([])
    else
      match AllSpaceAt(data, lo)
      case None => None
      case Some(b) =>
        match SpaceColumns(data, lo + 1, w)
        case None => None
        case Some(rest) => Some(if b then [lo] + rest else rest)
  }

  /** A column is listed exactly when it is whitespace on every line. */
  lemma {:induction false} SpaceColumnsMember(data: seq<string>, lo: nat, w: nat, i: int)
    requires SpaceColumns(data, lo, w).Some?
    requires lo <= i < w
    ensures i in SpaceColumns(data, lo, w).value <==> AllSpaceAt(data, i) == Some(true)
    decreases w - lo
  {
    if i > lo {
      SpaceColumnsMember(data, lo + 1, w, i);
    }
  }

  /** Every column in `[lo, w)` can be scanned. */
  predicate Scans(data: seq<string>, lo: nat, w: nat) {
    forall i :: lo <= i < w ==> AllSpaceAt(data, i).Some?
  }

  /** The scan fails exactly when some column's scan fails. */
  lemma {:induction false} SpaceColumnsDefined(data: seq<string>, lo: nat, w: nat)
    ensures SpaceColumns(data, lo, w).Some? <==> Scans(data, lo, w)
    decreases w - lo
  {
    if lo < w {
      SpaceColumnsDefined(data, lo + 1, w);
      if Scans(data, lo, w) {
        assert AllSpaceAt(data, lo).Some?;
        assert Scans(data, lo + 1, w);
      } else if AllSpaceAt(data, lo).Some? {
        assert !Scans(data, lo + 1, w);
      }
    }
  }

  /** `[-1] + [...] + [len(data[0])]`. */
  function SplitPoints(data: seq<string>): (r: Option<seq<int>>)
    requires data != []
    ensures r.Some? ==> |r.value| >= 2 && r.value[0] == -1 && forall k :: 1 <= k < |r.value| ==> r.value[k] >= 0
  {
    match SpaceColumns(data, 0, |data[0]|)
    case None => None
    case Some(cols) => Some([-1] + cols + [|data[0]|])
  }

  /** The split points start at -1, end at the width, increase strictly, and
      in between are exactly the all-whitespace columns. */
  lemma SplitPointsShape(data: seq<string>, i: int)
    requires data != [] && SplitPoints(data).Some?
    ensures var sp := SplitPoints(data).value;
      && sp[|sp| - 1] == |data[0]| && Increasing(sp)
      && (0 <= i < |data[0]| ==> (i in sp <==> AllSpaceAt(data, i) == Some(true)))
  {
    var cols := SpaceColumns(data, 0, |data[0]|).value;
    Bracketed(cols, -1, |data[0]|);
    if 0 <= i < |data[0]| {
      SpaceColumnsMember(data, 0, |data[0]|, i);
      var sp := [-1] + cols + [|data[0]|];
      assert i in sp <==> i in cols;
    }
  }

  /** Putting a smaller value in front and a larger one behind keeps a
      sequence increasing. */
  lemma Bracketed(xs: seq<int>, lo: int, hi: int)
    requires lo < hi && Increasing(xs) && forall k :: 0 <= k < |xs| ==> lo < xs[k] < hi
    ensures Increasing([lo] + xs + [hi])
  {
    var ys := [lo] + xs + [hi];
    forall a, b | 0 <= a < b < |ys| ensures ys[a] < ys[b] {
      if b == |ys| - 1 {
        assert ys[b] == hi;
        if a > 0 {
          assert ys[a] == xs[a - 1];
        }
      } else {
        assert ys[b] == xs[b - 1];
        if a > 0 {
          assert ys[a] == xs[a - 1];
        }
      }
    }
  }

  // ---------------------------------------------------------------------
  // The blocks
  // ---------------------------------------------------------------------

  /** Python's `s[a:b]` for `0 <= a`, `0 <= b`: both ends clamped to the
      length, empty when the end is not past the start. */
  function Slice(s: string, a: nat, b: nat): (r: string)
    ensures |r| <= |s|
    ensures |r| == if Min(b, |s|) > Min(a, |s|) then Min(b, |s|) - Min(a, |s|) else 0
    ensures forall j :: 0 <= j < |r| ==> r[j] == s[a + j]
  {
    var lo := if a < |s| then a else |s|;
    var hi := if b < |s| then b else |s|;
    if hi <= lo then [] else s[lo..hi]
  }

  /** `[[line[l + 1 : r] for line in data] for l, r in zip(sp, sp[1:])]`. */
  function Blocks(data: seq<string>, sp: seq<int>): (r: seq<seq<string>>)
    requires |sp| >= 1 && sp[0] == -1 && forall k :: 1 <= k < |sp| ==> sp[k] >= 0
    ensures |r| == |sp| - 1 && forall k :: 0 <= k < |r| ==> |r[k]| == |data|
  {
    seq(|sp| - 1, k requires 0 <= k < |sp| - 1 =>
      seq(|data|, j requires 0 <= j < |data| => Slice(data[j], sp[k] + 1, sp[k + 1])))
  }

  /** `process_data`: the last line, taken off the list, gives the
      operators; the rest are cut into blocks. Popping from no lines, or
      reading `data[0]` when only the operator line was there, is an error. */
  function ProcessData(data: seq<string>): (r: Option<Worksheet>)
    ensures r.Some? ==> |data| >= 2 && forall k :: 0 <= k < |r.value.blocks| ==> |r.value.blocks[k]| == |data| - 1
  {
    if data == [] then None
    else
      var operators := Fields(Strip(data[|data| - 1]));
      var rest := data[..|data| - 1];
      if rest == [] then None
      else
        match SplitPoints(rest)
        case None => None
        case Some(sp) => Some(Worksheet(Blocks(rest, sp), operators))
  }

  /** Processing fails exactly when there is no number line left after the
      operator line is taken off, or some column before the first line's end
      runs past the end of a shorter line before a non-space is seen. */
  lemma ProcessDataDefined(data: seq<string>)
    ensures ProcessData(data).Some? <==>
      |data| >= 2 && Scans(data[..|data| - 1], 0, |data[0]|)
  {
    if |data| >= 2 {
      var rest := data[..|data| - 1];
      SpaceColumnsDefined(rest, 0, |rest[0]|);
      if SpaceColumns(rest, 0, |rest[0]|).Some? {
        forall i | 0 <= i < |rest[0]| ensures AllSpaceAt(rest, i).Some? {
          assert 0 <= i < |rest[0]|;
        }
      }
      assert ProcessData(data).Some? <==> SplitPoints(rest).Some?;
    }
  }

  /** There is one block per gap between split points and one entry per
      number line in each; entry `j` of block `k` is line `j` strictly
      between split points `k` and `k + 1`. */
  lemma ProcessDataBlocks(data: seq<string>, k: nat, j: nat)
    requires ProcessData(data).Some?
    ensures var rest := data[..|data| - 1];
      var sp := SplitPoints(rest).value;
      var ws := ProcessData(data).value;
      && |ws.blocks| == |sp| - 1
      && (k < |ws.blocks| && j < |rest| ==>
            |ws.blocks[k]| == |rest| && ws.blocks[k][j] == Slice(rest[j], sp[k] + 1, sp[k + 1]))
  {
    var rest := data[..|data| - 1];
    var sp := SplitPoints(rest).value;
    assert ProcessData(data).value.blocks == Blocks(rest, sp);
  }

  /** The operators are the whitespace-separated fields of the last line. */
  lemma ProcessDataOperators(data: seq<string>)
    requires ProcessData(data).Some?
    ensures ProcessData(data).value.operators == Fields(data[|data| - 1])
  {
    StripFields(data[|data| - 1]);
  }

  /** `str.split()` ignores surrounding whitespace anyway. */
  lemma {:induction false} StripFields(s: string)
    ensures Fields(Strip(s)) == Fields(s)
  {
    LeftFields(s);
    RightFields(StripLeft(s));
  }

  lemma {:induction false} LeftFields(s: string)
    ensures Fields(StripLeft(s)) == Fields(s)
    decreases |s|
  {
    if s != [] && IsSpace(s[0]) {
      LeftFields(s[1..]);
    }
  }

  /** Trailing whitespace adds no field. */
  lemma {:induction false} RightFields(s: string)
    ensures Fields(StripRight(s)) == Fields(s)
    decreases |s|
  {
    if s != [] && IsSpace(s[|s| - 1]) {
      var t := s[..|s| - 1];
      assert s == t + [s[|s| - 1]];
      RightFields(t);
      TrailingSpace(t, s[|s| - 1]);
    }
  }

  lemma {:induction false} TrailingSpace(t: string, c: char)
    requires IsSpace(c)
    ensures Fields(t + [c]) == Fields(t)
    decreases |t|
  {
    var s := t + [c];
    if t == [] {
      assert s[1..] == [];
    } else if IsSpace(t[0]) {
      assert s[1..] == t[1..] + [c];
      TrailingSpace(t[1..], c);
    } else {
      var w := Word(t);
      WordTrailing(t, c);
      assert s[|w|..] == t[|w|..] + [c];
      TrailingSpace(t[|w|..], c);
    }
  }

  lemma {:induction false} WordTrailing(t: string, c: char)
    requires IsSpace(c)
    ensures Word(t + [c]) == Word(t)
  {
    if t != [] && !IsSpace(t[0]) {
      assert (t + [c])[1..] == t[1..] + [c];
      WordTrailing(t[1..], c);
    }
  }

  // ---------------------------------------------------------------------
  // numbers_and_operator
  // ---------------------------------------------------------------------

  /** `reduce(add, xs)` / `reduce(mul, xs)` from a first value onwards. */
  function FoldFrom(acc: int, xs: seq<int>, times: bool): int
    decreases |xs|
  {
    if xs == [] then acc else FoldFrom(if times then acc * xs[0] else acc + xs[0], xs[1..], times)
  }

  function Product(xs: seq<int>): int {
    if xs == [] then 1 else xs[0] * Product(xs[1..])
  }

  /** Folding with `+` adds `acc` to the sum; folding with `*` multiplies
      `acc` by the product. */
  lemma {:induction false} FoldFromMeaning(acc: int, xs: seq<int>)
    ensures FoldFrom(acc, xs, false) == acc + Sum(xs)
    ensures FoldFrom(acc, xs, true) == acc * Product(xs)
    decreases |xs|
  {
    if xs != [] {
      FoldFromMeaning(acc + xs[0], xs[1..]);
      FoldFromMeaning(acc * xs[0], xs[1..]);
      assert acc * xs[0] * Product(xs[1..]) == acc * (xs[0] * Product(xs[1..]));
    }
  }

  /** `int` of every string, in order; the first that fails fails the lot. */
  function ParseAll(strs: seq<string>): (r: Option<seq<int>>)
    ensures r.Some? <==> forall k :: 0 <= k < |strs| ==> ParseInt(strs[k]).Some?
    ensures r.Some? ==> |r.value| == |strs| && forall k :: 0 <= k < |strs| ==> ParseInt(strs[k]) == Some(r.value[k])
  {
    if forall k :: 0 <= k < |strs| ==> ParseInt(strs[k]).Some? then
      Some(seq(|strs|, k requires 0 <= k < |strs| => ParseInt(strs[k]).value))
    else None
  }

  /** `numbers_and_operator`: an operator other than "+" and "*" is not in
      the table, a string `int` rejects is an error, and `reduce` of nothing
      with no initial value is an error. */
  function NumbersAndOperator(strs: seq<string>, operator: string): (r: Option<int>)
    ensures r.Some? ==> (operator == "+" || operator == "*") && strs != [] && ParseAll(strs).Some?
  {
    if operator != "+" && operator != "*" then None
    else
      match ParseAll(strs)
      case None => None
      case Some(xs) =>
        if xs == [] then None
        else Some(FoldFrom(xs[0], xs[1..], operator == "*"))
  }

  /** A block yields a value exactly for a known operator over a non-empty, fully readable block. */
  lemma OperatorDefined(strs: seq<string>, operator: string)
    ensures NumbersAndOperator(strs, operator).Some? <==>
      (operator == "+" || operator == "*") && strs != [] && ParseAll(strs).Some?
  {
    var p := ParseAll(strs);
    if p.Some? {
      assert |p.value| == |strs|;
    }
  }

  /** With every number readable, "+" folds to the sum and "*" to the product. */
  lemma OperatorMeaning(strs: seq<string>, operator: string)
    requires strs != [] && ParseAll(strs).Some?
    ensures operator == "+" ==> NumbersAndOperator(strs, operator) == Some(Sum(ParseAll(strs).value))
    ensures operator == "*" ==> NumbersAndOperator(strs, operator) == Some(Product(ParseAll(strs).value))
  {
    var xs := ParseAll(strs).value;
    assert |xs| == |strs|;
    FoldFirst(xs);
    assert "+"[0] != "*"[0];
  }

  /** `reduce` without an initial value starts from the first element. */
  lemma FoldFirst(xs: seq<int>)
    requires xs != []
    ensures FoldFrom(xs[0], xs[1..], false) == Sum(xs)
    ensures FoldFrom(xs[0], xs[1..], true) == Product(xs)
  {
    FoldFromMeaning(xs[0], xs[1..]);
  }

  // ---------------------------------------------------------------------
  // part_1 and part_2
  // ---------------------------------------------------------------------

  function Min(a: nat, b: nat): nat {
    if a < b then a else b
  }

  /** `zip(numbers, operators)`: as many problems as the shorter list has. */
  function Results(blocks: seq<seq<string>>, operators: seq<string>, read: seq<string> -> seq<string>): (r: seq<Option<int>>)
    ensures |r| == Min(|blocks|, |operators|)
    ensures forall k :: 0 <= k < |r| ==> r[k] == NumbersAndOperator(read(blocks[k]), operators[k])
  {
    seq(Min(|blocks|, |operators|), k requires 0 <= k < Min(|blocks|, |operators|) =>
      NumbersAndOperator(read(blocks[k]), operators[k]))
  }

  /** Part 1 reads each block's entries as they are. */
  function Rows(block: seq<string>): seq<string> {
    block
  }

  function Part1(ws: Worksheet): (r: Option<int>)
    ensures r.Some? <==> forall k :: 0 <= k < Min(|ws.blocks|, |ws.operators|) ==> NumbersAndOperator(ws.blocks[k], ws.operators[k]).Some?
  {
    SumResults(ws.blocks, ws.operators, Rows);
    SumOptions(Results(ws.blocks, ws.operators, Rows))
  }

  /** `zip(*num)`: the characters of the entries, column by column, as far as
      the shortest entry; no entries give no columns. */
  function Columns(block: seq<string>): (r: seq<string>)
    ensures block == [] ==> r == []
    ensures block != [] ==> |r| == MinLength(block)
    ensures forall c, j :: 0 <= c < |r| && 0 <= j < |block| ==> |r[c]| == |block| && c < |block[j]| && r[c][j] == block[j][c]
  {
    if block == [] then []
    else
      var n := MinLength(block);
      seq(n, c requires 0 <= c < n => seq(|block|, j requires 0 <= j < |block| => block[j][c]))
  }

  function MinLength(block: seq<string>): (n: nat)
    requires block != []
    ensures forall j :: 0 <= j < |block| ==> n <= |block[j]|
    ensures exists j :: 0 <= j < |block| && n == |block[j]|
  {
    if |block| == 1 then |block[0]|
    else
      var m := MinLength(block[1..]);
      assert forall j :: 1 <= j < |block| ==> block[1..][j - 1] == block[j];
      if |block[0]| < m then |block[0]| else m
  }

  /** Part 2 reads each block column by column. */
  function Part2(ws: Worksheet): (r: Option<int>)
    ensures r.Some? <==> forall k :: 0 <= k < Min(|ws.blocks|, |ws.operators|) ==> NumbersAndOperator(Columns(ws.blocks[k]), ws.operators[k]).Some?
  {
    SumResults(ws.blocks, ws.operators, Columns);
    SumOptions(Results(ws.blocks, ws.operators, Columns))
  }

  /** Reading columns twice gives back a block whose entries all have one
      length. */
  lemma ColumnsTwice(block: seq<string>)
    requires block != [] && MinLength(block) > 0
    requires forall j :: 0 <= j < |block| ==> |block[j]| == |block[0]|
    ensures Columns(Columns(block)) == block
  {
    var cs := Columns(block);
    var back := Columns(cs);
    assert MinLength(cs) == |block| by {
      var j :| 0 <= j < |cs| && MinLength(cs) == |cs[j]|;
    }
    assert |back| == |block|;
    forall j | 0 <= j < |block| ensures back[j] == block[j] {
      assert |back[j]| == |cs| == |block[j]|;
    }
  }

  /** Each part is an error exactly when one of the problems zipped with an
      operator is; otherwise it is the sum of their results. */
  lemma PartsMeaning(ws: Worksheet)
    ensures var n := Min(|ws.blocks|, |ws.operators|);
      Part1(ws).Some? <==> forall k :: 0 <= k < n ==> NumbersAndOperator(ws.blocks[k], ws.operators[k]).Some?
    ensures var n := Min(|ws.blocks|, |ws.operators|);
      Part2(ws).Some? <==> forall k :: 0 <= k < n ==> NumbersAndOperator(Columns(ws.blocks[k]), ws.operators[k]).Some?
    ensures Part1(ws).Some? ==> Part1(ws) == Some(Sum(Values(Results(ws.blocks, ws.operators, Rows))))
    ensures Part2(ws).Some? ==> Part2(ws) == Some(Sum(Values(Results(ws.blocks, ws.operators, Columns))))
  {
    SumResults(ws.blocks, ws.operators, Rows);
    SumResults(ws.blocks, ws.operators, Columns);
  }

  /** The sum over the problems, whichever way their entries are read. */
  lemma SumResults(blocks: seq<seq<string>>, operators: seq<string>, read: seq<string> -> seq<string>)
    ensures SumOptions(Results(blocks, operators, read)).Some? <==>
      forall k :: 0 <= k < Min(|blocks|, |operators|) ==> NumbersAndOperator(read(blocks[k]), operators[k]).Some?
    ensures SumOptions(Results(blocks, operators, read)).Some? ==>
      SumOptions(Results(blocks, operators, read)) == Some(Sum(Values(Results(blocks, operators, read))))
  {
    var r := Results(blocks, operators, read);
    SumOptionsDefined(r);
    if SumOptions(r).Some? {
      SumOptionsValues(r);
    }
  }

  /** A block beyond the last operator is never looked at: `zip` stops at
      the shorter list. */
  lemma ExtraBlockIgnored(blocks: seq<seq<string>>, extra: seq<string>, operators: seq<string>)
    requires |operators| <= |blocks|
    ensures Part1(Worksheet(blocks + [extra], operators)) == Part1(Worksheet(blocks, operators))
    ensures Part2(Worksheet(blocks + [extra], operators)) == Part2(Worksheet(blocks, operators))
  {
    var b := blocks + [extra];
    assert forall k :: 0 <= k < |blocks| ==> b[k] == blocks[k];
    assert Results(b, operators, Rows) == Results(blocks, operators, Rows);
    assert Results(b, operators, Columns) == Results(blocks, operators, Columns);
  }
}
