/** Day 4: a grid of paper rolls `@`. A roll can be taken by a forklift when
    fewer than 5 rolls, itself included, lie in its 3-by-3 block. Part 1
    counts the rolls that can be taken; part 2 keeps taking every such roll,
    round after round, until none can be taken, and counts them all. */
module Day4 {
  import opened Common

  type Pos = (int, int)

  /** `process_data`: every line stripped, in order. */
  function ProcessData(lines: seq<string>): (r: seq<string>)
    ensures |r| == |lines| && forall k :: 0 <= k < |r| ==> r[k] == Strip(lines[k])
  {
    StripLines(lines)
  }

  /** The width is that of the first row; `data[0]` and the indexing below
      fail unless there is a row and every row is at least that wide. */
  predicate WellFormed(g: seq<string>) {
    |g| > 0 && forall r :: 0 <= r < |g| ==> |g[0]| <= |g[r]|
  }

  /** A roll stands at `(r, c)`, inside the grid. */
  predicate IsAt(g: seq<string>, r: int, c: int)
    requires WellFormed(g)
  {
    0 <= r < |g| && 0 <= c < |g[0]| && g[r][c] == '@'
  }

  /** `ats`: the positions of the rolls. */
  function Ats(g: seq<string>): set<Pos>
    requires WellFormed(g)
  {
    set r, c | 0 <= r < |g| && 0 <= c < |g[0]| && g[r][c] == '@' :: (r, c)
  }

  lemma AtsMember(g: seq<string>, p: Pos)
    requires WellFormed(g)
    ensures p in Ats(g) <==> IsAt(g, p.0, p.1)
  {
    if IsAt(g, p.0, p.1) {
      assert (p.0, p.1) in Ats(g);
    }
  }

  /** `adjacent_positions`: the 3-by-3 block around `p`, `p` included. */
  function Block(p: Pos): set<Pos> {
    set r, c | p.0 - 1 <= r <= p.0 + 1 && p.1 - 1 <= c <= p.1 + 1 :: (r, c)
  }

  /** The value of `can_remove`. */
  function Removable(g: seq<string>): set<Pos>
    requires WellFormed(g)
  {
    set p | p in Ats(g) && |Ats(g) * Block(p)| < 5
  }

  /** `can_remove`: the loop over `ats` that adds to `ret`. */
  method CanRemove(g: seq<string>) returns (ret: set<Pos>)
    requires WellFormed(g)
    ensures ret == Removable(g)
  {
    var ats := Ats(g);
    ret := {};
    var todo := ats;
    while todo != {}
      invariant todo <= ats
      invariant ret == set p | p in ats - todo && |ats * Block(p)| < 5
      decreases |todo|
    {
      var p :| p in todo;
      var adjacent := Block(p);
      if |ats * adjacent| < 5 {
        ret := ret + {p};
      }
      todo := todo - {p};
    }
  }

  method Part1(g: seq<string>) returns (answer: nat)
    requires WellFormed(g)
    ensures answer == |Removable(g)|
  {
    var removable := CanRemove(g);
    answer := |removable|;
  }

  // ---------------------------------------------------------------------
  // The neighbour count, cell by cell
  // ---------------------------------------------------------------------

  /** The nine positions of a block, row by row. */
  function Neighbourhood(p: Pos): (r: seq<Pos>)
    ensures |r| == 9
  {
    var (a, b) := p;
    [(a - 1, b - 1), (a - 1, b), (a - 1, b + 1),
     (a, b - 1), (a, b), (a, b + 1),
     (a + 1, b - 1), (a + 1, b), (a + 1, b + 1)]
  }

  /** How many of `xs` hold a roll; positions off the grid hold none. */
  function CountAt(g: seq<string>, xs: seq<Pos>): nat
    requires WellFormed(g)
  {
    if xs == [] then 0 else (if IsAt(g, xs[0].0, xs[0].1) then 1 else 0) + CountAt(g, xs[1..])
  }

  function CountIn<T>(xs: seq<T>, s: set<T>): nat {
    if xs == [] then 0 else (if xs[0] in s then 1 else 0) + CountIn(xs[1..], s)
  }

  predicate Distinct<T(==)>(xs: seq<T>) {
    forall i, j :: 0 <= i < j < |xs| ==> xs[i] != xs[j]
  }

  /** The tail of a list without repeats has none either, and lacks the head. */
  lemma DistinctTail<T>(xs: seq<T>)
    requires xs != [] && Distinct(xs)
    ensures Distinct(xs[1..]) && xs[0] !in (set x | x in xs[1..])
  {
    var t := xs[1..];
    forall i, j | 0 <= i < j < |t| ensures t[i] != t[j] {
      assert t[i] == xs[i + 1] && t[j] == xs[j + 1];
    }
    forall j | 0 <= j < |t| ensures t[j] != xs[0] {
      assert t[j] == xs[j + 1];
    }
  }

  lemma ElementsCons<T>(xs: seq<T>)
    requires xs != []
    ensures (set x | x in xs) == {xs[0]} + (set x | x in xs[1..])
  {
    assert xs == [xs[0]] + xs[1..];
  }

  /** Intersecting with the elements of a list without repeats counts the
      list's members of the set. */
  lemma {:induction false} CardInter<T>(xs: seq<T>, s: set<T>)
    requires Distinct(xs)
    ensures |s * (set x | x in xs)| == CountIn(xs, s)
  {
    if xs != [] {
      var t := xs[1..];
      DistinctTail(xs);
      CardInter(t, s);
      ElementsCons(xs);
      CardAdd(s, xs[0], set x | x in t);
    }
  }

  lemma CardAdd<T>(s: set<T>, a: T, u: set<T>)
    requires a !in u
    ensures |s * ({a} + u)| == (if a in s then 1 else 0) + |s * u|
  {
    if a in s {
      assert s * ({a} + u) == {a} + s * u;
    } else {
      assert s * ({a} + u) == s * u;
    }
  }

  lemma {:induction false} CountAtIn(g: seq<string>, xs: seq<Pos>)
    requires WellFormed(g)
    ensures CountAt(g, xs) == CountIn(xs, Ats(g))
  {
    if xs != [] {
      AtsMember(g, xs[0]);
      CountAtIn(g, xs[1..]);
    }
  }

  lemma BlockNeighbourhood(p: Pos)
    ensures Block(p) == set x | x in Neighbourhood(p)
    ensures Distinct(Neighbourhood(p))
  {
    var n := Neighbourhood(p);
    forall q | q in Block(p) ensures q in n {
      var (a, b) := p;
      var (r, c) := q;
      assert r == a - 1 || r == a || r == a + 1;
      assert c == b - 1 || c == b || c == b + 1;
    }
  }

  /** A roll can be taken exactly when at most four of the nine cells of its
      block, counted one by one and itself included, hold a roll. */
  lemma RemovableMeaning(g: seq<string>, p: Pos)
    requires WellFormed(g)
    ensures p in Removable(g) <==> IsAt(g, p.0, p.1) && CountAt(g, Neighbourhood(p)) < 5
  {
    AtsMember(g, p);
    BlockNeighbourhood(p);
    CardInter(Neighbourhood(p), Ats(g));
    CountAtIn(g, Neighbourhood(p));
  }

  /** Only rolls are ever taken. */
  lemma RemovableAreRolls(g: seq<string>)
    requires WellFormed(g)
    ensures Removable(g) <= Ats(g)
    ensures forall p :: p in Removable(g) ==> IsAt(g, p.0, p.1)
  {
    forall p | p in Removable(g) ensures IsAt(g, p.0, p.1) {
      AtsMember(g, p);
    }
  }

  // ---------------------------------------------------------------------
  // part_2: rounds of removal
  // ---------------------------------------------------------------------

  /** The comprehension that rebuilds the grid: the taken cells become `.`. */
  function Clear(g: seq<string>, taken: set<Pos>): (h: seq<string>)
    ensures |h| == |g| && forall r :: 0 <= r < |g| ==> |h[r]| == |g[r]|
  {
    seq(|g|, r requires 0 <= r < |g| =>
      seq(|g[r]|, c requires 0 <= c < |g[r]| => if (r, c) in taken then '.' else g[r][c]))
  }

  /** Clearing keeps the grid's shape, puts `.` exactly on the taken cells
      and leaves every other cell as it was. */
  lemma ClearCells(g: seq<string>, taken: set<Pos>)
    ensures var h := Clear(g, taken);
      forall r, c :: 0 <= r < |g| && 0 <= c < |g[r]| ==>
        h[r][c] == if (r, c) in taken then '.' else g[r][c]
  {
  }

  /** After a round the rolls are those that were not taken. */
  lemma ClearAts(g: seq<string>, taken: set<Pos>)
    requires WellFormed(g)
    ensures WellFormed(Clear(g, taken))
    ensures Ats(Clear(g, taken)) == Ats(g) - taken
  {
    var h := Clear(g, taken);
    assert WellFormed(h);
    forall p | p in Ats(h) ensures p in Ats(g) - taken {
      AtsMember(h, p);
      AtsMember(g, p);
    }
    forall p | p in Ats(g) - taken ensures p in Ats(h) {
      AtsMember(h, p);
      AtsMember(g, p);
    }
  }

  /** A round that takes something leaves fewer rolls. */
  lemma RoundShrinks(g: seq<string>)
    requires WellFormed(g) && Removable(g) != {}
    ensures WellFormed(Clear(g, Removable(g)))
    ensures |Ats(Clear(g, Removable(g)))| == |Ats(g)| - |Removable(g)| < |Ats(g)|
  {
    var R := Removable(g);
    ClearAts(g, R);
    RemovableAreRolls(g);
    assert Ats(g) == (Ats(g) - R) + R;
  }

  /** The number of rolls taken by the rounds that start from `g`. */
  function RemovalTotal(g: seq<string>): nat
    requires WellFormed(g)
    decreases |Ats(g)|
  {
    var R := Removable(g);
    if R == {} then 0
    else
      RoundShrinks(g);
      |R| + RemovalTotal(Clear(g, R))
  }

  /** The grid the rounds end with. */
  function FinalGrid(g: seq<string>): seq<string>
    requires WellFormed(g)
    decreases |Ats(g)|
  {
    var R := Removable(g);
    if R == {} then g
    else
      RoundShrinks(g);
      FinalGrid(Clear(g, R))
  }

  /** Every roll taken was a roll at the start and is gone at the end, and
      the end grid has no roll left to take. */
  lemma {:induction false} RemovalAccount(g: seq<string>)
    requires WellFormed(g)
    ensures WellFormed(FinalGrid(g))
    ensures Removable(FinalGrid(g)) == {}
    ensures Ats(FinalGrid(g)) <= Ats(g)
    ensures RemovalTotal(g) == |Ats(g)| - |Ats(FinalGrid(g))|
    decreases |Ats(g)|
  {
    var R := Removable(g);
    if R != {} {
      RoundShrinks(g);
      var h := Clear(g, R);
      ClearAts(g, R);
      RemovalAccount(h);
    }
  }

  /** The first round takes what part 1 counts, so part 2 is never smaller,
      and no more rolls are taken than there were. */
  lemma RemovalBounds(g: seq<string>)
    requires WellFormed(g)
    ensures |Removable(g)| <= RemovalTotal(g) <= |Ats(g)|
  {
    RemovalAccount(g);
  }

  /** `part_2`: the `while True` loop that takes every removable roll and
      rebinds the grid. */
  method Part2(g: seq<string>) returns (total: nat)
    requires WellFormed(g)
    ensures total == RemovalTotal(g)
  {
    total := 0;
    var data := g;
    while true
      invariant WellFormed(data)
      invariant total + RemovalTotal(data) == RemovalTotal(g)
      decreases |Ats(data)|
    {
      var removable := CanRemove(data);
      if removable == {} {
        return;
      }
      RoundShrinks(data);
      total := total + |removable|;
      data := Clear(data, removable);
    }
  }
}
