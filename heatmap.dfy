/**
 The channel-activity grid behind the flowcell heatmap: a 16 x 32 grid of
 read counts, where the cell at a position counts the observations of the
 channel the layout places there.

 The grid starts at zero. The observations are tallied into a frequency
 table; for each distinct observed ID, every cell whose layout value equals
 that ID is set to the ID's count. IDs outside 1..512 match no cell and are
 dropped without notice.
 */
module Heatmap {
  import opened Sequences
  import opened Flowcell

  /**
   The frequency table of the observations: each distinct observed ID
   mapped to its number of occurrences (never zero).
   */
  function ValueCounts(obs: seq<int>): (counts: map<int, nat>)
    ensures counts.Keys == set x | x in obs
    ensures forall x :: x in counts ==> counts[x] == multiset(obs)[x] && counts[x] >= 1
  {
    if obs == [] then map[]
    else
      var rest := ValueCounts(obs[1..]);
      assert obs == [obs[0]] + obs[1..];
      assert multiset(obs) == multiset{obs[0]} + multiset(obs[1..]);
      rest[obs[0] := (if obs[0] in rest then rest[obs[0]] else 0) + 1]
  }

  /**
   What the heatmap shows: at each position, the number of observations of
   the channel the layout places there.
   */
  function Activity(obs: seq<int>): (g: seq<seq<nat>>)
    ensures |g| == Rows && Rectangular(g, Cols)
  {
    seq(Rows, r requires 0 <= r < Rows =>
      seq(Cols, c requires 0 <= c < Cols => multiset(obs)[Layout()[r][c]]))
  }

  /** The all-zero 16 x 32 grid. */
  function ZeroGrid(): (g: seq<seq<nat>>)
    ensures |g| == Rows && Rectangular(g, Cols)
  {
    seq(Rows, r => seq(Cols, c => 0))
  }

  /**
   Sets every cell whose layout value is entry to count and leaves the
   others as they were.
   */
  method Scatter(grid: array2<nat>, layout: seq<seq<int>>, entry: int, count: nat)
    requires grid.Length0 == Rows && grid.Length1 == Cols
    requires |layout| == Rows && Rectangular(layout, Cols)
    modifies grid
    ensures forall r, c :: 0 <= r < Rows && 0 <= c < Cols ==>
              grid[r, c] == if layout[r][c] == entry then count else old(grid[r, c])
  {
    var r := 0;
    while r < Rows
      invariant 0 <= r <= Rows
      invariant forall i, j :: 0 <= i < Rows && 0 <= j < Cols ==>
                  grid[i, j] == if i < r && layout[i][j] == entry then count else old(grid[i, j])
    {
      var c := 0;
      while c < Cols
        invariant 0 <= c <= Cols
        invariant forall i, j :: 0 <= i < Rows && 0 <= j < Cols ==>
                    grid[i, j] == if (i < r || (i == r && j < c)) && layout[i][j] == entry then count else old(grid[i, j])
      {
        if layout[r][c] == entry {
          grid[r, c] := count;
        }
        c := c + 1;
      }
      r := r + 1;
    }
  }

  /**
   Builds the activity grid for the observed channel IDs: a fresh zero grid,
   then one scatter per distinct observed ID, in any order.
   */
  method ActivityGrid(obs: seq<int>) returns (grid: array2<nat>)
    ensures fresh(grid) && grid.Length0 == Rows && grid.Length1 == Cols
    ensures forall r, c :: 0 <= r < Rows && 0 <= c < Cols ==> grid[r, c] == Activity(obs)[r][c]
  {
    var layout := MakeLayout();
    grid := new nat[Rows, Cols]((r, c) => 0);
    var counts := ValueCounts(obs);
    var pending: set<int> := counts.Keys;
    ghost var done: set<int> := {};
    while pending != {}
      invariant pending + done == counts.Keys && pending !! done
      invariant forall r, c :: 0 <= r < Rows && 0 <= c < Cols ==>
                  grid[r, c] == if layout[r][c] in done then counts[layout[r][c]] else 0
      decreases pending
    {
      var entry := Pick(pending);
      Scatter(grid, layout, entry, counts[entry]);
      pending := pending - {entry};
      done := done + {entry};
    }
    forall r, c | 0 <= r < Rows && 0 <= c < Cols
      ensures grid[r, c] == Activity(obs)[r][c]
    {
      CountOrZero(obs, layout[r][c]);
    }
  }

  /**
   Some element of a non-empty set: the frequency table's keys are visited
   in no fixed order. The call to NoElementMeansEmpty is only there so that
   the verifier can establish that the `:|` has a value to choose.
   */
  method Pick(s: set<int>) returns (x: int)
    requires s != {}
    ensures x in s
  {
    NoElementMeansEmpty(s);
    x :| x in s;
  }

  /** A verifier aid for Pick (a set with no element is empty); it models nothing. */
  lemma NoElementMeansEmpty(s: set<int>)
    ensures (forall y :: y !in s) ==> s == {}
  {
    if forall y :: y !in s {
      assert s == {};
    }
  }

  /** The frequency table read with a default of zero is the multiplicity. */
  lemma CountOrZero(obs: seq<int>, v: int)
    ensures (if v in ValueCounts(obs) then ValueCounts(obs)[v] else 0) == multiset(obs)[v]
  {
  }

  /** Each channel's count sits at that channel's position in the layout. */
  lemma ActivityAtChannel(obs: seq<int>, ch: int)
    requires IsChannel(ch)
    ensures Activity(obs)[Position(ch).0][Position(ch).1] == multiset(obs)[ch]
  {
    var p := Position(ch);
    LayoutCellFormula(p.0, p.1);
  }

  /** No observations: the all-zero grid. */
  lemma ActivityOfNothing()
    ensures Activity([]) == ZeroGrid()
  {
    forall r | 0 <= r < Rows ensures Activity([])[r] == ZeroGrid()[r] {
    }
  }

  /**
   The grid depends only on how often each ID occurs, not on the order of
   the observations. This holds by definition, since Activity reads only the
   multiset of the observations; the order that matters in the source, the
   order in which the frequency table's keys are visited, is covered by
   ActivityGrid, which reaches Activity(obs) whatever Pick chooses.
   */
  lemma ActivityIgnoresOrder(a: seq<int>, b: seq<int>)
    requires multiset(a) == multiset(b)
    ensures Activity(a) == Activity(b)
  {
  }

  /** The grid with the cell at p raised by one. */
  function Bump(g: seq<seq<nat>>, p: Cell): (h: seq<seq<nat>>)
    requires 0 <= p.0 < |g| && 0 <= p.1 < |g[p.0]|
  {
    g[p.0 := g[p.0][p.1 := g[p.0][p.1] + 1]]
  }

  /**
   One more observation raises exactly the cell of its channel by one, or
   changes nothing when the ID is not a channel.
   */
  lemma ActivityOfPrepend(x: int, obs: seq<int>)
    ensures Activity([x] + obs) == if IsChannel(x) then Bump(Activity(obs), Position(x)) else Activity(obs)
  {
    var a := Activity([x] + obs);
    var b := if IsChannel(x) then Bump(Activity(obs), Position(x)) else Activity(obs);
    assert multiset([x] + obs) == multiset{x} + multiset(obs);
    forall r | 0 <= r < Rows ensures a[r] == b[r] {
      forall c | 0 <= c < Cols ensures a[r][c] == b[r][c] {
        LayoutCellFormula(r, c);
        PositionOfChannel(r, c);
      }
    }
  }

  /** An observation outside 1..512 changes no cell, wherever it is appended. */
  lemma ActivityIgnoresInvalid(obs: seq<int>, x: int)
    requires !IsChannel(x)
    ensures Activity(obs + [x]) == Activity(obs)
  {
    assert multiset(obs + [x]) == multiset(obs) + multiset{x};
    forall r | 0 <= r < Rows ensures Activity(obs + [x])[r] == Activity(obs)[r] {
      forall c | 0 <= c < Cols ensures Activity(obs + [x])[r][c] == Activity(obs)[r][c] {
        LayoutCellFormula(r, c);
        PositionOfChannel(r, c);
      }
    }
  }

  /** A single valid observation: a one in its channel's cell and zero everywhere else. */
  lemma ActivityOfOne(ch: int)
    requires IsChannel(ch)
    ensures forall r, c :: 0 <= r < Rows && 0 <= c < Cols ==>
              Activity([ch])[r][c] == if (r, c) == Position(ch) then 1 else 0
  {
    forall r, c | 0 <= r < Rows && 0 <= c < Cols
      ensures Activity([ch])[r][c] == if (r, c) == Position(ch) then 1 else 0
    {
      LayoutCellFormula(r, c);
      PositionOfChannel(r, c);
    }
  }

  /** Reads of channels 33, 33 and 8: two at the top-left cell, one at row 8 of the first column. */
  lemma ActivityExample()
    ensures forall r, c :: 0 <= r < Rows && 0 <= c < Cols ==>
              Activity([33, 33, 8])[r][c] == if (r, c) == (0, 0) then 2 else if (r, c) == (8, 0) then 1 else 0
  {
    LayoutCorners();
    forall r, c | 0 <= r < Rows && 0 <= c < Cols
      ensures Activity([33, 33, 8])[r][c] == if (r, c) == (0, 0) then 2 else if (r, c) == (8, 0) then 1 else 0
    {
      LayoutCellFormula(r, c);
      PositionOfChannel(r, c);
      assert Position(33) == (0, 0) && Position(8) == (8, 0) by {
        PositionOfChannel(0, 0);
        PositionOfChannel(8, 0);
      }
    }
  }

  /** The sum of a row of counts. */
  function RowSum(s: seq<nat>): nat
  {
    if s == [] then 0 else s[0] + RowSum(s[1..])
  }

  /** The sum of all cells of a grid of counts. */
  function GridSum(g: seq<seq<nat>>): nat
  {
    if g == [] then 0 else RowSum(g[0]) + GridSum(g[1..])
  }

  lemma {:induction false} RowSumBump(s: seq<nat>, i: int)
    requires 0 <= i < |s|
    ensures RowSum(s[i := s[i] + 1]) == RowSum(s) + 1
  {
    if i > 0 {
      RowSumBump(s[1..], i - 1);
      assert s[i := s[i] + 1][1..] == s[1..][i - 1 := s[i] + 1];
    }
  }

  lemma {:induction false} GridSumBump(g: seq<seq<nat>>, p: Cell)
    requires 0 <= p.0 < |g| && 0 <= p.1 < |g[p.0]|
    ensures GridSum(Bump(g, p)) == GridSum(g) + 1
  {
    if p.0 == 0 {
      RowSumBump(g[0], p.1);
      assert Bump(g, p)[1..] == g[1..];
    } else {
      GridSumBump(g[1..], (p.0 - 1, p.1));
      assert Bump(g, p)[1..] == Bump(g[1..], (p.0 - 1, p.1));
    }
  }

  lemma {:induction false} GridSumZero(g: seq<seq<nat>>)
    requires forall r, c :: 0 <= r < |g| && 0 <= c < |g[r]| ==> g[r][c] == 0
    ensures GridSum(g) == 0
  {
    if g != [] {
      RowSumZero(g[0]);
      GridSumZero(g[1..]);
    }
  }

  lemma {:induction false} RowSumZero(s: seq<nat>)
    requires forall c :: 0 <= c < |s| ==> s[c] == 0
    ensures RowSum(s) == 0
  {
    if s != [] {
      RowSumZero(s[1..]);
    }
  }

  /**
   The grid's total is the number of observations that are channel IDs:
   every valid observation is counted once, every other one is dropped.
   */
  lemma {:induction false} ActivityTotal(obs: seq<int>)
    ensures GridSum(Activity(obs)) == |Filter(obs, IsChannel)|
  {
    if obs == [] {
      ActivityOfNothing();
      GridSumZero(ZeroGrid());
    } else {
      assert obs == [obs[0]] + obs[1..];
      ActivityTotal(obs[1..]);
      ActivityOfPrepend(obs[0], obs[1..]);
      if IsChannel(obs[0]) {
        GridSumBump(Activity(obs[1..]), Position(obs[0]));
      }
    }
  }
}
