/**
 The physical layout of a 512-channel MinION flowcell: which channel ID sits
 at each of the 16 x 32 positions drawn by the channel-activity heatmap.

 The layout is built from eight blocks. Block k has a top seed and a bottom
 seed; for each sub-index n in 0..3 it contributes one row of 16 IDs, an
 ascending run of 8 from top + 8n followed by a descending run of 8 from
 bottom + 8n. The 32 rows so built are transposed into 16 rows of 32.
 */
module Flowcell {
  import opened Sequences

  const Rows: nat := 16
  const Cols: nat := 32
  const ChannelCount: nat := 512

  /** First ID of each block's ascending runs. */
  const TopSeeds: seq<int> := [33, 481, 417, 353, 289, 225, 161, 97]
  /** First ID of each block's descending runs. */
  const BottomSeeds: seq<int> := [8, 456, 392, 328, 264, 200, 136, 72]

  /** A position of the grid: row, then column. */
  type Cell = (int, int)

  predicate IsChannel(ch: int)
  {
    1 <= ch <= ChannelCount
  }

  predicate InGrid(p: Cell)
  {
    0 <= p.0 < Rows && 0 <= p.1 < Cols
  }

  /** Rows all of the same given width. */
  predicate Rectangular(m: seq<seq<int>>, width: nat)
  {
    forall t :: 0 <= t < |m| ==> |m[t]| == width
  }

  /** The matrix transpose of a non-empty rectangular list of rows. */
  function Transpose(m: seq<seq<int>>): (tr: seq<seq<int>>)
    requires |m| > 0 && Rectangular(m, |m[0]|)
    ensures |tr| == |m[0]| && Rectangular(tr, |m|)
    ensures forall i, j :: 0 <= i < |tr| && 0 <= j < |m| ==> tr[i][j] == m[j][i]
  {
    seq(|m[0]|, i requires 0 <= i < |m[0]| =>
      seq(|m|, j requires 0 <= j < |m| => m[j][i]))
  }

  /**
   Row t (before transposing) of the layout: block t / 4, sub-index t % 4,
   an ascending run of 8 then a descending run of 8.
   */
  function LayoutRow(t: int): (row: seq<int>)
    requires 0 <= t < Cols
    ensures |row| == Rows
  {
    var i, j, n := TopSeeds[t / 4], BottomSeeds[t / 4], t % 4;
    var up := Range(i + n * 8, (i + n * 8) + 8, 1);
    var down := Range(j + n * 8, (j + n * 8) - 8, -1);
    RunLength(i + n * 8, 1);
    RunLength(j + n * 8, -1);
    up + down
  }

  /** A run of 8 from start in the direction of step has 8 elements. */
  lemma RunLength(start: int, step: int)
    requires step == 1 || step == -1
    ensures |Range(start, start + 8 * step, step)| == 8
  {
    var r := Range(start, start + 8 * step, step);
    if |r| > 0 {
      assert r[|r| - 1] == start + (|r| - 1) * step;
    }
  }

  /** The layout grid, 16 rows of 32 channel IDs, as the transpose of the 32 built rows. */
  function Layout(): (g: seq<seq<int>>)
    ensures |g| == Rows && Rectangular(g, Cols)
  {
    Transpose(seq(Cols, t requires 0 <= t < Cols => LayoutRow(t)))
  }

  /**
   The closed form of a cell: column c = 4k + n lies in block k at sub-index n;
   the top eight rows ascend from the top seed, the bottom eight descend from
   the bottom seed.
   */
  function Channel(r: int, c: int): int
    requires InGrid((r, c))
  {
    var k, n := c / 4, c % 4;
    if r < 8 then TopSeeds[k] + 8 * n + r
    else BottomSeeds[k] + 8 * n - (r - 8)
  }

  /** Every cell of the layout holds the closed-form value of its position. */
  lemma {:induction false} LayoutCellFormula(r: int, c: int)
    requires InGrid((r, c))
    ensures Layout()[r][c] == Channel(r, c)
  {
    var i, j, n := TopSeeds[c / 4], BottomSeeds[c / 4], c % 4;
    var up := Range(i + n * 8, (i + n * 8) + 8, 1);
    var down := Range(j + n * 8, (j + n * 8) - 8, -1);
    RunLength(i + n * 8, 1);
    RunLength(j + n * 8, -1);
    assert LayoutRow(c) == up + down;
    if r < 8 {
      assert LayoutRow(c)[r] == up[r] == i + n * 8 + r;
    } else {
      assert LayoutRow(c)[r] == down[r - 8] == j + n * 8 - (r - 8);
    }
  }

  /**
   Builds the layout as the source does: append one row per block and
   sub-index, then transpose.
   */
  method MakeLayout() returns (layout: seq<seq<int>>)
    ensures layout == Layout()
    ensures |layout| == Rows && Rectangular(layout, Cols)
    ensures forall r, c :: InGrid((r, c)) ==> layout[r][c] == Channel(r, c)
  {
    var rows: seq<seq<int>> := [];
    var k := 0;
    while k < 8
      invariant 0 <= k <= 8 && |rows| == 4 * k
      invariant forall t :: 0 <= t < |rows| ==> rows[t] == LayoutRow(t)
    {
      var i, j := TopSeeds[k], BottomSeeds[k];
      var n := 0;
      while n < 4
        invariant 0 <= n <= 4 && |rows| == 4 * k + n
        invariant forall t :: 0 <= t < |rows| ==> rows[t] == LayoutRow(t)
      {
        assert (4 * k + n) / 4 == k && (4 * k + n) % 4 == n;
        rows := rows + [Range(i + n * 8, (i + n * 8) + 8, 1) + Range(j + n * 8, (j + n * 8) - 8, -1)];
        n := n + 1;
      }
      k := k + 1;
    }
    assert rows == seq(Cols, t requires 0 <= t < Cols => LayoutRow(t));
    layout := Transpose(rows);
    forall r, c | InGrid((r, c)) ensures layout[r][c] == Channel(r, c) {
      LayoutCellFormula(r, c);
    }
  }

  /** The 32-ID band (0..15) that block k's ascending runs cover. */
  function TopBand(k: int): int
  {
    if k == 0 then 1 else 17 - 2 * k
  }

  /** The 32-ID band (0..15) that block k's descending runs cover. */
  function BottomBand(k: int): int
  {
    if k == 0 then 0 else 16 - 2 * k
  }

  /** The block whose runs cover band q. */
  function BlockOfBand(q: int): int
  {
    if q <= 1 then 0 else (17 - q) / 2
  }

  lemma SeedsAreBands(k: int)
    requires 0 <= k < 8
    ensures TopSeeds[k] == 32 * TopBand(k) + 1
    ensures BottomSeeds[k] == 32 * BottomBand(k) + 8
  {
    if k == 0 {} else if k == 1 {} else if k == 2 {} else if k == 3 {}
    else if k == 4 {} else if k == 5 {} else if k == 6 {} else {}
  }

  /**
   The reverse index: the grid position of a channel ID. IDs 32q+1..32q+32
   form band q; odd bands are ascending runs, even bands descending runs.
   */
  function Position(ch: int): (p: Cell)
    requires IsChannel(ch)
    ensures InGrid(p) && Channel(p.0, p.1) == ch
  {
    var q, off := (ch - 1) / 32, (ch - 1) % 32;
    var k, n := BlockOfBand(q), off / 8;
    var r := if q % 2 == 1 then off % 8 else 15 - off % 8;
    assert 0 <= k < 8;
    SeedsAreBands(k);
    assert (4 * k + n) / 4 == k && (4 * k + n) % 4 == n;
    (r, 4 * k + n)
  }

  /** Each position's channel is a valid ID whose reverse index is that position. */
  lemma {:induction false} PositionOfChannel(r: int, c: int)
    requires InGrid((r, c))
    ensures IsChannel(Channel(r, c)) && Position(Channel(r, c)) == (r, c)
  {
    var k, n := c / 4, c % 4;
    assert c == 4 * k + n;
    SeedsAreBands(k);
    BandsOfBlock(k);
    if r < 8 {
      PositionOfParts(Channel(r, c), TopBand(k), n, r);
    } else {
      PositionOfParts(Channel(r, c), BottomBand(k), n, 15 - r);
    }
  }

  /** The reverse index of the ID at offset 8n + m within band q. */
  lemma PositionOfParts(ch: int, q: int, n: int, m: int)
    requires 0 <= q < 16 && 0 <= n < 4 && 0 <= m < 8
    requires ch - 1 == 32 * q + 8 * n + m
    ensures IsChannel(ch)
    ensures Position(ch) == (if q % 2 == 1 then m else 15 - m, 4 * BlockOfBand(q) + n)
  {
    DivModUnique(ch - 1, 32, q, 8 * n + m);
    DivModUnique(8 * n + m, 8, n, m);
  }

  /** The bands of a block lie in 0..15, have the right parity, and lead back to the block. */
  lemma BandsOfBlock(k: int)
    requires 0 <= k < 8
    ensures 0 <= TopBand(k) < 16 && TopBand(k) % 2 == 1 && BlockOfBand(TopBand(k)) == k
    ensures 0 <= BottomBand(k) < 16 && BottomBand(k) % 2 == 0 && BlockOfBand(BottomBand(k)) == k
  {
  }

  /** Quotient and remainder are determined by any decomposition with a remainder in range. */
  lemma DivModUnique(x: int, d: int, q: int, o: int)
    requires d == 8 || d == 32
    requires x == d * q + o && 0 <= o < d
    ensures x / d == q && x % d == o
  {
  }

  /**
   The layout is a bijection between the 512 positions and the channel IDs
   1..512: every cell holds a channel ID, no two cells hold the same one, and
   every ID is held by some cell.
   */
  lemma LayoutIsBijection()
    ensures forall r, c :: InGrid((r, c)) ==> IsChannel(Layout()[r][c])
    ensures forall r, c, r', c' :: InGrid((r, c)) && InGrid((r', c')) && Layout()[r][c] == Layout()[r'][c']
              ==> r == r' && c == c'
    ensures forall ch :: IsChannel(ch) ==> exists r, c :: InGrid((r, c)) && Layout()[r][c] == ch
  {
    forall r, c | InGrid((r, c)) ensures IsChannel(Layout()[r][c]) && Position(Layout()[r][c]) == (r, c) {
      LayoutCellFormula(r, c);
      PositionOfChannel(r, c);
    }
    forall ch | IsChannel(ch) ensures exists r, c :: InGrid((r, c)) && Layout()[r][c] == ch {
      var p := Position(ch);
      LayoutCellFormula(p.0, p.1);
    }
  }

  /** Every channel ID occurs exactly once in the layout, at its reverse index. */
  lemma ChannelOccursOnce(ch: int)
    requires IsChannel(ch)
    ensures (set r, c | 0 <= r < Rows && 0 <= c < Cols && Layout()[r][c] == ch :: (r, c)) == {Position(ch)}
  {
    var cells := set r, c | 0 <= r < Rows && 0 <= c < Cols && Layout()[r][c] == ch :: (r, c);
    var p := Position(ch);
    LayoutCellFormula(p.0, p.1);
    assert p in cells;
    forall q | q in cells ensures q == p {
      LayoutCellFormula(q.0, q.1);
      PositionOfChannel(q.0, q.1);
    }
  }

  /** An ID outside 1..512 occurs nowhere in the layout. */
  lemma NonChannelOccursNowhere(x: int)
    requires !IsChannel(x)
    ensures forall r, c :: InGrid((r, c)) ==> Layout()[r][c] != x
  {
    forall r, c | InGrid((r, c)) ensures Layout()[r][c] != x {
      LayoutCellFormula(r, c);
      PositionOfChannel(r, c);
    }
  }

  /** A few cells, as listed with the construction: the top-left corner and the first column. */
  lemma LayoutCorners()
    ensures Layout()[0][0] == 33 && Layout()[7][0] == 40
    ensures Layout()[8][0] == 8 && Layout()[15][0] == 1
    ensures Layout()[0][31] == 97 + 24 && Layout()[15][31] == 72 + 24 - 7
  {
    LayoutCellFormula(0, 0);
    LayoutCellFormula(7, 0);
    LayoutCellFormula(8, 0);
    LayoutCellFormula(15, 0);
    LayoutCellFormula(0, 31);
    LayoutCellFormula(15, 31);
  }
}
