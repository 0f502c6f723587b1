/**
 The level layout `EcsGameplay::createMap` and `createExplodableBlocks` build:
 a 21 x 21 grid whose border and even-even cells are solid blocks, and a
 random 70% of the remaining free cells turned into explodable blocks unless
 they are close to the player's start.
 */
module MapGeneration {
  import opened Wrappers
  import opened Geometry
  import opened Entities

  const WidthTilesNum: nat := 21
  const HeightTilesNum: nat := 21
  /** Edge length of a tile in world units. */
  const TileSize: real := 64.0
  /** Cells of the grid, counted row by row. */
  const CellCount: nat := HeightTilesNum * WidthTilesNum

  /** `sf::Vector2i{ i, j }` of a grid cell: `x` is the row, `y` the column. */
  datatype TileIndex = TileIndex(row: int, col: int)

  predicate InGrid(t: TileIndex) {
    0 <= t.row < HeightTilesNum && 0 <= t.col < WidthTilesNum
  }

  /** The border (the last index is written as the literal 20) and every cell whose indices are both even. */
  predicate IsSolidCell(i: int, j: int) {
    i == 0 || i == 20 || j == 0 || j == 20 || (i % 2 == 0 && j % 2 == 0)
  }

  function BaseTileType(i: int, j: int): TileType {
    if IsSolidCell(i, j) then SolidBlock else TileType.None
  }

  /** World position of the top-left corner of cell (i, j): the column is x, the row is y. */
  function TilePosition(i: int, j: int): Vec2 {
    Vec2(j as real * TileSize, i as real * TileSize)
  }

  function TileTransform(i: int, j: int): Transform {
    Transform(Vec2(TileSize, TileSize), TilePosition(i, j))
  }

  /** The entity `createMap` makes for cell (i, j): solid blocks are Collidable, free tiles are not. */
  function BaseTileEntity(i: int, j: int): Entity {
    Entity(false, TileTransform(i, j),
           if IsSolidCell(i, j) then Some(DefaultCollidable) else Option.None,
           Option.None, Some(BaseTileType(i, j)))
  }

  /** The entity `createExplodableBlocks` makes on cell t. */
  function ExplodableEntity(t: TileIndex): Entity {
    Entity(false, TileTransform(t.row, t.col), Some(DefaultCollidable), Option.None, Some(ExplodableBlock))
  }

  /** The player as `createPlayer` makes it. */
  const InitialPlayer: Entity :=
    Entity(true, Transform(Vec2(30.0, 30.0), Vec2(81.0, 81.0)), Some(DefaultCollidable),
           Some(Movable(Vec2(4.0 * 128.0, 4.0 * 128.0), Direction.None)), Option.None)

  // ---------------------------------------------------------------------------
  // The grid fill, as functions of how far the nested loops have got

  /** The base tile entities of the cells (i, j) with j < m, in column order. */
  function RowTiles(i: nat, m: nat): (r: seq<Entity>)
    ensures |r| == m
  {
    if m == 0 then [] else RowTiles(i, m - 1) + [BaseTileEntity(i, m - 1)]
  }

  /** The base tile entities of the first `n` cells in row-major order: cell k is (k / 21, k % 21). */
  function CellTiles(n: nat): seq<Entity> {
    seq(n, k => BaseTileEntity(k / WidthTilesNum, k % WidthTilesNum))
  }

  /** The base tile entities of the whole grid, in the order the nested loops create them. */
  function GridTiles(): seq<Entity> {
    CellTiles(CellCount)
  }

  /** A row of tiles continues the row-major list of the rows above it. */
  lemma {:induction false} RowExtendsCells(i: nat, m: nat)
    requires m <= WidthTilesNum
    ensures CellTiles(i * WidthTilesNum) + RowTiles(i, m) == CellTiles(i * WidthTilesNum + m)
  {
    var n := i * WidthTilesNum;
    if m > 0 {
      RowExtendsCells(i, m - 1);
      assert (n + m - 1) / WidthTilesNum == i && (n + m - 1) % WidthTilesNum == m - 1;
      assert CellTiles(n + m) == CellTiles(n + m - 1) + [BaseTileEntity(i, m - 1)];
      ConcatAssoc(CellTiles(n), RowTiles(i, m - 1), [BaseTileEntity(i, m - 1)]);
    }
  }

  /**
   The free cells (i, j) with j < m of row i, in column order: none on the
   border rows, columns 1 .. 19 on an odd row and the odd columns on an even one.
   */
  function RowBlanks(i: nat, m: nat): seq<TileIndex>
    requires i < HeightTilesNum
  {
    if i == 0 || i == 20 then []
    else if i % 2 == 1 then seq(if m <= 1 then 0 else if m <= 20 then m - 1 else 19, k => TileIndex(i, k + 1))
    else seq(if m <= 20 then m / 2 else 10, k => TileIndex(i, 2 * k + 1))
  }

  /** The free cells of the first `n` rows, in row-major order. */
  function GridBlanks(n: nat): seq<TileIndex>
    requires n <= HeightTilesNum
  {
    if n == 0 then [] else GridBlanks(n - 1) + RowBlanks(n - 1, WidthTilesNum)
  }

  /** The number of free cells of the fixed layout. */
  const BlankTileCount: nat := 280

  // ---------------------------------------------------------------------------
  // Explodable blocks

  /** Every entry of `perm` names a position of a list of length `n`. */
  predicate IsIndexMap(perm: seq<nat>, n: nat) {
    |perm| == n && forall k :: 0 <= k < n ==> perm[k] < n
  }

  /** `s` rearranged by `perm`: entry k of the result is entry perm[k] of `s`. */
  function Permute<T>(s: seq<T>, perm: seq<nat>): (r: seq<T>)
    requires IsIndexMap(perm, |s|)
    ensures |r| == |s|
    ensures forall k :: 0 <= k < |s| ==> r[k] == s[perm[k]]
  {
    seq(|s|, k requires 0 <= k < |s| => s[perm[k]])
  }

  /** `static_cast<uint32_t>(n * 0.7)`: the number of shuffled free cells that are kept. */
  function SplitPos(n: nat): (r: nat)
    ensures r <= n
    ensures 10 * r <= 7 * n < 10 * (r + 1)
  {
    (7 * n) / 10
  }

  /** `static_cast<int>` of a real: truncation toward zero. */
  function TruncToInt(x: real): (r: int)
    ensures x >= 0.0 ==> r == x.Floor
    ensures x < 0.0 ==> r <= 0
    ensures Abs(r as real) <= Abs(x) < Abs(r as real) + 1.0
  {
    if x >= 0.0 then x.Floor else -((-x).Floor)
  }

  /** The cell (row, column) that contains a position. */
  function PlayerPositionIndex(position: Vec2): TileIndex {
    TileIndex(TruncToInt(position.y / TileSize), TruncToInt(position.x / TileSize))
  }

  function IntAbs(n: int): int { if n < 0 then -n else n }

  /** Outside the 5 x 5 block of cells centred on the player's cell. */
  predicate FarFromPlayer(t: TileIndex, p: TileIndex) {
    IntAbs(t.row - p.row) >= 3 || IntAbs(t.col - p.col) >= 3
  }

  /** The cells of `kept` that become explodable blocks, in their order. */
  function Explodables(kept: seq<TileIndex>, p: TileIndex): (r: seq<TileIndex>)
    ensures |r| <= |kept|
  {
    if kept == [] then []
    else
      var last := kept[|kept| - 1];
      Explodables(kept[..|kept| - 1], p) + (if FarFromPlayer(last, p) then [last] else [])
  }

  /** The entities created for the cells `e`, in order. */
  function ExplodableEntities(e: seq<TileIndex>): (r: seq<Entity>)
    ensures |r| == |e|
  {
    if e == [] then [] else ExplodableEntities(e[..|e| - 1]) + [ExplodableEntity(e[|e| - 1])]
  }

  /** The cells kept after shuffling the free cells and dropping the last 30%. */
  function Kept(blanks: seq<TileIndex>, perm: seq<nat>): seq<TileIndex>
    requires IsIndexMap(perm, |blanks|)
  {
    Permute(blanks, perm)[..SplitPos(|blanks|)]
  }

  /** The kept cells are entries of `blanks`, so they lie in the grid when `blanks` do. */
  lemma KeptInGrid(blanks: seq<TileIndex>, perm: seq<nat>)
    requires IsIndexMap(perm, |blanks|)
    requires forall k :: 0 <= k < |blanks| ==> InGrid(blanks[k])
    ensures forall k :: 0 <= k < |Kept(blanks, perm)| ==> InGrid(Kept(blanks, perm)[k])
  {
    var kept := Kept(blanks, perm);
    forall k | 0 <= k < |kept|
      ensures InGrid(kept[k])
    {
      assert kept[k] == blanks[perm[k]];
    }
  }

  /** The kept cells of the fixed layout's free-cell list. */
  function KeptFreeCells(perm: seq<nat>): seq<TileIndex>
    requires IsIndexMap(perm, BlankTileCount)
  {
    BlankTileCountIs280();
    Kept(GridBlanks(HeightTilesNum), perm)
  }

  /** The grid `createMap` fills in before any explodable block is placed. */
  function BaseMap(): (m: seq<seq<TileType>>)
    ensures |m| == HeightTilesNum && forall i :: 0 <= i < HeightTilesNum ==> |m[i]| == WidthTilesNum
    ensures forall i, j :: 0 <= i < HeightTilesNum && 0 <= j < WidthTilesNum ==> m[i][j] == BaseTileType(i, j)
  {
    seq(HeightTilesNum, i => seq(WidthTilesNum, j => BaseTileType(i, j)))
  }

  /** The grid `m` with an explodable block written on every cell of `e`. */
  function Overlay(m: seq<seq<TileType>>, e: seq<TileIndex>): (r: seq<seq<TileType>>)
    ensures |r| == |m| && forall i :: 0 <= i < |m| ==> |r[i]| == |m[i]|
    ensures forall i, j :: 0 <= i < |m| && 0 <= j < |m[i]| ==>
      r[i][j] == if TileIndex(i, j) in e then ExplodableBlock else m[i][j]
  {
    seq(|m|, i requires 0 <= i < |m| =>
      seq(|m[i]|, j requires 0 <= j < |m[i]| => if TileIndex(i, j) in e then ExplodableBlock else m[i][j]))
  }

  /** The grid after explodable blocks were placed on the cells `e` of the base layout. */
  function GeneratedMap(e: seq<TileIndex>): (m: seq<seq<TileType>>)
    ensures |m| == HeightTilesNum && forall i :: 0 <= i < |m| ==> |m[i]| == WidthTilesNum
  {
    Overlay(BaseMap(), e)
  }

  // ---------------------------------------------------------------------------
  // Facts the grid fill relies on

  /** Row-major order on cells. */
  predicate Before(a: TileIndex, b: TileIndex) {
    a.row < b.row || (a.row == b.row && a.col < b.col)
  }

  /** The inner loop of `createMap` records cell (i, j) exactly when it is not solid. */
  lemma RowBlanksStep(i: nat, j: nat)
    requires i < HeightTilesNum && j < WidthTilesNum
    ensures RowBlanks(i, j + 1) == RowBlanks(i, j) + if IsSolidCell(i, j) then [] else [TileIndex(i, j)]
  {
    var r, r' := RowBlanks(i, j), RowBlanks(i, j + 1);
    if IsSolidCell(i, j) {
      assert |r'| == |r|;
      assert forall k :: 0 <= k < |r| ==> r'[k] == r[k];
    } else {
      assert |r'| == |r| + 1;
      assert forall k :: 0 <= k < |r| ==> r'[k] == r[k];
      assert r'[|r|] == TileIndex(i, j);
      assert r' == r + [TileIndex(i, j)];
    }
  }

  /** Row `i`'s list holds exactly its free cells, in increasing column order. */
  lemma RowBlanksAreFreeCells(i: nat)
    requires i < HeightTilesNum
    ensures var r := RowBlanks(i, WidthTilesNum);
      (forall k :: 0 <= k < |r| ==> r[k].row == i && 0 <= r[k].col < WidthTilesNum && !IsSolidCell(i, r[k].col)) &&
      (forall j :: 0 <= j < WidthTilesNum && !IsSolidCell(i, j) ==> TileIndex(i, j) in r) &&
      (forall a, b :: 0 <= a < b < |r| ==> r[a].col < r[b].col)
  {
    var r := RowBlanks(i, WidthTilesNum);
    forall j | 0 <= j < WidthTilesNum && !IsSolidCell(i, j)
      ensures TileIndex(i, j) in r
    {
      if i % 2 == 1 {
        assert r[j - 1] == TileIndex(i, j);
      } else {
        assert r[(j - 1) / 2] == TileIndex(i, j);
      }
    }
  }

  /** Every entry of the blank-index list of the first `n` rows is a free cell of those rows. */
  lemma {:induction false} GridBlanksAreFree(n: nat)
    requires n <= HeightTilesNum
    ensures forall k :: 0 <= k < |GridBlanks(n)| ==>
      InGrid(GridBlanks(n)[k]) && GridBlanks(n)[k].row < n &&
      !IsSolidCell(GridBlanks(n)[k].row, GridBlanks(n)[k].col)
  {
    if n > 0 {
      GridBlanksAreFree(n - 1);
      RowBlanksAreFreeCells(n - 1);
      var g, r := GridBlanks(n - 1), RowBlanks(n - 1, WidthTilesNum);
      assert GridBlanks(n) == g + r;
      forall k | 0 <= k < |g| + |r|
        ensures InGrid((g + r)[k]) && (g + r)[k].row < n && !IsSolidCell((g + r)[k].row, (g + r)[k].col)
      {
        if k < |g| {
          assert (g + r)[k] == g[k];
        } else {
          assert (g + r)[k] == r[k - |g|];
        }
      }
    }
  }

  /** Every free cell of the first `n` rows is in their blank-index list. */
  lemma {:induction false} GridBlanksAreComplete(n: nat)
    requires n <= HeightTilesNum
    ensures forall t :: InGrid(t) && t.row < n && !IsSolidCell(t.row, t.col) ==> t in GridBlanks(n)
  {
    if n > 0 {
      GridBlanksAreComplete(n - 1);
      RowBlanksAreFreeCells(n - 1);
      var g, r := GridBlanks(n - 1), RowBlanks(n - 1, WidthTilesNum);
      assert GridBlanks(n) == g + r;
      forall t | InGrid(t) && t.row < n && !IsSolidCell(t.row, t.col)
        ensures t in g + r
      {
        if t.row < n - 1 {
          assert t in g;
        } else {
          assert t == TileIndex(n - 1, t.col);
          assert t in r;
        }
      }
    }
  }

  /** The blank-index list of the first `n` rows is in strict row-major order. */
  lemma {:induction false} GridBlanksAreOrdered(n: nat)
    requires n <= HeightTilesNum
    ensures forall a, b :: 0 <= a < b < |GridBlanks(n)| ==> Before(GridBlanks(n)[a], GridBlanks(n)[b])
  {
    if n > 0 {
      GridBlanksAreOrdered(n - 1);
      GridBlanksAreFree(n - 1);
      RowBlanksAreFreeCells(n - 1);
      var g, r := GridBlanks(n - 1), RowBlanks(n - 1, WidthTilesNum);
      assert GridBlanks(n) == g + r;
      forall a, b | 0 <= a < b < |g| + |r|
        ensures Before((g + r)[a], (g + r)[b])
      {
        if b < |g| {
          assert (g + r)[a] == g[a] && (g + r)[b] == g[b];
        } else if a >= |g| {
          assert (g + r)[a] == r[a - |g|] && (g + r)[b] == r[b - |g|];
        } else {
          assert (g + r)[a] == g[a] && (g + r)[b] == r[b - |g|];
        }
      }
    }
  }

  /**
   Before shuffling, the blank-index list holds exactly the free cells of the
   grid, in row-major order.
   */
  lemma BlanksAreFreeCellsInOrder()
    ensures var g := GridBlanks(HeightTilesNum);
      (forall k :: 0 <= k < |g| ==> InGrid(g[k]) && !IsSolidCell(g[k].row, g[k].col)) &&
      (forall t :: InGrid(t) && !IsSolidCell(t.row, t.col) ==> t in g) &&
      (forall a, b :: 0 <= a < b < |g| ==> Before(g[a], g[b]))
  {
    GridBlanksAreFree(HeightTilesNum);
    GridBlanksAreComplete(HeightTilesNum);
    GridBlanksAreOrdered(HeightTilesNum);
  }

  /** Odd rows have 19 free cells and inner even rows 10; the border rows none. */
  lemma {:induction false} GridBlanksLength(n: nat)
    requires n < HeightTilesNum
    ensures |GridBlanks(n)| == if n == 0 then 0 else 19 * (n / 2) + 10 * ((n - 1) / 2)
  {
    if n > 0 {
      GridBlanksLength(n - 1);
      var r := |RowBlanks(n - 1, WidthTilesNum)|;
      assert |GridBlanks(n)| == |GridBlanks(n - 1)| + r;
      if n == 1 {
        assert r == 0;
      } else if n % 2 == 0 {
        assert r == 19;
        assert n / 2 == (n - 1) / 2 + 1 && (n - 1) / 2 == (n - 2) / 2;
      } else {
        assert r == 10;
        assert n / 2 == (n - 1) / 2 && (n - 1) / 2 == (n - 2) / 2 + 1;
      }
    }
  }

  /** The fixed layout has 280 free cells, of which the first 196 are kept. */
  lemma BlankTileCountIs280()
    ensures |GridBlanks(HeightTilesNum)| == BlankTileCount
    ensures SplitPos(BlankTileCount) == 196
  {
    var last := HeightTilesNum - 1;
    GridBlanksLength(last);
    assert |RowBlanks(last, WidthTilesNum)| == 0;
  }

  lemma ConcatAssoc<T>(a: seq<T>, b: seq<T>, c: seq<T>)
    ensures (a + b) + c == a + (b + c)
  {
  }

  /** Membership in a list with one more cell. */
  lemma MemberOfAppend(e: seq<TileIndex>, t: TileIndex, x: TileIndex)
    ensures x in e + [t] <==> x in e || x == t
  {
  }

  /** One more kept cell: the explodable list and its entities grow by that cell when it is far. */
  lemma ExplodablesStep(kept: seq<TileIndex>, t: TileIndex, p: TileIndex)
    ensures Explodables(kept + [t], p) == Explodables(kept, p) + if FarFromPlayer(t, p) then [t] else []
    ensures ExplodableEntities(Explodables(kept + [t], p)) ==
      ExplodableEntities(Explodables(kept, p)) + if FarFromPlayer(t, p) then [ExplodableEntity(t)] else []
  {
    assert (kept + [t])[..|kept|] == kept;
    assert (kept + [t])[|kept|] == t;
    var e := Explodables(kept, p);
    if FarFromPlayer(t, p) {
      assert Explodables(kept + [t], p) == e + [t];
      assert (e + [t])[..|e|] == e;
      assert (e + [t])[|e|] == t;
    } else {
      assert Explodables(kept + [t], p) == e + [];
      assert e + [] == e;
    }
  }
}
