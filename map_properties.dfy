/**
 What the level `createMap` and `createExplodableBlocks` build looks like:
 which cells are solid, which hold explodable blocks, where the tile entities
 sit, and that the player's start area stays clear.
 */
module MapProperties {
  import opened Wrappers
  import opened Geometry
  import opened Entities
  import opened MapGeneration

  /** A cell becomes an explodable block exactly when it was kept and lies far from the player. */
  lemma {:induction false} ExplodablesMembers(kept: seq<TileIndex>, p: TileIndex, x: TileIndex)
    ensures x in Explodables(kept, p) <==> x in kept && FarFromPlayer(x, p)
    decreases |kept|
  {
    if kept != [] {
      var init, last := kept[..|kept| - 1], kept[|kept| - 1];
      ExplodablesMembers(init, p, x);
      assert kept == init + [last];
      if FarFromPlayer(last, p) {
        assert Explodables(kept, p) == Explodables(init, p) + [last];
      } else {
        assert Explodables(kept, p) == Explodables(init, p) + [];
      }
    }
  }

  /** The cells that survive the shuffle and the cut are 196 free cells of the grid. */
  lemma KeptAreFree(perm: seq<nat>)
    requires IsIndexMap(perm, BlankTileCount)
    ensures |KeptFreeCells(perm)| == 196
    ensures forall k :: 0 <= k < |KeptFreeCells(perm)| ==>
      InGrid(KeptFreeCells(perm)[k]) && !IsSolidCell(KeptFreeCells(perm)[k].row, KeptFreeCells(perm)[k].col)
  {
    BlankTileCountIs280();
    BlanksAreFreeCellsInOrder();
    var g := GridBlanks(HeightTilesNum);
    var kept := KeptFreeCells(perm);
    forall k | 0 <= k < |kept|
      ensures InGrid(kept[k]) && !IsSolidCell(kept[k].row, kept[k].col)
    {
      assert kept[k] == g[perm[k]];
    }
  }

  /** When the index map is a permutation, as a shuffle is, the kept entries are distinct cells. */
  lemma KeptAreDistinct(perm: seq<nat>)
    requires IsIndexMap(perm, BlankTileCount)
    requires forall a, b :: 0 <= a < b < BlankTileCount ==> perm[a] != perm[b]
    ensures forall a, b :: 0 <= a < b < |KeptFreeCells(perm)| ==> KeptFreeCells(perm)[a] != KeptFreeCells(perm)[b]
  {
    BlankTileCountIs280();
    BlanksAreFreeCellsInOrder();
    var g := GridBlanks(HeightTilesNum);
    var kept := KeptFreeCells(perm);
    forall a, b | 0 <= a < b < |kept|
      ensures kept[a] != kept[b]
    {
      assert kept[a] == g[perm[a]] && kept[b] == g[perm[b]];
      if perm[a] < perm[b] {
        assert Before(g[perm[a]], g[perm[b]]);
      } else {
        assert Before(g[perm[b]], g[perm[a]]);
      }
    }
  }

  /**
   The finished grid: a cell is solid exactly when the layout makes it solid,
   holds an explodable block exactly when it was kept and is far from the
   player, and is empty otherwise. Explodable blocks never replace solid ones.
   */
  lemma GeneratedLayout(perm: seq<nat>, p: TileIndex)
    requires IsIndexMap(perm, BlankTileCount)
    ensures var kept := KeptFreeCells(perm);
      var m := GeneratedMap(Explodables(kept, p));
      forall i, j :: 0 <= i < HeightTilesNum && 0 <= j < WidthTilesNum ==>
        (m[i][j] == SolidBlock <==> IsSolidCell(i, j)) &&
        (m[i][j] == ExplodableBlock <==> TileIndex(i, j) in kept && FarFromPlayer(TileIndex(i, j), p)) &&
        (m[i][j] == TileType.None <==> !IsSolidCell(i, j) && !(TileIndex(i, j) in kept && FarFromPlayer(TileIndex(i, j), p)))
  {
    var kept := KeptFreeCells(perm);
    var e := Explodables(kept, p);
    var m := GeneratedMap(e);
    KeptAreFree(perm);
    forall i, j | 0 <= i < HeightTilesNum && 0 <= j < WidthTilesNum
      ensures (m[i][j] == SolidBlock <==> IsSolidCell(i, j)) &&
        (m[i][j] == ExplodableBlock <==> TileIndex(i, j) in kept && FarFromPlayer(TileIndex(i, j), p)) &&
        (m[i][j] == TileType.None <==> !IsSolidCell(i, j) && !(TileIndex(i, j) in kept && FarFromPlayer(TileIndex(i, j), p)))
    {
      var t := TileIndex(i, j);
      ExplodablesMembers(kept, p, t);
      if t in kept {
        var k :| 0 <= k < |kept| && kept[k] == t;
        assert !IsSolidCell(i, j);
      }
    }
  }

  /** The player's start position (81, 81) lies in cell (1, 1). */
  lemma StartCell()
    ensures PlayerPositionIndex(InitialPlayer.transform.position) == TileIndex(1, 1)
  {
    assert 1.0 <= 81.0 / TileSize < 2.0;
  }

  /** No explodable block lands within two cells of the player's cell. */
  lemma StartAreaClear(perm: seq<nat>, p: TileIndex)
    requires IsIndexMap(perm, BlankTileCount)
    ensures var m := GeneratedMap(Explodables(KeptFreeCells(perm), p));
      forall i, j ::
        (0 <= i < HeightTilesNum && 0 <= j < WidthTilesNum && IntAbs(i - p.row) <= 2 && IntAbs(j - p.col) <= 2) ==>
        m[i][j] != ExplodableBlock
  {
    GeneratedLayout(perm, p);
  }

  /**
   The player starts overlapping no tile but the free one it stands on, so no
   solid block touches it: the centre of the block left of it, at (0, 64), lies
   64 units away horizontally, more than the 47 the overlap test allows.
   */
  lemma StartOverlapsOnlyItsTile(i: int, j: int)
    requires Overlap(InitialPlayer.transform, TileTransform(i, j))
    ensures i == 1 && j == 1 && !IsSolidCell(i, j)
  {
    var dx, dy := CentreDx(InitialPlayer.transform, TileTransform(i, j)), CentreDy(InitialPlayer.transform, TileTransform(i, j));
    assert dx == 64.0 - j as real * 64.0 && dy == 64.0 - i as real * 64.0;
    assert Abs(dx) <= 47.0 && Abs(dy) <= 47.0;
  }

  /**
   The tile entities: cell k of the row-major order sits at column k % 21 and
   row k / 21, scaled by the tile size, and a tile is Collidable exactly when
   it is solid. An explodable block has the transform of the base tile of its
   cell and is Collidable.
   */
  lemma TileEntitiesMatchCells()
    ensures |GridTiles()| == CellCount
    ensures forall k :: 0 <= k < CellCount ==>
      var i, j := k / WidthTilesNum, k % WidthTilesNum;
      GridTiles()[k].transform == Transform(Vec2(TileSize, TileSize), Vec2(j as real * TileSize, i as real * TileSize)) &&
      GridTiles()[k].tile == Some(if IsSolidCell(i, j) then SolidBlock else TileType.None) &&
      (GridTiles()[k].collidable.Some? <==> IsSolidCell(i, j)) &&
      !GridTiles()[k].player
    ensures forall t: TileIndex ::
      ExplodableEntity(t).transform == BaseTileEntity(t.row, t.col).transform &&
      ExplodableEntity(t).collidable.Some? && ExplodableEntity(t).tile == Some(ExplodableBlock)
  {
  }
}
