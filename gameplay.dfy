/**
 `EcsGameplay`: builds the level (the player, the grid of tiles and the
 explodable blocks) and runs the systems once per tick in a fixed order.
 */
module Gameplay {
  import opened Wrappers
  import opened Geometry
  import opened Entities
  import opened Collision
  import opened MapGeneration

  /** The index of the first Player entity: `entities_with_components<Player>().begin()`. */
  function FirstPlayer(es: seq<Entity>): (k: nat)
    requires exists k :: 0 <= k < |es| && es[k].player
    ensures k < |es| && es[k].player
    ensures forall m :: 0 <= m < k ==> !es[m].player
  {
    if es[0].player then 0
    else
      assert exists k :: 0 <= k < |es[1..]| && es[1..][k].player by {
        var k :| 0 <= k < |es| && es[k].player;
        assert es[1..][k - 1] == es[k];
      }
      1 + FirstPlayer(es[1..])
  }

  predicate HasPlayer(es: seq<Entity>) {
    exists k :: 0 <= k < |es| && es[k].player
  }

  /** Entities appended after a player do not change which player comes first. */
  lemma {:induction false} FirstPlayerOfPrefix(es: seq<Entity>, more: seq<Entity>)
    requires HasPlayer(es)
    ensures HasPlayer(es + more)
    ensures FirstPlayer(es + more) == FirstPlayer(es)
    ensures (es + more)[FirstPlayer(es)] == es[FirstPlayer(es)]
  {
    var k := FirstPlayer(es);
    assert (es + more)[k] == es[k];
    if !es[0].player {
      assert (es + more)[1..] == es[1..] + more;
      FirstPlayerOfPrefix(es[1..], more);
    }
  }

  /** The cell of the first player: where `createExplodableBlocks` keeps the area clear. */
  function PlayerCell(es: seq<Entity>): TileIndex
    requires HasPlayer(es)
  {
    PlayerPositionIndex(es[FirstPlayer(es)].transform.position)
  }

  /** Entities appended after the player do not move the cell that is kept clear. */
  lemma PlayerCellOfPrefix(es: seq<Entity>, all: seq<Entity>)
    requires HasPlayer(es) && |es| <= |all| && all[..|es|] == es
    ensures HasPlayer(all) && PlayerCell(all) == PlayerCell(es)
  {
    FirstPlayerOfPrefix(es, all[|es|..]);
    assert es + all[|es|..] == all;
  }

  // ---------------------------------------------------------------------------
  // Input

  datatype Key = Space | OtherKey
  datatype InputEvent = KeyReleased(code: Key) | KeyPressed(code: Key) | OtherEvent

  /** `SpawnBombEvent`: the entity that wants to place a bomb. */
  datatype SpawnBombEvent = SpawnBombEvent(entity: EntityId)

  /** `handleEvent`: releasing Space asks for a bomb at the first player. */
  function HandleEvent(event: InputEvent, es: seq<Entity>): (r: Option<SpawnBombEvent>)
    requires event == KeyReleased(Space) ==> HasPlayer(es)
    ensures r.Some? <==> event == KeyReleased(Space)
    ensures r.Some? ==> r.value.entity < |es| && es[r.value.entity].player
    ensures r.Some? ==> forall m :: 0 <= m < r.value.entity ==> !es[m].player
  {
    if event.KeyReleased? && event.code == Space then Some(SpawnBombEvent(FirstPlayer(es))) else Option.None
  }

  // ---------------------------------------------------------------------------
  // The systems a tick runs that are not part of this model

  /**
   The movement, explosion, animation or power-up system: the entities after
   its update, and the move-change events it emits during it, in order.
   */
  type SystemStep = (seq<Entity>, real) -> (seq<Entity>, seq<MoveChangeEvent>)

  /**
   The entities after one tick and the events still queued for the collision
   system, given the other systems' effects: the events emitted before the
   collision update are drained by it, those the power-up system emits wait
   for the next tick.
   */
  function TickResult(es: seq<Entity>, queued: seq<MoveChangeEvent>, dt: real,
                      move: SystemStep, explosion: SystemStep, animate: SystemStep, powerUp: SystemStep)
    : (seq<Entity>, seq<MoveChangeEvent>)
  {
    var moved := move(es, dt);
    var exploded := explosion(moved.0, dt);
    var animated := animate(exploded.0, dt);
    powerUp(Tick(animated.0, queued + moved.1 + exploded.1 + animated.1), dt)
  }

  /** The cells before (i, j) in row-major order hold the type `createMap` gives them. */
  predicate FilledUpTo(tiles: array2<TileType>, i: int, j: int)
    requires tiles.Length0 == HeightTilesNum && tiles.Length1 == WidthTilesNum
    reads tiles
  {
    forall a, b :: 0 <= a < HeightTilesNum && 0 <= b < WidthTilesNum && (a < i || (a == i && b < j)) ==>
      tiles[a, b] == BaseTileType(a, b)
  }

  /** The contents of the grid, row by row. */
  function Snapshot(tiles: array2<TileType>): (m: seq<seq<TileType>>)
    requires tiles.Length0 == HeightTilesNum && tiles.Length1 == WidthTilesNum
    reads tiles
    ensures |m| == HeightTilesNum
    ensures forall i :: 0 <= i < HeightTilesNum ==> |m[i]| == WidthTilesNum
    ensures forall i, j :: 0 <= i < HeightTilesNum && 0 <= j < WidthTilesNum ==> m[i][j] == tiles[i, j]
  {
    seq(HeightTilesNum, i requires 0 <= i < HeightTilesNum reads tiles =>
      seq(WidthTilesNum, j requires 0 <= j < WidthTilesNum reads tiles => tiles[i, j]))
  }

  /** A grid filled in by the nested loops of `createMap` holds the base layout. */
  lemma SnapshotOfFilled(tiles: array2<TileType>)
    requires tiles.Length0 == HeightTilesNum && tiles.Length1 == WidthTilesNum
    requires FilledUpTo(tiles, HeightTilesNum, 0)
    ensures Snapshot(tiles) == BaseMap()
  {
    var m, b := Snapshot(tiles), BaseMap();
    forall i | 0 <= i < HeightTilesNum
      ensures m[i] == b[i]
    {
      assert forall j :: 0 <= j < WidthTilesNum ==> m[i][j] == b[i][j];
    }
  }

  /** A grid that agrees with `m` except for explodable blocks on the cells `e` is `Overlay(m, e)`. */
  lemma SnapshotOfOverlay(tiles: array2<TileType>, m: seq<seq<TileType>>, e: seq<TileIndex>)
    requires tiles.Length0 == HeightTilesNum && tiles.Length1 == WidthTilesNum
    requires |m| == HeightTilesNum && forall i :: 0 <= i < HeightTilesNum ==> |m[i]| == WidthTilesNum
    requires forall a, b :: 0 <= a < HeightTilesNum && 0 <= b < WidthTilesNum ==>
      tiles[a, b] == if TileIndex(a, b) in e then ExplodableBlock else m[a][b]
    ensures Snapshot(tiles) == Overlay(m, e)
  {
    var s, o := Snapshot(tiles), Overlay(m, e);
    forall i | 0 <= i < HeightTilesNum
      ensures s[i] == o[i]
    {
      assert forall j :: 0 <= j < WidthTilesNum ==> s[i][j] == o[i][j];
    }
  }

  class EcsGameplay {
    const entities: EntityManager
    const collision: CollisionSystem
    /** The `Map` component of the map entity: the grid of tile types. */
    var mapTiles: seq<seq<TileType>>

    /**
     The constructor creates the systems, then the player, then the map; the
     permutation stands for the order `std::shuffle` gives the free cells.
     */
    constructor (perm: seq<nat>)
      requires IsIndexMap(perm, BlankTileCount)
      ensures fresh(entities) && fresh(collision)
      ensures entities.entities ==
        [InitialPlayer] + GridTiles() +
        ExplodableEntities(Explodables(KeptFreeCells(perm), PlayerPositionIndex(InitialPlayer.transform.position)))
      ensures collision.moveChangeEvents == [MoveChangeEvent(0, Direction.None)]
      ensures mapTiles ==
        GeneratedMap(Explodables(KeptFreeCells(perm), PlayerPositionIndex(InitialPlayer.transform.position)))
    {
      entities := new EntityManager();
      collision := new CollisionSystem();
      mapTiles := [];
      new;
      var player := CreatePlayer();
      assert entities.entities == [InitialPlayer] && entities.entities[0].player;
      CreateMap(perm);
    }

    /** `createPlayer`: the player entity, and a move-change event for it. */
    method CreatePlayer() returns (id: EntityId)
      modifies entities, collision
      ensures id == |old(entities.entities)|
      ensures entities.entities == old(entities.entities) + [InitialPlayer]
      ensures collision.moveChangeEvents == old(collision.moveChangeEvents) + [MoveChangeEvent(id, Direction.None)]
    {
      id := entities.Create(InitialPlayer);
      collision.Receive(MoveChangeEvent(id, Direction.None));
    }

    /** `createMap`: fill the grid row by row, place the explodable blocks, store the map. */
    method CreateMap(perm: seq<nat>)
      requires HasPlayer(entities.entities)
      requires IsIndexMap(perm, BlankTileCount)
      modifies this, entities
      ensures entities.entities ==
        old(entities.entities) + GridTiles() +
        ExplodableEntities(Explodables(KeptFreeCells(perm), PlayerCell(old(entities.entities))))
      ensures mapTiles == GeneratedMap(Explodables(KeptFreeCells(perm), PlayerCell(old(entities.entities))))
    {
      ghost var before := entities.entities;
      var tiles := new TileType[HeightTilesNum, WidthTilesNum];
      var blankTilesIndexes := FillGrid(tiles);
      PlayerCellOfPrefix(before, entities.entities);
      CreateExplodableBlocks(tiles, blankTilesIndexes, perm);
      mapTiles := Snapshot(tiles);
    }

    /** The nested loops of `createMap`: a tile entity per cell, the grid, and the free cells in order. */
    method FillGrid(tiles: array2<TileType>) returns (blankTilesIndexes: seq<TileIndex>)
      requires tiles.Length0 == HeightTilesNum && tiles.Length1 == WidthTilesNum
      modifies tiles, entities
      ensures blankTilesIndexes == GridBlanks(HeightTilesNum)
      ensures |blankTilesIndexes| == BlankTileCount
      ensures forall k :: 0 <= k < |blankTilesIndexes| ==> InGrid(blankTilesIndexes[k])
      ensures entities.entities == old(entities.entities) + GridTiles()
      ensures Snapshot(tiles) == BaseMap()
    {
      blankTilesIndexes := [];
      ghost var before := entities.entities;
      for i := 0 to HeightTilesNum
        invariant blankTilesIndexes == GridBlanks(i)
        invariant entities.entities == before + CellTiles(i * WidthTilesNum)
        invariant FilledUpTo(tiles, i, 0)
      {
        blankTilesIndexes := CreateRow(tiles, i, blankTilesIndexes);
        ConcatAssoc(before, CellTiles(i * WidthTilesNum), RowTiles(i, WidthTilesNum));
        RowExtendsCells(i, WidthTilesNum);
      }
      SnapshotOfFilled(tiles);
      GridBlanksAreFree(HeightTilesNum);
      BlankTileCountIs280();
    }

    /** One pass of the outer loop of `createMap`: the tiles of row `i`, left to right. */
    method CreateRow(tiles: array2<TileType>, i: nat, blanks: seq<TileIndex>) returns (blankTilesIndexes: seq<TileIndex>)
      requires tiles.Length0 == HeightTilesNum && tiles.Length1 == WidthTilesNum
      requires i < HeightTilesNum && FilledUpTo(tiles, i, 0)
      modifies tiles, entities
      ensures blankTilesIndexes == blanks + RowBlanks(i, WidthTilesNum)
      ensures entities.entities == old(entities.entities) + RowTiles(i, WidthTilesNum)
      ensures FilledUpTo(tiles, i + 1, 0)
      ensures forall a, b :: i < a < HeightTilesNum && 0 <= b < WidthTilesNum ==> tiles[a, b] == old(tiles[a, b])
    {
      blankTilesIndexes := blanks;
      ghost var before := entities.entities;
      for j := 0 to WidthTilesNum
        invariant blankTilesIndexes == blanks + RowBlanks(i, j)
        invariant entities.entities == before + RowTiles(i, j)
        invariant FilledUpTo(tiles, i, j)
        invariant forall a, b :: 0 <= a < HeightTilesNum && 0 <= b < WidthTilesNum && (a > i || (a == i && b >= j)) ==>
          tiles[a, b] == old(tiles[a, b])
      {
        ConcatAssoc(before, RowTiles(i, j), [BaseTileEntity(i, j)]);
        RowBlanksStep(i, j);
        CreateTile(tiles, i, j);
        if !IsSolidCell(i, j) {
          ConcatAssoc(blanks, RowBlanks(i, j), [TileIndex(i, j)]);
          blankTilesIndexes := blankTilesIndexes + [TileIndex(i, j)];
        }
      }
      assert FilledUpTo(tiles, i + 1, 0);
    }

    /** One cell of the nested loops: its tile entity, and its type in the grid. */
    method CreateTile(tiles: array2<TileType>, i: nat, j: nat)
      requires tiles.Length0 == HeightTilesNum && tiles.Length1 == WidthTilesNum
      requires i < HeightTilesNum && j < WidthTilesNum && FilledUpTo(tiles, i, j)
      modifies tiles, entities
      ensures entities.entities == old(entities.entities) + [BaseTileEntity(i, j)]
      ensures FilledUpTo(tiles, i, j + 1)
      ensures forall a, b :: 0 <= a < HeightTilesNum && 0 <= b < WidthTilesNum && (a != i || b != j) ==>
        tiles[a, b] == old(tiles[a, b])
    {
      var tile := entities.Create(BaseTileEntity(i, j));
      if IsSolidCell(i, j) {
        tiles[i, j] := SolidBlock;
      } else {
        tiles[i, j] := TileType.None;
      }
    }

    /**
     `createExplodableBlocks`: shuffle the free cells, keep the first 70% and
     turn those outside the player's 5 x 5 neighbourhood into explodable blocks.
     */
    method CreateExplodableBlocks(tiles: array2<TileType>, blanks: seq<TileIndex>, perm: seq<nat>)
      requires tiles.Length0 == HeightTilesNum && tiles.Length1 == WidthTilesNum
      requires forall k :: 0 <= k < |blanks| ==> InGrid(blanks[k])
      requires IsIndexMap(perm, |blanks|)
      requires HasPlayer(entities.entities)
      modifies tiles, entities
      ensures entities.entities ==
        old(entities.entities) + ExplodableEntities(Explodables(Kept(blanks, perm), PlayerCell(old(entities.entities))))
      ensures Snapshot(tiles) == Overlay(old(Snapshot(tiles)), Explodables(Kept(blanks, perm), PlayerCell(old(entities.entities))))
    {
      ghost var before := Snapshot(tiles);
      var playerPosition := entities.entities[FirstPlayer(entities.entities)].transform.position;
      var playerPositionIndex := PlayerPositionIndex(playerPosition);
      var kept := Permute(blanks, perm);
      var splitPos := SplitPos(|kept|);
      kept := kept[..splitPos];
      KeptInGrid(blanks, perm);
      PlaceExplodableBlocks(tiles, kept, playerPositionIndex);
      SnapshotOfOverlay(tiles, before, Explodables(kept, playerPositionIndex));
    }

    /** The loop of `createExplodableBlocks`: a block on every kept cell far from the player. */
    method PlaceExplodableBlocks(tiles: array2<TileType>, kept: seq<TileIndex>, playerPositionIndex: TileIndex)
      requires tiles.Length0 == HeightTilesNum && tiles.Length1 == WidthTilesNum
      requires forall k :: 0 <= k < |kept| ==> InGrid(kept[k])
      modifies tiles, entities
      ensures entities.entities == old(entities.entities) + ExplodableEntities(Explodables(kept, playerPositionIndex))
      ensures forall a, b :: 0 <= a < HeightTilesNum && 0 <= b < WidthTilesNum ==>
        tiles[a, b] == if TileIndex(a, b) in Explodables(kept, playerPositionIndex) then ExplodableBlock else old(tiles[a, b])
    {
      ghost var before := entities.entities;
      ghost var placed: seq<TileIndex> := [];
      for k := 0 to |kept|
        invariant placed == Explodables(kept[..k], playerPositionIndex)
        invariant entities.entities == before + ExplodableEntities(placed)
        invariant forall a, b :: 0 <= a < HeightTilesNum && 0 <= b < WidthTilesNum ==>
          tiles[a, b] == if TileIndex(a, b) in placed then ExplodableBlock else old(tiles[a, b])
      {
        var blankTileIndex := kept[k];
        assert kept[..k + 1] == kept[..k] + [blankTileIndex];
        ExplodablesStep(kept[..k], blankTileIndex, playerPositionIndex);
        if FarFromPlayer(blankTileIndex, playerPositionIndex) {
          label Step:
          PlaceBlock(tiles, blankTileIndex);
          ConcatAssoc(before, ExplodableEntities(placed), [ExplodableEntity(blankTileIndex)]);
          forall a, b | 0 <= a < HeightTilesNum && 0 <= b < WidthTilesNum
            ensures tiles[a, b] == if TileIndex(a, b) in placed + [blankTileIndex] then ExplodableBlock else old(tiles[a, b])
          {
            assert old@Step(tiles[a, b]) == if TileIndex(a, b) in placed then ExplodableBlock else old(tiles[a, b]);
            MemberOfAppend(placed, blankTileIndex, TileIndex(a, b));
          }
          placed := placed + [blankTileIndex];
        }
      }
      assert kept[..|kept|] == kept;
    }

    /** One explodable block: its entity, and its cell in the grid. */
    method PlaceBlock(tiles: array2<TileType>, t: TileIndex)
      requires tiles.Length0 == HeightTilesNum && tiles.Length1 == WidthTilesNum && InGrid(t)
      modifies tiles, entities
      ensures entities.entities == old(entities.entities) + [ExplodableEntity(t)]
      ensures forall a, b :: 0 <= a < HeightTilesNum && 0 <= b < WidthTilesNum ==>
        tiles[a, b] == if TileIndex(a, b) == t then ExplodableBlock else old(tiles[a, b])
    {
      var tile := entities.Create(ExplodableEntity(t));
      tiles[t.row, t.col] := ExplodableBlock;
    }

    /**
     `update`: one tick runs Move, Explosion, Animate, Collision and PowerUp, in
     that order. The move-change events a system emits reach the collision
     system's queue as they are emitted.
     */
    method Update(dt: real, move: SystemStep, explosion: SystemStep, animate: SystemStep, powerUp: SystemStep)
      returns (running: bool)
      modifies entities, collision
      ensures running
      ensures (entities.entities, collision.moveChangeEvents) ==
        TickResult(old(entities.entities), old(collision.moveChangeEvents), dt, move, explosion, animate, powerUp)
    {
      var moved := move(entities.entities, dt);
      entities.entities := moved.0;
      Deliver(moved.1);
      var exploded := explosion(entities.entities, dt);
      entities.entities := exploded.0;
      Deliver(exploded.1);
      var animated := animate(entities.entities, dt);
      entities.entities := animated.0;
      Deliver(animated.1);
      collision.Update(entities, dt);
      var poweredUp := powerUp(entities.entities, dt);
      entities.entities := poweredUp.0;
      Deliver(poweredUp.1);
      assert [] + poweredUp.1 == poweredUp.1;
      running := true;
    }

    /** The event manager hands each emitted move-change event to `receive`, in order. */
    method Deliver(emitted: seq<MoveChangeEvent>)
      modifies collision
      ensures collision.moveChangeEvents == old(collision.moveChangeEvents) + emitted
    {
      for k := 0 to |emitted|
        invariant collision.moveChangeEvents == old(collision.moveChangeEvents) + emitted[..k]
      {
        assert emitted[..k + 1] == emitted[..k] + [emitted[k]];
        collision.Receive(emitted[k]);
      }
      assert emitted[..|emitted|] == emitted;
    }
  }

}
