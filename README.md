# Bomberman gameplay core: collision resolution and level generation

This project models two parts of the gameplay simulation of a Bomberman-style
game built on an entity-component system (entityx).

- **The collision system** (`CollisionSystem`). Once per tick it first drains
  its queue of move-change events. Each queued entity that is Collidable gets
  a fresh Collidable that keeps its spawner. Then, for every entity that is
  both a Player and Collidable, it resets the player's direction and compares
  the player with every other Collidable entity in creation order. An
  overlapping entity pushes the player out along the axis of least
  penetration relative to the half-extent sums (the source compares w·dy
  with h·dx), and the player's direction becomes the label of that push. An
  entity whose spawner is the player (a bomb it has just placed) does not push
  it. Once the two no longer overlap, that spawner is cleared.
- **The level set-up of `EcsGameplay`.** `createPlayer` makes the player and
  queues a move-change event for it. `createMap` fills a 21 x 21 grid row by
  row: border cells and cells whose two indices are both even are solid
  blocks, all other cells are free, and every cell gets a tile entity.
  `createExplodableBlocks` shuffles the free cells and keeps the first 70%.
  Each kept cell becomes an explodable block unless it lies inside the 5 x 5
  block of cells around the player. `update` runs the systems in a fixed
  order. `handleEvent` turns a released Space key into a bomb request for the
  first player.

The modules follow the program:

| module | what it holds |
|---|---|
| `Geometry` | the rectangle test and push of `checkCollision` |
| `Entities` | the entity record and the entity store |
| `Collision` | the collision system as a class, and the functions that specify its loops |
| `CollisionProperties` | what one collision tick promises |
| `MapGeneration` | the grid layout and the explodable-block selection, as functions |
| `MapProperties` | what the generated level looks like |
| `Gameplay` | the `EcsGameplay` class |

The loops of the source are methods with loop invariants. Each method is
proved against a specification function: `Drain`, `Resolution`, `GridBlanks`,
`GridTiles`, `Explodables` or `GeneratedMap`. The lemmas then state the
game's promises about those functions.

Two facts about the code are worth stating on their own:

- In a pass every non-exempt push is applied in turn, each seeing the
  position the earlier ones left, and the last one sets the player's
  direction (`CollisionProperties.LastCorrectionWins`).
- The player at its start position (81, 81) does not touch the solid block
  at (0, 64): their centres are 64 apart and the half-widths add up to 47
  (`MapProperties.StartOverlapsOnlyItsTile`).

## Model

| member | source | states |
|---|---|---|
| Geometry.CheckCollision | Bomberman/CollisionSystem.cpp:59-91 | There is a result exactly when the rectangles overlap, and touching edges count as overlap. A result is never labelled None. A vertical push has x = 0 and length h - abs(dy). A horizontal push has y = 0 and length w - abs(dx). The push points +y for Up, -y for Down, +x for Left and -x for Right. Coinciding centres give Down with push (0, -h). |
| Geometry.LabelSigns | Bomberman/CollisionSystem.cpp:71-87 | With positive sizes, each label matches the side the player lies on. Up means the player's centre is below the other's (dy > 0), Down means dy <= 0, Left means dx > 0 and Right means dx < 0. |
| Geometry.CorrectionMakesEdgeAdjacent | Bomberman/CollisionSystem.cpp:71-87 | After the push the rectangles touch exactly on the side the label names: dy = h for Up, -h for Down, dx = w for Left, -w for Right. The centre distance on the other axis is unchanged. |
| Geometry.CorrectionIsMinimal | Bomberman/CollisionSystem.cpp:71-87 | The chosen axis is the one of least scaled penetration: h·abs(dx) <= w·abs(dy) for a vertical push, and the reverse for a horizontal one. |
| Geometry.CorrectionIsIdempotent | Bomberman/CollisionSystem.cpp:64-87 | The moved player still overlaps the other rectangle, and checking again yields a zero push. |
| Geometry.ResolveOnEdge | Bomberman/CollisionSystem.cpp:74-87 | Rectangles that only touch produce a zero push. |
| Entities.EntityManager.Create | Bomberman/EcsGameplay.cpp:70-71 | The new entity is appended to the store, and its handle is its position in creation order. |
| Collision.Compare | Bomberman/CollisionSystem.cpp:13-26 | One comparison keeps the number of entities, and keeps every entity's tags and set of components. |
| Collision.PlayerPass | Bomberman/CollisionSystem.cpp:11-27 | A player's pass keeps the number of entities, and keeps every entity's tags and set of components. |
| Collision.Resolution | Bomberman/CollisionSystem.cpp:10-28 | The outer loop keeps the number of entities, and keeps every entity's tags and set of components. |
| Collision.LastApplied | Bomberman/CollisionSystem.cpp:15-20 | If it returns an index, the comparison at that index moved the player and no later comparison did. If it returns None, no comparison moved the player. |
| Collision.ResetCollidable | Bomberman/CollisionSystem.cpp:45-49 | Handling one event keeps the number of entities. |
| Collision.Drain | Bomberman/CollisionSystem.cpp:43-50 | Handling the queued events keeps the number of entities. |
| Collision.Tick | Bomberman/CollisionSystem.cpp:6-29 | A collision tick keeps the number of entities. |
| Collision.CollisionSystem.Receive | Bomberman/CollisionSystem.cpp:36-39 | The event is queued after all earlier ones. |
| Collision.CollisionSystem.HandleMoveChangeEvents | Bomberman/CollisionSystem.cpp:41-52 | The entities become the drained state of the queued events, and the queue is empty afterwards. |
| Collision.CollisionSystem.Update | Bomberman/CollisionSystem.cpp:6-29 | The nested loops leave exactly the state of one collision tick over the old entities and the old queue, and the queue is empty afterwards. |
| CollisionProperties.PlayerPassFrame | Bomberman/CollisionSystem.cpp:10-27 | During a player's pass the player keeps its size and its spawner. Another entity either stays as it was, or is exempt and loses its spawner. |
| CollisionProperties.LastCorrectionWins | Bomberman/CollisionSystem.cpp:11-20 | Each comparison sees the position left by the earlier ones. With no moving comparison the player keeps its position and ends with direction None. Otherwise the player ends in the state produced by the last moving comparison. |
| CollisionProperties.FinalContactWithLastObstacle | Bomberman/CollisionSystem.cpp:15-20 | With positive sizes, the player ends its pass touching the last entity that pushed it, on the side its final direction names. That entity is not the player and has not moved. |
| CollisionProperties.SpawnerExemption | Bomberman/CollisionSystem.cpp:16-24 | An overlapping entity spawned by the player changes nothing. A separated one loses its spawner and nothing else changes. A comparison with an entity it does not exempt never changes that entity. |
| CollisionProperties.ExemptionIsOwnerOnly | Bomberman/CollisionSystem.cpp:54-57 | The exemption holds exactly when the other entity's spawner names the player. So an entity exempts at most one player, and once its spawner is cleared it exempts none. |
| CollisionProperties.ResolutionFrame | Bomberman/CollisionSystem.cpp:10-27 | Over the pairwise pass that follows the drain, no entity changes size. An entity that is not a Collidable player neither moves nor changes direction during that pass. It changes at all only by losing a spawner that named a Collidable player. The drain before the pass may still reset a queued entity's direction (`DrainClosedForm`). |
| CollisionProperties.ResetIdempotent | Bomberman/CollisionSystem.cpp:48 | Resetting a Collidable twice gives the same as resetting it once. |
| CollisionProperties.DrainClosedForm | Bomberman/CollisionSystem.cpp:43-51 | Draining resets exactly the Collidable entities some queued event names, and leaves every other entity unchanged. In particular an empty queue changes nothing. |
| CollisionProperties.ResetKeepsSpawner | Bomberman/CollisionSystem.cpp:47-48 | A reset keeps the transform, the spawner and every other component, and sets the direction to the default. |
| CollisionProperties.DrainIdempotent | Bomberman/CollisionSystem.cpp:43-51 | Handling the same events a second time changes nothing more. |
| CollisionProperties.BombGracePeriod | Bomberman/CollisionSystem.cpp:10-27 | One concrete scenario: a bomb on tile (1, 1) placed by the player, with the player at (81, 81) or at (200, 81). While they overlap the pass changes nothing, once they are apart the bomb loses its spawner, and after that it pushes the player like any other obstacle, by (0, -47) with the label Down. The general statement is `SpawnerExemption`. |
| MapGeneration.RowTiles | Bomberman/EcsGameplay.cpp:68-71 | The inner loop makes one tile entity per column visited. |
| MapGeneration.RowExtendsCells | Bomberman/EcsGameplay.cpp:66-71 | The tiles of row i, in column order, continue the row-major list of the rows above it. |
| MapGeneration.RowBlanksStep | Bomberman/EcsGameplay.cpp:73-85 | Visiting cell (i, j) appends it to the blank list exactly when it is not solid. |
| MapGeneration.RowBlanksAreFreeCells | Bomberman/EcsGameplay.cpp:68-85 | A row's blank list holds exactly that row's free cells, in increasing column order. |
| MapGeneration.GridBlanksAreFree | Bomberman/EcsGameplay.cpp:66-85 | Every entry of the blank list of the first n rows is a free cell of the grid in those rows. |
| MapGeneration.GridBlanksAreComplete | Bomberman/EcsGameplay.cpp:66-85 | Every free cell of the first n rows is in their blank list. |
| MapGeneration.GridBlanksAreOrdered | Bomberman/EcsGameplay.cpp:66-85 | The blank list is in strict row-major order. |
| MapGeneration.BlanksAreFreeCellsInOrder | Bomberman/EcsGameplay.cpp:66-85 | Before the shuffle the blank list holds exactly the free cells of the grid, in row-major order. |
| MapGeneration.GridBlanksLength | Bomberman/EcsGameplay.cpp:66-85 | Odd rows have 19 free cells, inner even rows 10 and the border rows none. This gives the number of free cells in the first n rows. |
| MapGeneration.BlankTileCountIs280 | Bomberman/EcsGameplay.cpp:66-106 | The fixed layout has 280 free cells, and the 70% cut keeps 196 of them. |
| MapGeneration.Permute | Bomberman/EcsGameplay.cpp:100-102 | The shuffled list has the same length, and entry k is the entry of the original list that perm[k] names. |
| MapGeneration.SplitPos | Bomberman/EcsGameplay.cpp:105 | The cut position is the largest count r with 10·r <= 7·n, so the integer part of 0.7·n. It never exceeds n. |
| MapGeneration.TruncToInt | Bomberman/EcsGameplay.cpp:104 | The cast truncates toward zero: it is the floor for non-negative values, it is never positive for negative values, and its magnitude is within 1 below the magnitude of the value. |
| MapGeneration.Explodables | Bomberman/EcsGameplay.cpp:108-111 | The filter keeps at most as many cells as it is given. |
| MapGeneration.ExplodableEntities | Bomberman/EcsGameplay.cpp:113-117 | One entity is made per selected cell. |
| MapGeneration.KeptInGrid | Bomberman/EcsGameplay.cpp:105-106 | The cells left after the shuffle and the cut are entries of the blank list, so they lie inside the grid. |
| MapGeneration.BaseMap | Bomberman/EcsGameplay.cpp:73-84 | The grid is 21 x 21 before explodable blocks are placed. A cell is SolidBlock exactly when it is on the border or both its indices are even, and None otherwise. |
| MapGeneration.Overlay | Bomberman/EcsGameplay.cpp:118 | Placing blocks on the cells e turns exactly those cells into ExplodableBlock and leaves every other cell as it was. |
| MapGeneration.GeneratedMap | Bomberman/EcsGameplay.cpp:61-94 | The finished grid is 21 x 21. |
| MapGeneration.ExplodablesStep | Bomberman/EcsGameplay.cpp:108-119 | One more kept cell adds that cell, and its entity, exactly when it is far from the player. |
| MapProperties.ExplodablesMembers | Bomberman/EcsGameplay.cpp:108-111 | A cell becomes an explodable block exactly when it was kept and lies outside the 5 x 5 block around the player. |
| MapProperties.KeptAreFree | Bomberman/EcsGameplay.cpp:100-106 | Exactly 196 entries survive the shuffle and the cut, whatever the index map. Each of them is a free cell of the grid. Distinct cells are stated by `KeptAreDistinct`. |
| MapProperties.KeptAreDistinct | Bomberman/EcsGameplay.cpp:100-106 | When the index map is a permutation, as `std::shuffle` gives, the kept entries are pairwise distinct cells. |
| MapProperties.GeneratedLayout | Bomberman/EcsGameplay.cpp:73-118 | In the finished grid a cell is SolidBlock exactly when the layout makes it solid. It is ExplodableBlock exactly when it was kept and lies far from the player. It is None otherwise. So explodable blocks never replace solid ones. |
| MapProperties.StartCell | Bomberman/EcsGameplay.cpp:104 | The player's start position (81, 81) lies in cell (1, 1). |
| MapProperties.StartAreaClear | Bomberman/EcsGameplay.cpp:110-111 | No explodable block lies within two cells of the player's cell on both axes. |
| MapProperties.StartOverlapsOnlyItsTile | Bomberman/EcsGameplay.cpp:127 | The player's start rectangle overlaps only the tile of cell (1, 1), which is free. So no solid block touches the player at the start. |
| MapProperties.TileEntitiesMatchCells | Bomberman/EcsGameplay.cpp:71-83 | Tile k of the row-major order has size (64, 64) and position (j·64, i·64) for row i = k / 21 and column j = k % 21. Its tile type is the cell's type, it is Collidable exactly when solid, and it is not a player. An explodable block has the transform of its cell's tile and is Collidable. |
| Gameplay.FirstPlayer | Bomberman/EcsGameplay.cpp:98 | The index returned holds a player, and no earlier entity is one. |
| Gameplay.FirstPlayerOfPrefix | Bomberman/EcsGameplay.cpp:98 | Entities created after a player do not change which player comes first. |
| Gameplay.PlayerCellOfPrefix | Bomberman/EcsGameplay.cpp:98-104 | The tiles that `createMap` creates before `createExplodableBlocks` runs do not move the cell that is kept clear. |
| Gameplay.HandleEvent | Bomberman/EcsGameplay.cpp:51-59 | A bomb request is emitted exactly when Space is released. It names the first player entity. |
| Gameplay.Snapshot | Bomberman/EcsGameplay.cpp:92-93 | The stored map is 21 x 21 and agrees with the grid in every cell. |
| Gameplay.SnapshotOfFilled | Bomberman/EcsGameplay.cpp:66-88 | A grid filled by the nested loops holds the base layout. |
| Gameplay.SnapshotOfOverlay | Bomberman/EcsGameplay.cpp:108-120 | A grid that agrees with m except for explodable blocks on the cells e equals the overlay of e on m. |
| Gameplay.EcsGameplay.constructor | Bomberman/EcsGameplay.cpp:21-34 | The constructor creates the player first, then the tile entities in row-major order, then the explodable entities. The queue holds the player's move-change event, and the map is the generated grid. |
| Gameplay.EcsGameplay.CreatePlayer | Bomberman/EcsGameplay.cpp:123-133 | The player is appended with size (30, 30), position (81, 81), velocity (512, 512), direction None and a default Collidable. A move-change event naming it is queued. |
| Gameplay.EcsGameplay.CreateMap | Bomberman/EcsGameplay.cpp:61-94 | The existing entities are followed by the grid's tile entities and then the explodable entities. The stored map is the generated grid for the first player's cell. |
| Gameplay.EcsGameplay.FillGrid | Bomberman/EcsGameplay.cpp:66-88 | The nested loops append one tile entity per cell in row-major order. The grid holds the base layout. The blank list is the 280 free cells, in row-major order. |
| Gameplay.EcsGameplay.CreateRow | Bomberman/EcsGameplay.cpp:68-87 | One pass of the outer loop appends row i's tiles and free cells, in column order, and fills row i of the grid. The rows below are unchanged. |
| Gameplay.EcsGameplay.CreateTile | Bomberman/EcsGameplay.cpp:70-85 | One cell appends its tile entity and writes its type into the grid. No other cell changes. |
| Gameplay.EcsGameplay.CreateExplodableBlocks | Bomberman/EcsGameplay.cpp:96-121 | One explodable entity is appended per kept cell far from the first player, in order. Exactly those cells of the grid become ExplodableBlock. |
| Gameplay.EcsGameplay.PlaceExplodableBlocks | Bomberman/EcsGameplay.cpp:108-120 | The loop appends one explodable entity per kept cell far from the player, in order. It changes exactly those cells of the grid. |
| Gameplay.EcsGameplay.PlaceBlock | Bomberman/EcsGameplay.cpp:113-118 | One explodable block appends its entity and changes only its own cell of the grid. |
| Gameplay.EcsGameplay.Deliver | Bomberman/CollisionSystem.cpp:31-39 | Emitted move-change events are appended to the collision queue in the order emitted. |
| Gameplay.EcsGameplay.Update | Bomberman/EcsGameplay.cpp:36-44 | A tick runs Move, Explosion, Animate, Collision and PowerUp in that order. The move-change events the first three systems emit reach the collision queue before the collision update drains it. Those the power-up system emits stay queued for the next tick. It always reports that the game goes on. |

## Left out

- Rendering is not modelled: `draw`, the textures, the `Drawable` and `Animated` components and the resolved `getResource` calls are all decoration for the simulation.
- Input is not modelled beyond one fact: releasing Space emits a bomb request for the first player. The event bus is not modelled; the request is returned as a value.
- Gameplay.HandleEvent requires a player when Space is released, because the source dereferences the first Player without checking that one exists.
- Randomness is not modelled. `std::random_device` and `std::shuffle` become a parameter `perm` that names, for each position, an entry of the free-cell list. A permutation is one such map; every property holds for any index map except `KeptAreDistinct`, which needs the map to be a permutation.
- entityx is not modelled: component pools, version counters, `each` and the subscribe/emit machinery. An entity is its index in creation order and no entity is destroyed, so "still alive" is "index within the store".
- Floating point is not modelled: coordinates are exact reals.
- The split `size * 0.7f` becomes the exact integer part of 0.7·n. For the 280 free cells of this layout the exact product is 196. The source gives 196 too when the product `280 * 0.7f` is rounded to single precision. Evaluated in a wider format it is 195.99999666, and the cast gives 195. Which format is used depends on the compiler (`FLT_EVAL_METHOD`).
- Geometry.CheckCollision: `abs` of a float is taken as the real absolute value. The headers that decide which `abs` overload the source calls are not part of this model.
- The Move, Explosion, Animate and PowerUp systems are not part of this model. Each one is a function parameter of `EcsGameplay.Update` that gives the entities after its update and the move-change events it emits. The move-change events each of them emits are taken to reach `receive` in order, right after that system's update, so the events of Move, Explosion and Animate are drained by this tick's collision update and those of PowerUp wait for the next tick.
- The separate Map entity that `createMap` creates last (Bomberman/EcsGameplay.cpp:92-93) is not created. Its grid is stored in the field `mapTiles`.
- The value-initialised `Map` at Bomberman/EcsGameplay.cpp:63 is not modelled. The nested loops overwrite every cell before any cell is read.
- `Collidable.hpp` is not part of this model. A default Collidable is taken to have no spawner and direction None.
- `DISTANCE_TO_EXPLODABLE_BLOCKS` (Bomberman/include/Utils/Constants.hpp:8) is not used by this code. It hard-codes the distance 3 at Bomberman/EcsGameplay.cpp:110-111, and the model does the same.
- The layout constants are not derived from each other. `WIDTH_TILES_NUM` and `HEIGHT_TILES_NUM` are 21, and the solid test writes the last index as the literal 20; the model uses the same values.
