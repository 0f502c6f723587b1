/**
 The entity store: every entity is a record of the components this core reads
 or writes, kept in creation order. An entity's handle is its index in that
 order (entityx's entity index, without the version counter).
 */
module Entities {
  import opened Wrappers
  import opened Geometry

  type EntityId = nat

  /** `Collidable`: the spawner back-reference and the label of the last correction. */
  datatype Collidable = Collidable(spawner: Option<EntityId>, direction: Direction)

  /** A default-constructed `Collidable`: no spawner, no direction. */
  const DefaultCollidable: Collidable := Collidable(Option.None, Direction.None)

  /** `Movable`: velocity and the current direction of movement. */
  datatype Movable = Movable(velocity: Vec2, direction: Direction)

  datatype TileType = None | SolidBlock | ExplodableBlock

  /**
   One entity. Every entity of this core has a Transform, so the invariant
   "a Collidable entity has a Transform" holds by construction.
   */
  datatype Entity = Entity(
    player: bool,
    transform: Transform,
    collidable: Option<Collidable>,
    movable: Option<Movable>,
    tile: Option<TileType>)

  /** `entityx::EntityManager`, reduced to the entities it holds. */
  class EntityManager {
    var entities: seq<Entity>

    constructor ()
      ensures entities == []
    {
      entities := [];
    }

    /** `entities.create()` followed by the `assign` calls: the new entity is appended. */
    method Create(e: Entity) returns (id: EntityId)
      modifies this
      ensures id == |old(entities)|
      ensures entities == old(entities) + [e]
    {
      id := |entities|;
      entities := entities + [e];
    }
  }
}
