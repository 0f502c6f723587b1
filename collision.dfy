/**
 `CollisionSystem`: once per tick it drains the queued move-change events and
 then, for every Player entity that is Collidable, pushes the player out of
 every other Collidable entity in creation order, honouring the spawner
 exemption (a bomb does not push the player that placed it until the two have
 separated).
 */
module Collision {
  import opened Wrappers
  import opened Geometry
  import opened Entities

  /** `MoveChangeEvent`: an entity changed its direction of movement. */
  datatype MoveChangeEvent = MoveChangeEvent(entity: EntityId, direction: Direction)

  /** `shouldSkipCollision`: the other entity was spawned by the player. */
  predicate ShouldSkipCollision(player: EntityId, other: Collidable) {
    other.spawner == Some(player)
  }

  /** The entities the outer `each<Player, Collidable>` visits. */
  predicate IsPlayerCollidable(e: Entity) {
    e.player && e.collidable.Some?
  }

  /** `a` has the same tags and the same set of components as `b`. */
  predicate SameShape(a: Entity, b: Entity) {
    a.player == b.player && a.movable == b.movable && a.tile == b.tile &&
    a.collidable.Some? == b.collidable.Some?
  }

  function WithDirection(e: Entity, d: Direction): Entity
    requires e.collidable.Some?
  {
    e.(collidable := Some(e.collidable.value.(direction := d)))
  }

  /** The player after a correction: moved by the push and labelled with its direction. */
  function Corrected(e: Entity, info: CollisionInfo): Entity
    requires e.collidable.Some?
  {
    WithDirection(e, info.direction).(transform := Moved(e.transform, info.collisionRange))
  }

  /** `otherCollidable.spawner.reset()`. */
  function SpawnerCleared(e: Entity): Entity
    requires e.collidable.Some?
  {
    e.(collidable := Some(e.collidable.value.(spawner := Option.None)))
  }

  // ---------------------------------------------------------------------------
  // The pairwise pass, as functions of the entity sequence

  /** Comparing player `i` with entity `j` moves the player. */
  predicate Applies(es: seq<Entity>, i: nat, j: nat)
    requires i < |es| && j < |es|
  {
    i != j && es[j].collidable.Some? &&
    CheckCollision(es[i].transform, es[j].transform).Some? &&
    !ShouldSkipCollision(i, es[j].collidable.value)
  }

  /** Comparing player `i` with entity `j` ends `j`'s exemption. */
  predicate Releases(es: seq<Entity>, i: nat, j: nat)
    requires i < |es| && j < |es|
  {
    i != j && es[j].collidable.Some? &&
    CheckCollision(es[i].transform, es[j].transform).None? &&
    ShouldSkipCollision(i, es[j].collidable.value)
  }

  /** The body of the inner `each<Collidable>` for player `i` and entity `j`. */
  function Compare(es: seq<Entity>, i: nat, j: nat): (r: seq<Entity>)
    requires i < |es| && j < |es| && IsPlayerCollidable(es[i])
    ensures |r| == |es|
    ensures forall k :: 0 <= k < |es| ==> SameShape(r[k], es[k])
  {
    if Applies(es, i, j) then
      es[i := Corrected(es[i], CheckCollision(es[i].transform, es[j].transform).value)]
    else if Releases(es, i, j) then
      es[j := SpawnerCleared(es[j])]
    else
      es
  }

  /**
   The state after player `i` has reset its direction and compared itself with
   the first `n` entities; each comparison sees the position left by the
   previous ones.
   */
  function PlayerPass(es: seq<Entity>, i: nat, n: nat): (r: seq<Entity>)
    requires i < |es| && n <= |es| && IsPlayerCollidable(es[i])
    ensures |r| == |es|
    ensures forall k :: 0 <= k < |es| ==> SameShape(r[k], es[k])
    decreases n
  {
    if n == 0 then es[i := WithDirection(es[i], Direction.None)]
    else Compare(PlayerPass(es, i, n - 1), i, n - 1)
  }

  /** The state after the outer loop has visited the first `n` entities. */
  function Resolution(es: seq<Entity>, n: nat): (r: seq<Entity>)
    requires n <= |es|
    ensures |r| == |es|
    ensures forall k :: 0 <= k < |es| ==> SameShape(r[k], es[k])
    decreases n
  {
    if n == 0 then es
    else
      var prev := Resolution(es, n - 1);
      if IsPlayerCollidable(prev[n - 1]) then PlayerPass(prev, n - 1, |prev|) else prev
  }

  /** The comparison of player `i` with entity `m`, in the state the pass has reached by then, moves the player. */
  predicate MovedAt(es: seq<Entity>, i: nat, m: nat)
    requires i < |es| && m < |es| && IsPlayerCollidable(es[i])
  {
    Applies(PlayerPass(es, i, m), i, m)
  }

  /** The index of the last of the first `n` comparisons of player `i` that moved it. */
  function LastApplied(es: seq<Entity>, i: nat, n: nat): (r: Option<nat>)
    requires i < |es| && n <= |es| && IsPlayerCollidable(es[i])
    ensures r.Some? ==> r.value < n && MovedAt(es, i, r.value)
    ensures r.Some? ==> forall m :: r.value < m < n ==> !MovedAt(es, i, m)
    ensures r.None? ==> forall m :: 0 <= m < n ==> !MovedAt(es, i, m)
    decreases n
  {
    if n == 0 then Option.None
    else if MovedAt(es, i, n - 1) then Some(n - 1)
    else LastApplied(es, i, n - 1)
  }

  // ---------------------------------------------------------------------------
  // Move-change events

  /** `*collidable = Collidable{ collidable->spawner }`: direction reset, spawner kept. */
  function Reset(e: Entity): (r: Entity)
    requires e.collidable.Some?
  {
    e.(collidable := Some(DefaultCollidable.(spawner := e.collidable.value.spawner)))
  }

  /** Handling one event: the entity, if it exists and is Collidable, is reset. */
  function ResetCollidable(es: seq<Entity>, id: EntityId): (r: seq<Entity>)
    ensures |r| == |es|
  {
    if id < |es| && es[id].collidable.Some? then es[id := Reset(es[id])] else es
  }

  /** The state after the first `|evs|` queued events have been handled, in order. */
  function Drain(es: seq<Entity>, evs: seq<MoveChangeEvent>): (r: seq<Entity>)
    ensures |r| == |es|
    decreases |evs|
  {
    if evs == [] then es
    else ResetCollidable(Drain(es, evs[..|evs| - 1]), evs[|evs| - 1].entity)
  }

  predicate Mentions(evs: seq<MoveChangeEvent>, id: EntityId) {
    exists m :: 0 <= m < |evs| && evs[m].entity == id
  }

  /** One collision tick: drain the queue, then run the pairwise pass. */
  function Tick(es: seq<Entity>, evs: seq<MoveChangeEvent>): (r: seq<Entity>)
    ensures |r| == |es|
  {
    var drained := Drain(es, evs);
    Resolution(drained, |drained|)
  }

  // ---------------------------------------------------------------------------
  // The system object

  class CollisionSystem {
    var moveChangeEvents: seq<MoveChangeEvent>

    constructor ()
      ensures moveChangeEvents == []
    {
      moveChangeEvents := [];
    }

    /** `receive`: events are queued in arrival order. */
    method Receive(event: MoveChangeEvent)
      modifies this
      ensures moveChangeEvents == old(moveChangeEvents) + [event]
    {
      moveChangeEvents := moveChangeEvents + [event];
    }

    /** `handleMoveChangeEvents`: handle every queued event, then clear the queue. */
    method HandleMoveChangeEvents(es: EntityManager)
      modifies this, es
      ensures es.entities == Drain(old(es.entities), old(moveChangeEvents))
      ensures moveChangeEvents == []
    {
      var events := moveChangeEvents;
      for k := 0 to |events|
        invariant es.entities == Drain(old(es.entities), events[..k])
      {
        assert events[..k + 1][..k] == events[..k];
        var id := events[k].entity;
        if id < |es.entities| && es.entities[id].collidable.Some? {
          var collidable := es.entities[id].collidable.value;
          es.entities := es.entities[id := es.entities[id].(collidable := Some(Collidable(collidable.spawner, DefaultCollidable.direction)))];
        }
      }
      assert events[..|events|] == events;
      moveChangeEvents := [];
    }

    /** `update`: drain the queue, then resolve every player against every other collidable. */
    method Update(es: EntityManager, dt: real)
      modifies this, es
      ensures es.entities == Tick(old(es.entities), old(moveChangeEvents))
      ensures moveChangeEvents == []
    {
      HandleMoveChangeEvents(es);
      ghost var start := es.entities;
      var n := |es.entities|;
      for i := 0 to n
        invariant es.entities == Resolution(start, i)
        modifies es
      {
        if IsPlayerCollidable(es.entities[i]) {
          ghost var before := es.entities;
          es.entities := es.entities[i := WithDirection(es.entities[i], Direction.None)];
          for j := 0 to n
            invariant es.entities == PlayerPass(before, i, j)
            modifies es
          {
            var other := es.entities[j];
            if i != j && other.collidable.Some? {
              var collisionInfo := CheckCollision(es.entities[i].transform, other.transform);
              var skip := ShouldSkipCollision(i, other.collidable.value);
              if collisionInfo.Some? && !skip {
                es.entities := es.entities[i := Corrected(es.entities[i], collisionInfo.value)];
              } else if collisionInfo.None? && skip {
                es.entities := es.entities[j := SpawnerCleared(other)];
              }
            }
          }
        }
      }
    }
  }
}
