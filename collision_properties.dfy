/**
 Properties of one collision tick: what the pairwise pass may change, which
 correction determines the player's final direction and position, how the
 spawner exemption behaves, and what draining the move-change queue does.
 */
module CollisionProperties {
  import opened Wrappers
  import opened Geometry
  import opened Entities
  import opened Collision

  /**
   During player `i`'s pass nothing but the player itself moves, and another
   entity changes only by losing a spawner that named the player.
   */
  lemma {:induction false} PlayerPassFrame(es: seq<Entity>, i: nat, n: nat)
    requires i < |es| && n <= |es| && IsPlayerCollidable(es[i])
    ensures var r := PlayerPass(es, i, n);
      r[i].transform.size == es[i].transform.size &&
      r[i].collidable.value.spawner == es[i].collidable.value.spawner &&
      forall k :: 0 <= k < |es| && k != i ==>
        r[k] == es[k] ||
        (es[k].collidable.Some? && ShouldSkipCollision(i, es[k].collidable.value) &&
         r[k] == SpawnerCleared(es[k]))
    decreases n
  {
    if n > 0 {
      PlayerPassFrame(es, i, n - 1);
    }
  }

  /**
   The player's final state is fixed by the last comparison that moved it: with
   none, the player keeps its position and its direction is None; otherwise its
   direction is that correction's label and its position the one that
   correction produced.
   */
  lemma {:induction false} LastCorrectionWins(es: seq<Entity>, i: nat, n: nat)
    requires i < |es| && n <= |es| && IsPlayerCollidable(es[i])
    ensures var r := PlayerPass(es, i, n);
      match LastApplied(es, i, n)
      case None =>
        r[i] == WithDirection(es[i], Direction.None)
      case Some(k) =>
        var s := PlayerPass(es, i, k);
        var info := CheckCollision(s[i].transform, s[k].transform).value;
        r[i] == Corrected(s[i], info)
    decreases n
  {
    if n > 0 {
      var prev := PlayerPass(es, i, n - 1);
      if Applies(prev, i, n - 1) {
        assert LastApplied(es, i, n) == Some(n - 1);
      } else {
        assert LastApplied(es, i, n) == LastApplied(es, i, n - 1);
        assert PlayerPass(es, i, n)[i] == prev[i];
        LastCorrectionWins(es, i, n - 1);
      }
    }
  }

  predicate AllPositive(es: seq<Entity>) {
    forall k :: 0 <= k < |es| ==> PositiveSize(es[k].transform)
  }

  /**
   With positive sizes, the player ends its pass edge-adjacent to the last
   entity it was pushed out of, on the side its direction names.
   */
  lemma {:induction false} FinalContactWithLastObstacle(es: seq<Entity>, i: nat, n: nat)
    requires i < |es| && n <= |es| && IsPlayerCollidable(es[i]) && AllPositive(es)
    ensures var r := PlayerPass(es, i, n);
      LastApplied(es, i, n).Some? ==>
        var k := LastApplied(es, i, n).value;
        k != i && r[k].transform == es[k].transform &&
        EdgeAdjacent(r[i].transform, es[k].transform, r[i].collidable.value.direction)
  {
    var r := PlayerPass(es, i, n);
    if LastApplied(es, i, n).Some? {
      var k := LastApplied(es, i, n).value;
      var s := PlayerPass(es, i, k);
      var info := CheckCollision(s[i].transform, s[k].transform).value;
      LastCorrectionWins(es, i, n);
      assert r[i] == Corrected(s[i], info);
      PlayerPassFrame(es, i, k);
      PlayerPassFrame(es, i, n);
      assert k != i;
      assert s[k].transform == es[k].transform;
      assert PositiveSize(s[i].transform);
      CorrectionMakesEdgeAdjacent(s[i].transform, s[k].transform);
      assert r[i].transform == Moved(s[i].transform, info.collisionRange);
    }
  }

  /**
   The spawner exemption for one comparison: an overlapping entity spawned by
   the player is ignored; a separated one loses its spawner; a spawner naming
   someone else is never touched.
   */
  lemma {:induction false} SpawnerExemption(es: seq<Entity>, i: nat, j: nat)
    requires i < |es| && j < |es| && i != j && IsPlayerCollidable(es[i]) && es[j].collidable.Some?
    ensures ShouldSkipCollision(i, es[j].collidable.value) && Overlap(es[i].transform, es[j].transform) ==>
      Compare(es, i, j) == es
    ensures ShouldSkipCollision(i, es[j].collidable.value) && !Overlap(es[i].transform, es[j].transform) ==>
      Compare(es, i, j) == es[j := SpawnerCleared(es[j])]
    ensures !ShouldSkipCollision(i, es[j].collidable.value) ==>
      Compare(es, i, j)[j] == es[j]
  {
  }

  /**
   `shouldSkipCollision`: an entity exempts at most one player, the one its
   spawner names, and once its spawner is cleared it exempts no player.
   */
  lemma ExemptionIsOwnerOnly(c: Collidable, i: EntityId, k: EntityId)
    ensures ShouldSkipCollision(i, c) <==> c.spawner.Some? && c.spawner.value == i
    ensures ShouldSkipCollision(i, c) && ShouldSkipCollision(k, c) ==> i == k
    ensures !ShouldSkipCollision(i, c.(spawner := Option.None))
  {
  }

  /** The spawner of `es[k]` names an entity the outer loop visits. */
  predicate SpawnedByPlayer(es: seq<Entity>, k: nat)
    requires k < |es|
  {
    es[k].collidable.Some? && es[k].collidable.value.spawner.Some? &&
    es[k].collidable.value.spawner.value < |es| &&
    IsPlayerCollidable(es[es[k].collidable.value.spawner.value])
  }

  /**
   Over the whole pass no entity changes size, an entity that is not a
   Collidable player never moves and keeps its direction, and it changes at all
   only by losing a spawner that named a Collidable player.
   */
  lemma {:induction false} ResolutionFrame(es: seq<Entity>, n: nat)
    requires n <= |es|
    ensures var r := Resolution(es, n);
      (forall k :: 0 <= k < |es| ==> r[k].transform.size == es[k].transform.size) &&
      forall k :: 0 <= k < |es| && !IsPlayerCollidable(es[k]) ==>
        r[k] == es[k] || (SpawnedByPlayer(es, k) && r[k] == SpawnerCleared(es[k]))
    decreases n
  {
    if n > 0 {
      ResolutionFrame(es, n - 1);
      var prev := Resolution(es, n - 1);
      if IsPlayerCollidable(prev[n - 1]) {
        PlayerPassFrame(prev, n - 1, |prev|);
      }
    }
  }

  lemma ResetIdempotent(e: Entity)
    requires e.collidable.Some?
    ensures Reset(Reset(e)) == Reset(e)
  {
  }

  /**
   Draining the queue resets exactly the Collidable entities that some queued
   event names, to the default direction with their spawner kept; every other
   entity is unchanged. In particular an empty queue changes nothing.
   */
  lemma {:induction false} DrainClosedForm(es: seq<Entity>, evs: seq<MoveChangeEvent>)
    ensures forall k :: 0 <= k < |es| ==>
      Drain(es, evs)[k] == if es[k].collidable.Some? && Mentions(evs, k) then Reset(es[k]) else es[k]
    decreases |evs|
  {
    if evs != [] {
      var init := evs[..|evs| - 1];
      var last := evs[|evs| - 1].entity;
      DrainClosedForm(es, init);
      forall k | 0 <= k < |es|
        ensures Mentions(evs, k) <==> Mentions(init, k) || last == k
      {
        if Mentions(init, k) {
          var m :| 0 <= m < |init| && init[m].entity == k;
          assert evs[m] == init[m];
        }
        if Mentions(evs, k) && last != k {
          var m :| 0 <= m < |evs| && evs[m].entity == k;
          assert init[m] == evs[m];
        }
      }
    }
  }

  /** A reset entity keeps its position, its spawner and every other component. */
  lemma ResetKeepsSpawner(e: Entity)
    requires e.collidable.Some?
    ensures Reset(e).transform == e.transform
    ensures Reset(e).collidable == Some(Collidable(e.collidable.value.spawner, Direction.None))
    ensures SameShape(Reset(e), e)
  {
  }

  /** Handling the same events a second time changes nothing more. */
  lemma {:induction false} DrainIdempotent(es: seq<Entity>, evs: seq<MoveChangeEvent>)
    ensures Drain(Drain(es, evs), evs) == Drain(es, evs)
  {
    var d := Drain(es, evs);
    DrainClosedForm(es, evs);
    DrainClosedForm(d, evs);
    forall k | 0 <= k < |es|
      ensures Drain(d, evs)[k] == d[k]
    {
      if es[k].collidable.Some? && Mentions(evs, k) {
        ResetIdempotent(es[k]);
      }
    }
  }

  /** A player of the start size (30 x 30) at `pos`, with direction `d`. */
  function PlayerAt(pos: Vec2, d: Direction): Entity {
    Entity(true, Transform(Vec2(30.0, 30.0), pos), Some(Collidable(Option.None, d)),
           Option.None, Option.None)
  }

  /** A tile-sized collidable entity on tile (1, 1), as a bomb placed there. */
  function BombOnStartTile(spawner: Option<EntityId>): Entity {
    Entity(false, Transform(Vec2(64.0, 64.0), Vec2(64.0, 64.0)), Some(Collidable(spawner, Direction.None)),
           Option.None, Option.None)
  }

  /**
   The grace period of a bomb placed by player 0: while they overlap nothing
   happens; once they are apart the spawner is cleared; after that the bomb
   pushes the player like any other obstacle (centres coincide, so Down).
   */
  lemma BombGracePeriod()
    ensures Resolution([PlayerAt(Vec2(81.0, 81.0), Direction.None), BombOnStartTile(Some(0))], 2) ==
      [PlayerAt(Vec2(81.0, 81.0), Direction.None), BombOnStartTile(Some(0))]
    ensures Resolution([PlayerAt(Vec2(200.0, 81.0), Direction.None), BombOnStartTile(Some(0))], 2) ==
      [PlayerAt(Vec2(200.0, 81.0), Direction.None), BombOnStartTile(Option.None)]
    ensures Resolution([PlayerAt(Vec2(81.0, 81.0), Direction.None), BombOnStartTile(Option.None)], 2) ==
      [PlayerAt(Vec2(81.0, 34.0), Down), BombOnStartTile(Option.None)]
  {
  }
}
