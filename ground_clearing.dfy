/**
 * OnGroundClearingSystem: each tick, every entity whose OnGround record was
 * last touched more than 15 ticks ago has the record's removal enqueued. The
 * records themselves are only read.
 */
module GroundClearing {
  import opened Components
  import Movement

  /** An entity holding an OnGround record, as the cursor over OnGround holders yields it. */
  datatype Grounded = Grounded(entity: EntityRef, record: OnGround)

  /** The expiry rule. */
  predicate Expired(og: OnGround, tick: int)
  {
    tick - og.lastTouch > GroundExpiry
  }

  /** The entities whose records have expired, in cursor order. */
  function ExpiredEntities(gs: seq<Grounded>, tick: int): (r: seq<EntityRef>)
    ensures |r| <= |gs|
    ensures forall e :: e in r <==> exists i :: 0 <= i < |gs| && gs[i].entity == e && Expired(gs[i].record, tick)
  {
    if gs == [] then []
    else
      var rest := ExpiredEntities(gs[1..], tick);
      assert forall i :: 1 <= i < |gs| ==> gs[i] == gs[1..][i - 1];
      if Expired(gs[0].record, tick) then [gs[0].entity] + rest else rest
  }

  /** The records left once the removals are applied. */
  function Remaining(gs: seq<Grounded>, tick: int): (r: seq<Grounded>)
    ensures |r| <= |gs|
    ensures forall g :: g in r ==> g in gs && !Expired(g.record, tick)
  {
    if gs == [] then []
    else
      var rest := Remaining(gs[1..], tick);
      if Expired(gs[0].record, tick) then rest else [gs[0]] + rest
  }

  /** Run: the removals enqueued this tick, one per expired record. */
  method Run(gs: seq<Grounded>, tick: int) returns (pending: seq<Mutation>)
    ensures |pending| == |ExpiredEntities(gs, tick)|
    ensures forall k :: 0 <= k < |pending| ==> pending[k] == RemoveOnGround(ExpiredEntities(gs, tick)[k])
  {
    pending := [];
    ghost var selected: seq<EntityRef> := [];
    // walk the cursor front to back, collecting removals in order
    var k := 0;
    while k < |gs|
      invariant 0 <= k <= |gs|
      invariant ExpiredEntities(gs, tick) == selected + ExpiredEntities(gs[k..], tick)
      invariant |pending| == |selected|
      invariant forall j :: 0 <= j < |pending| ==> pending[j] == RemoveOnGround(selected[j])
    {
      assert gs[k..][1..] == gs[k + 1..];
      if tick - gs[k].record.lastTouch > GroundExpiry {
        pending := pending + [RemoveOnGround(gs[k].entity)];
        selected := selected + [gs[k].entity];
      }
      k := k + 1;
    }
    assert gs[|gs|..] == [];
  }

  /** Ground continuity: a record touched at t and never refreshed survives ticks t..t+15 and expires at t+16. */
  lemma GroundContinuity(og: OnGround, t: int)
    requires og.lastTouch == t
    ensures forall u :: t <= u <= t + GroundExpiry ==> !Expired(og, u)
    ensures forall u :: u >= t + GroundExpiry + 1 ==> Expired(og, u)
  {
  }

  /**
   * The expiry window outlasts coyote time: a record that can still grant a
   * coyote jump at `tick` was not removed by any sweep since its last touch.
   */
  lemma CoyoteWithinExpiry(og: OnGround, lastJump: int, stamp: int, tick: int)
    requires Movement.CanJump(lastJump, og.lastTouch, stamp, tick) && stamp >= og.lastTouch
    requires tick - og.lastTouch <= CoyoteTime
    ensures forall u :: og.lastTouch <= u <= tick ==> !Expired(og, u)
  {
  }

  /** Applying this tick's removals leaves nothing for a second pass in the same tick to select. */
  lemma {:induction false} SweepThenNothing(gs: seq<Grounded>, tick: int)
    ensures ExpiredEntities(Remaining(gs, tick), tick) == []
  {
    if gs != [] {
      SweepThenNothing(gs[1..], tick);
    }
  }

  /** Records that stay are exactly the ones that were not selected. */
  lemma {:induction false} RemainingComplementsSelection(gs: seq<Grounded>, tick: int, g: Grounded)
    requires g in gs
    ensures g in Remaining(gs, tick) <==> !Expired(g.record, tick)
    ensures g !in Remaining(gs, tick) ==> g.entity in ExpiredEntities(gs, tick)
  {
    if gs[0] != g {
      RemainingComplementsSelection(gs[1..], tick, g);
    }
  }
}
