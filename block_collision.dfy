/**
 * PlayerBlockCollisionSystem.resolve for one (block, player) pair: classify
 * the contact normal, reject the two snapping corner cases, correct the
 * position with the vertical resolver on slopes and the full resolver
 * otherwise, and create or refresh OnGround when the player is on top.
 */
module BlockCollision {
  import opened Components
  import opened Entities

  datatype NormalKind = Flat | Wall | Sloped

  /** Classification of a contact normal: flat (0, +-1), wall (+-1, 0), sloped otherwise. */
  function ClassifyNormal(n: Vec2): (k: NormalKind)
    ensures k == Flat <==> n == Vec2(0.0, 1.0) || n == Vec2(0.0, -1.0)
    ensures k == Wall <==> n == Vec2(1.0, 0.0) || n == Vec2(-1.0, 0.0)
    ensures k == Sloped <==> n !in {Vec2(0.0, 1.0), Vec2(0.0, -1.0), Vec2(1.0, 0.0), Vec2(-1.0, 0.0)}
  {
    var horizontal := (n.x == 0.0 && n.y == 1.0) || (n.x == 0.0 && n.y == -1.0);
    var vertical := (n.x == -1.0 && n.y == 0.0) || (n.x == 1.0 && n.y == 0.0);
    if horizontal then Flat
    else if vertical then Wall
    else Sloped
  }

  /**
   * The two corner cases that would snap the player: on top of the block but
   * moving up through a non-sloped contact, or under the block while falling.
   */
  predicate Rejected(c: Contact, velY: real)
    // only a contact with one side on top of the other can be rejected
    ensures Rejected(c, velY) ==> c.isTop || c.isTopB
    // a player at rest vertically is never rejected
    ensures velY == 0.0 ==> !Rejected(c, velY)
    // on a slope, standing on the block is accepted in either vertical direction
    ensures ClassifyNormal(c.normal) == Sloped && !c.isTop ==> !Rejected(c, velY)
    // a falling player under the block and a rising player on a flat or wall top are both rejected
    ensures c.isTop && velY > 0.0 ==> Rejected(c, velY)
    ensures c.isTopB && velY < 0.0 && ClassifyNormal(c.normal) != Sloped ==> Rejected(c, velY)
  {
    (c.isTopB && velY < 0.0 && ClassifyNormal(c.normal) != Sloped) || (c.isTop && velY > 0.0)
  }

  /** An overlap that is accepted and puts the player on top of the block. */
  predicate OnTop(contact: Option<Contact>, velY: real)
  {
    contact.Some? && !Rejected(contact.value, velY) && contact.value.isTopB
  }

  /**
   * resolve: `contact` is the detector's answer for the pair (None when the
   * shapes do not overlap); returns the structural mutations it enqueues.
   */
  method Resolve(p: Player, contact: Option<Contact>, full: Resolver, vertical: Resolver, tick: int)
    returns (pending: seq<Mutation>)
    modifies p
    // only position, velocity and OnGround can change
    ensures p.accel == old(p.accel) && p.facing == old(p.facing) && p.actions == old(p.actions)
    ensures p.lastJump == old(p.lastJump) && p.ignoring == old(p.ignoring)
    // no overlap, or a rejected contact: nothing changes
    ensures contact.None? || Rejected(contact.value, old(p.vel.y)) ==> unchanged(p) && pending == []
    // an accepted contact is corrected vertically only on a slope, by the full resolver otherwise
    ensures contact.Some? && !Rejected(contact.value, old(p.vel.y)) && ClassifyNormal(contact.value.normal) == Sloped ==>
      p.Kin() == vertical(old(p.Kin()), contact.value)
    ensures contact.Some? && !Rejected(contact.value, old(p.vel.y)) && ClassifyNormal(contact.value.normal) != Sloped ==>
      p.Kin() == full(old(p.Kin()), contact.value)
    // OnGround is touched only when the player is on top of the block
    ensures contact.Some? && !contact.value.isTopB ==> p.onGround == old(p.onGround) && pending == []
    // on top: a record touched last tick is refreshed in place, keeping Landed
    ensures OnTop(contact, old(p.vel.y)) && IsGrounded(old(p.onGround), tick) ==>
      p.onGround == Some(old(p.onGround).value.(lastTouch := tick, slopeNormal := contact.value.normal)) &&
      pending == []
    // on top: otherwise (absent, stale, or already touched this tick) a fresh record is enqueued
    ensures OnTop(contact, old(p.vel.y)) && !IsGrounded(old(p.onGround), tick) ==>
      p.onGround == old(p.onGround) &&
      pending == [AddOnGround(p.ref, OnGround(tick, tick, contact.value.normal))]
    // the OnGround record stays well formed, and so is any record enqueued
    ensures old(p.onGround).Some? && GroundRecordValid(old(p.onGround).value, tick) ==>
      p.onGround.Some? && GroundRecordValid(p.onGround.value, tick)
    ensures forall k :: 0 <= k < |pending| ==>
      pending[k].AddOnGround? && pending[k].entity == p.ref && GroundRecordValid(pending[k].record, tick)
  {
    pending := [];
    var playerAlreadyGrounded := p.onGround.Some?;
    if contact.None? {
      return;
    }
    var c := contact.value;
    var playerOnTopOfBlock := c.isTopB;
    var blockOnTopOfPlayer := c.isTop;
    var isSloped := ClassifyNormal(c.normal) == Sloped;
    if playerAlreadyGrounded && p.onGround.value.lastTouch != tick - 1 {
      playerAlreadyGrounded := false;
    }
    if playerOnTopOfBlock && p.vel.y < 0.0 && !isSloped {
      return;
    }
    if blockOnTopOfPlayer && p.vel.y > 0.0 {
      return;
    }
    var resolved := if isSloped then vertical(p.Kin(), c) else full(p.Kin(), c);
    p.pos, p.vel := resolved.pos, resolved.vel;
    if !playerOnTopOfBlock {
      return;
    }
    if !playerAlreadyGrounded {
      pending := [AddOnGround(p.ref, OnGround(tick, tick, c.normal))];
    } else {
      p.onGround := Some(p.onGround.value.(lastTouch := tick, slopeNormal := c.normal));
    }
  }
}
