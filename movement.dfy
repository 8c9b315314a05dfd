/**
 * PlayerMovementSystem: horizontal movement (air, flat ground, slopes), the
 * jump gate with coyote time and input buffering, and the drop-through
 * request. Each handler is a pass over all players; the per-player effect of
 * each pass is specified by a function on the player's Motion value.
 */
module Movement {
  import opened Components
  import opened Entities

  function Max(a: real, b: real): (r: real)
    ensures r >= a && r >= b && (r == a || r == b)
  {
    if a >= b then a else b
  }

  /** Flat ground for movement purposes: the normal is exactly (0, 1). */
  predicate IsFlat(n: Vec2)
  {
    n.x == 0.0 && n.y == 1.0
  }

  /** The slope tangent (n.y, -n.x) scaled by the facing direction. */
  function SlopeDir(n: Vec2, d: Direction): (t: Vec2)
    ensures t.x == n.y * AsReal(d) && t.y == -n.x * AsReal(d)
  {
    Vec2(n.y * AsReal(d), -n.x * AsReal(d))
  }

  /** Moving uphill: the facing direction has the sign of the normal's x component. */
  predicate IsUphill(n: Vec2, d: Direction)
  {
    AsReal(d) * n.x > 0.0
  }

  predicate PressesHorizontal(m: Motion)
  {
    Left in m.actions || Right in m.actions
  }

  /** Facing after the Left then Right presses are applied: Right wins when both are pending. */
  function FacingAfter(m: Motion): (d: Direction)
    ensures Right in m.actions ==> d == FacingRight
    ensures Right !in m.actions && Left in m.actions ==> d == FacingLeft
    ensures !PressesHorizontal(m) ==> d == m.facing
  {
    if Right in m.actions then FacingRight
    else if Left in m.actions then FacingLeft
    else m.facing
  }

  /** Effect of handleHorizontal on one player. */
  function HorizontalStep(m: Motion, tick: int): (r: Motion)
    ensures r.accel == m.accel && r.onGround == m.onGround && r.lastJump == m.lastJump
    ensures r.actions == m.actions - {Left, Right}
    ensures r.facing == FacingAfter(m)
    // no horizontal input never changes the horizontal velocity
    ensures !PressesHorizontal(m) ==> r.vel.x == m.vel.x
    // airborne: direct air control, vertical velocity untouched
    ensures !IsGrounded(m.onGround, tick) ==> r.vel.y == m.vel.y
    ensures !IsGrounded(m.onGround, tick) && PressesHorizontal(m) ==> r.vel.x == SpeedX * AsReal(r.facing)
    // grounded: snap force whatever the input, except when descending a slope
    ensures IsGrounded(m.onGround, tick) ==>
      var n := m.onGround.value.slopeNormal;
      (IsFlat(n) || !PressesHorizontal(m) || IsUphill(n, r.facing) ==> r.vel.y == Max(m.vel.y, SnapForce))
    ensures IsGrounded(m.onGround, tick) && PressesHorizontal(m) ==>
      var n := m.onGround.value.slopeNormal;
      && (IsFlat(n) ==> r.vel.x == SpeedX * AsReal(r.facing))
      && (!IsFlat(n) ==> r.vel.x == SpeedX * SlopeDir(n, r.facing).x)
      && (!IsFlat(n) && !IsUphill(n, r.facing) ==> r.vel.y == SpeedX * SlopeDir(n, r.facing).y)
  {
    var facing := FacingAfter(m);
    var moving := PressesHorizontal(m);
    var base := m.(facing := facing, actions := m.actions - {Left, Right});
    if !IsGrounded(m.onGround, tick) then
      if moving then base.(vel := m.vel.(x := SpeedX * AsReal(facing))) else base
    else
      var n := m.onGround.value.slopeNormal;
      var snapped := m.vel.(y := Max(m.vel.y, SnapForce));
      if !moving then base.(vel := snapped)
      else if IsFlat(n) then base.(vel := snapped.(x := SpeedX * AsReal(facing)))
      else if IsUphill(n, facing) then base.(vel := snapped.(x := SpeedX * SlopeDir(n, facing).x))
      else base.(vel := Vec2(SpeedX * SlopeDir(n, facing).x, SpeedX * SlopeDir(n, facing).y))
  }

  /**
   * The jump gate: no jump since the last ground touch, and either a live
   * press within coyote time or a press buffered shortly before the touch.
   */
  predicate CanJump(lastJump: int, lastTouch: int, stamp: int, tick: int)
    // no jump twice from the same ground touch
    ensures CanJump(lastJump, lastTouch, stamp, tick) ==> lastJump < lastTouch
    // a press stamped more than 5 ticks before the touch never jumps
    ensures stamp < lastTouch - InputBufferTicks ==> !CanJump(lastJump, lastTouch, stamp, tick)
    // a press after the touch jumps exactly within coyote time
    ensures stamp > lastTouch ==>
      (CanJump(lastJump, lastTouch, stamp, tick) <==> lastJump < lastTouch && tick - lastTouch <= CoyoteTime)
    // a press buffered in [lastTouch - 5, lastTouch] jumps at any tick: it has no coyote bound
    ensures lastTouch - InputBufferTicks <= stamp <= lastTouch && lastJump < lastTouch ==>
      CanJump(lastJump, lastTouch, stamp, tick)
  {
    var groundedWithinCoyoteTime := tick - lastTouch <= CoyoteTime;
    var jumpIsBeforeGroundTouch := stamp <= lastTouch;
    var jumpWithinBufferWindow := lastTouch - stamp <= InputBufferTicks;
    var directJumpAction := stamp >= lastTouch;
    var notJumpedSinceGroundTouch := lastJump < lastTouch;
    notJumpedSinceGroundTouch &&
      ((groundedWithinCoyoteTime && directJumpAction) || (jumpIsBeforeGroundTouch && jumpWithinBufferWindow))
  }

  /** A player's pending Jump passes the gate (only players holding OnGround are considered). */
  predicate JumpSucceeds(m: Motion, tick: int)
  {
    m.onGround.Some? && Jump in m.actions &&
    CanJump(m.lastJump, m.onGround.value.lastTouch, m.actions[Jump], tick)
  }

  /** Effect of handleJump on one player. */
  function JumpStep(m: Motion, tick: int): (r: Motion)
    ensures r.facing == m.facing && r.onGround == m.onGround
    ensures r.vel.x == m.vel.x && r.accel.x == m.accel.x
    // the Jump press is consumed whether or not the jump happens
    ensures r.actions == if m.onGround.Some? then m.actions - {Jump} else m.actions
    ensures JumpSucceeds(m, tick) ==>
      r.vel.y == -JumpForce && r.accel.y == -JumpForce && r.lastJump == tick
    ensures !JumpSucceeds(m, tick) ==>
      r.vel == m.vel && r.accel == m.accel && r.lastJump == m.lastJump
  {
    if m.onGround.None? then m
    else if Jump !in m.actions then m
    else
      var consumed := m.(actions := m.actions - {Jump});
      if CanJump(m.lastJump, m.onGround.value.lastTouch, m.actions[Jump], tick) then
        consumed.(vel := m.vel.(y := -JumpForce), accel := m.accel.(y := -JumpForce), lastJump := tick)
      else consumed
  }

  /** Drop-through eligibility: genuinely grounded (touched last tick) and no jump this tick. */
  predicate DropEligible(m: Motion, tick: int)
    // the same notion of grounded as horizontal movement uses
    ensures DropEligible(m, tick) ==> IsGrounded(m.onGround, tick)
    // a record held only for coyote time, or a jump this tick, rules a drop out
    ensures m.onGround.Some? && m.onGround.value.lastTouch != tick - 1 ==> !DropEligible(m, tick)
    ensures m.lastJump == tick ==> !DropEligible(m, tick)
  {
    m.onGround.Some? && m.onGround.value.lastTouch == tick - 1 && m.lastJump != tick
  }

  datatype DownResult = DownResult(motion: Motion, requestDrop: bool)

  /** Effect of handleDown on one player: its new state and whether an IgnorePlatform add is enqueued. */
  function DownStep(m: Motion, tick: int): (r: DownResult)
    ensures r.requestDrop <==>
      DropEligible(m, tick) && Down in m.actions && tick - m.actions[Down] <= DropMaxAge
    // Down is consumed exactly for eligible players; nothing else changes
    ensures r.motion == if DropEligible(m, tick) then m.(actions := m.actions - {Down}) else m
  {
    if m.onGround.None? then DownResult(m, false)
    else if m.onGround.value.lastTouch != tick - 1 then DownResult(m, false)
    else if m.lastJump == tick then DownResult(m, false)
    else if Down in m.actions then
      var consumed := m.(actions := m.actions - {Down});
      if tick - m.actions[Down] > DropMaxAge then DownResult(consumed, false)
      else DownResult(consumed, true)
    else DownResult(m, false)
  }

  /** Per-player effect of one PlayerMovementSystem.Run: horizontal, then jump, then down. */
  function MovementStep(m: Motion, tick: int): (r: DownResult)
  {
    DownStep(JumpStep(HorizontalStep(m, tick), tick), tick)
  }

  /** Players are distinct entities. */
  predicate DistinctPlayers(players: seq<Player>)
  {
    forall i, j :: 0 <= i < j < |players| ==> players[i].ref != players[j].ref
  }

  // ---------------------------------------------------------------------------
  // Per-player bodies of the three cursor loops

  /** Lines 48-56 of handleHorizontal: consume Left then Right, turning the player for each press. */
  method ApplyFacing(p: Player) returns (moving: bool)
    modifies p
    ensures moving == PressesHorizontal(old(p.Snapshot()))
    ensures p.Snapshot() ==
      old(p.Snapshot()).(facing := FacingAfter(old(p.Snapshot())), actions := old(p.actions) - {Left, Right})
    ensures p.pos == old(p.pos) && p.ignoring == old(p.ignoring)
  {
    var stampLeft, pressedLeft := p.ConsumeAction(Left);
    if pressedLeft {
      p.facing := FacingLeft;
    }
    var stampRight, pressedRight := p.ConsumeAction(Right);
    if pressedRight {
      p.facing := FacingRight;
    }
    moving := pressedLeft || pressedRight;
  }

  /**
   * The rest of handleHorizontal once the presses are consumed: air control,
   * or the snap force and flat/slope steering on the ground. `m` is the state
   * before the presses were consumed.
   */
  method Steer(p: Player, tick: int, moving: bool, ghost m: Motion)
    requires moving == PressesHorizontal(m)
    requires p.Snapshot() == m.(facing := FacingAfter(m), actions := m.actions - {Left, Right})
    modifies p
    ensures p.Snapshot() == HorizontalStep(m, tick)
    ensures p.pos == old(p.pos) && p.ignoring == old(p.ignoring)
  {
    var isGrounded := p.onGround.Some? && tick - 1 == p.onGround.value.lastTouch;
    if !isGrounded {
      if moving {
        p.vel := p.vel.(x := SpeedX * AsReal(p.facing));
      }
      return;
    }
    p.vel := p.vel.(y := Max(p.vel.y, SnapForce));
    var n := p.onGround.value.slopeNormal;
    if n.x == 0.0 && n.y == 1.0 {
      if moving {
        p.vel := p.vel.(x := SpeedX * AsReal(p.facing));
      }
      return;
    }
    if moving {
      var isUphill := AsReal(p.facing) * n.x > 0.0;
      var slopeDir := SlopeDir(n, p.facing);
      if isUphill {
        p.vel := p.vel.(x := SpeedX * slopeDir.x);
      } else {
        p.vel := Vec2(SpeedX * slopeDir.x, SpeedX * slopeDir.y);
      }
    }
  }

  /** Body of handleHorizontal's loop for one player. */
  method MoveHorizontally(p: Player, tick: int)
    modifies p
    ensures p.Snapshot() == HorizontalStep(old(p.Snapshot()), tick)
    ensures p.pos == old(p.pos) && p.ignoring == old(p.ignoring)
  {
    ghost var m := p.Snapshot();
    var moving := ApplyFacing(p);
    Steer(p, tick, moving, m);
  }

  method TryJump(p: Player, tick: int)
    modifies p
    ensures p.Snapshot() == JumpStep(old(p.Snapshot()), tick)
    ensures p.pos == old(p.pos) && p.ignoring == old(p.ignoring)
  {
    if p.onGround.None? {
      return;
    }
    var lastTouch := p.onGround.value.lastTouch;
    var stamp, received := p.ConsumeAction(Jump);
    if received {
      var groundedWithinCoyoteTime := tick - lastTouch <= CoyoteTime;
      var validBufferedJumpInput := stamp <= lastTouch && lastTouch - stamp <= InputBufferTicks;
      var directJumpAction := stamp >= lastTouch;
      var notJumpedSinceGroundTouch := p.lastJump < lastTouch;
      if notJumpedSinceGroundTouch && ((groundedWithinCoyoteTime && directJumpAction) || validBufferedJumpInput) {
        p.vel := p.vel.(y := -JumpForce);
        p.accel := p.accel.(y := -JumpForce);
        p.lastJump := tick;
      }
    }
  }

  method TryDrop(p: Player, tick: int) returns (requestDrop: bool)
    modifies p
    ensures DownResult(p.Snapshot(), requestDrop) == DownStep(old(p.Snapshot()), tick)
    ensures p.pos == old(p.pos) && p.ignoring == old(p.ignoring)
  {
    requestDrop := false;
    if p.onGround.None? {
      return;
    }
    if p.onGround.value.lastTouch != tick - 1 {
      return;
    }
    if p.lastJump == tick {
      return;
    }
    var stamp, received := p.ConsumeAction(Down);
    if received {
      if tick - stamp > DropMaxAge {
        return;
      }
      requestDrop := true;
    }
  }

  // ---------------------------------------------------------------------------
  // The three passes of PlayerMovementSystem.Run

  method HandleHorizontal(players: seq<Player>, tick: int)
    requires DistinctPlayers(players)
    modifies set p | p in players
    ensures forall i :: 0 <= i < |players| ==>
      players[i].Snapshot() == HorizontalStep(old(players[i].Snapshot()), tick)
    ensures forall i :: 0 <= i < |players| ==>
      players[i].pos == old(players[i].pos) && players[i].ignoring == old(players[i].ignoring)
  {
    for i := 0 to |players|
      invariant forall j :: 0 <= j < i ==>
        players[j].Snapshot() == HorizontalStep(old(players[j].Snapshot()), tick)
      invariant forall j :: i <= j < |players| ==> players[j].Snapshot() == old(players[j].Snapshot())
      invariant forall j :: 0 <= j < |players| ==>
        players[j].pos == old(players[j].pos) && players[j].ignoring == old(players[j].ignoring)
    {
      MoveHorizontally(players[i], tick);
    }
  }

  method HandleJump(players: seq<Player>, tick: int)
    requires DistinctPlayers(players)
    modifies set p | p in players
    ensures forall i :: 0 <= i < |players| ==>
      players[i].Snapshot() == JumpStep(old(players[i].Snapshot()), tick)
    ensures forall i :: 0 <= i < |players| ==>
      players[i].pos == old(players[i].pos) && players[i].ignoring == old(players[i].ignoring)
  {
    for i := 0 to |players|
      invariant forall j :: 0 <= j < i ==>
        players[j].Snapshot() == JumpStep(old(players[j].Snapshot()), tick)
      invariant forall j :: i <= j < |players| ==> players[j].Snapshot() == old(players[j].Snapshot())
      invariant forall j :: 0 <= j < |players| ==>
        players[j].pos == old(players[j].pos) && players[j].ignoring == old(players[j].ignoring)
    {
      TryJump(players[i], tick);
    }
  }

  /** The entities of the given players. */
  function RefsOf(players: seq<Player>): set<EntityRef>
  {
    set i | 0 <= i < |players| :: players[i].ref
  }

  method HandleDown(players: seq<Player>, tick: int) returns (pending: seq<Mutation>)
    requires DistinctPlayers(players)
    modifies set p | p in players
    ensures forall i :: 0 <= i < |players| ==>
      players[i].Snapshot() == DownStep(old(players[i].Snapshot()), tick).motion
    ensures forall i :: 0 <= i < |players| ==>
      players[i].pos == old(players[i].pos) && players[i].ignoring == old(players[i].ignoring)
    ensures forall k :: 0 <= k < |pending| ==> pending[k].AddIgnorePlatform? && pending[k].entity in RefsOf(players)
    ensures forall i :: 0 <= i < |players| ==>
      (AddIgnorePlatform(players[i].ref) in pending <==> DownStep(old(players[i].Snapshot()), tick).requestDrop)
  {
    pending := [];
    for i := 0 to |players|
      invariant forall j :: 0 <= j < i ==>
        players[j].Snapshot() == DownStep(old(players[j].Snapshot()), tick).motion
      invariant forall j :: i <= j < |players| ==> players[j].Snapshot() == old(players[j].Snapshot())
      invariant forall j :: 0 <= j < |players| ==>
        players[j].pos == old(players[j].pos) && players[j].ignoring == old(players[j].ignoring)
      invariant forall k :: 0 <= k < |pending| ==>
        pending[k].AddIgnorePlatform? && exists j :: 0 <= j < i && pending[k].entity == players[j].ref
      invariant forall k :: 0 <= k < |pending| ==> pending[k].entity in RefsOf(players)
      invariant forall j :: 0 <= j < i ==>
        (AddIgnorePlatform(players[j].ref) in pending <==> DownStep(old(players[j].Snapshot()), tick).requestDrop)
    {
      var requestDrop := TryDrop(players[i], tick);
      if requestDrop {
        pending := pending + [AddIgnorePlatform(players[i].ref)];
      }
    }
  }

  /** PlayerMovementSystem.Run: the three passes in order; returns the enqueued IgnorePlatform adds. */
  method Run(players: seq<Player>, tick: int) returns (pending: seq<Mutation>)
    requires DistinctPlayers(players)
    modifies set p | p in players
    ensures forall i :: 0 <= i < |players| ==>
      players[i].Snapshot() == MovementStep(old(players[i].Snapshot()), tick).motion
    ensures forall i :: 0 <= i < |players| ==>
      players[i].pos == old(players[i].pos) && players[i].ignoring == old(players[i].ignoring)
    ensures forall k :: 0 <= k < |pending| ==> pending[k].AddIgnorePlatform? && pending[k].entity in RefsOf(players)
    ensures forall i :: 0 <= i < |players| ==>
      (AddIgnorePlatform(players[i].ref) in pending <==> MovementStep(old(players[i].Snapshot()), tick).requestDrop)
  {
    HandleHorizontal(players, tick);
    HandleJump(players, tick);
    pending := HandleDown(players, tick);
  }

  // ---------------------------------------------------------------------------
  // Properties of the jump gate and the drop-through request

  /**
   * No double jump: after a successful jump at `tick` from a record touched no
   * later than `tick`, no jump attempt succeeds until the record is touched again.
   */
  lemma NoDoubleJump(m: Motion, tick: int, later: Motion, laterTick: int)
    requires JumpSucceeds(m, tick) && m.onGround.value.lastTouch <= tick
    requires later.lastJump == JumpStep(m, tick).lastJump
    requires later.onGround.Some? && later.onGround.value.lastTouch == m.onGround.value.lastTouch
    ensures !JumpSucceeds(later, laterTick)
  {
  }

  /** Coyote time: ground touched at 100; a live press at 109 jumps, a live press at 111 does not. */
  lemma CoyoteExamples(lastJump: int)
    requires lastJump < 100
    ensures CanJump(lastJump, 100, 109, 109)
    ensures !CanJump(lastJump, 100, 111, 111)
  {
  }

  /** Input buffering: ground touched at 50; a press stamped at 48 jumps, one stamped at 43 does not. */
  lemma BufferedExamples(lastJump: int, tick: int)
    requires lastJump < 50 && 50 <= tick
    ensures CanJump(lastJump, 50, 48, tick)
    ensures !CanJump(lastJump, 50, 43, tick)
  {
  }

  /** A successful jump this tick makes the same player ineligible for a drop-through this tick. */
  lemma JumpExcludesDrop(m: Motion, tick: int)
    requires JumpSucceeds(m, tick)
    ensures !DownStep(JumpStep(m, tick), tick).requestDrop
  {
  }
}
