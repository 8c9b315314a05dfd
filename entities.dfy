/**
 * A player entity as the core systems see it: the components they read and
 * update in place (Position, Dynamics, Direction, ActionBuffer, OnGround,
 * JumpState, IgnorePlatform). Presence of OnGround is an Option; presence of
 * IgnorePlatform is the `ignoring` flag over the fixed-length `items` array.
 */
module Entities {
  import opened Components

  /** The movement-relevant part of a player's state, as one value. */
  datatype Motion = Motion(
    vel: Vec2,
    accel: Vec2,
    facing: Direction,
    actions: map<Action, int>,
    onGround: Option<OnGround>,
    lastJump: int)

  class Player {
    const ref: EntityRef
    /** IgnorePlatform.Items; meaningful while `ignoring` holds. */
    const items: array<IgnoreSlot>

    var pos: Vec2
    var vel: Vec2
    var accel: Vec2
    var facing: Direction
    /** The action buffer: pending action kinds with the tick they were stamped at. */
    var actions: map<Action, int>
    var onGround: Option<OnGround>
    /** JumpState.LastJump */
    var lastJump: int
    /** Whether the IgnorePlatform component is present. */
    var ignoring: bool

    constructor (ref: EntityRef, items: array<IgnoreSlot>, pos: Vec2, facing: Direction, lastJump: int)
      ensures this.ref == ref && this.items == items
      ensures this.pos == pos && this.facing == facing && this.lastJump == lastJump
      ensures vel == Vec2(0.0, 0.0) && accel == Vec2(0.0, 0.0)
      ensures actions == map[] && onGround == None && !ignoring
    {
      this.ref := ref;
      this.items := items;
      this.pos := pos;
      this.vel := Vec2(0.0, 0.0);
      this.accel := Vec2(0.0, 0.0);
      this.facing := facing;
      this.actions := map[];
      this.onGround := None;
      this.lastJump := lastJump;
      this.ignoring := false;
    }

    /** The movement-relevant fields as one value. */
    function Snapshot(): (m: Motion)
      reads this
    {
      Motion(vel, accel, facing, actions, onGround, lastJump)
    }

    function Kin(): (k: Kinematics)
      reads this
    {
      Kinematics(pos, vel)
    }

    /**
     * ActionBuffer.ConsumeAction: reports whether an action of kind `a` is
     * pending and the tick it was stamped at, and removes it from the buffer.
     */
    method ConsumeAction(a: Action) returns (stamp: int, ok: bool)
      modifies this`actions
      ensures ok <==> a in old(actions)
      ensures ok ==> stamp == old(actions)[a]
      ensures actions == old(actions) - {a}
    {
      ok := a in actions;
      stamp := if ok then actions[a] else 0;
      actions := actions - {a};
    }
  }
}
