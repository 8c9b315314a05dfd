/**
 * Value types shared by the per-tick player systems: the transient records
 * (OnGround, IgnorePlatform slots), the buffered input actions, the collision
 * detector's contact result and the structural mutations a system enqueues.
 * float64 quantities (positions, velocities, normals) are modelled as reals,
 * ticks as unbounded integers.
 */
module Components {

  datatype Option<+T> = None | Some(value: T)

  /** A 2D vector (vector.Two). */
  datatype Vec2 = Vec2(x: real, y: real)

  /** Stable reference to an entity: its identifier and its recycle counter. */
  datatype EntityRef = EntityRef(id: int, recycled: int)

  /** The OnGround component: last tick of top contact, tick of landing, contact normal. */
  datatype OnGround = OnGround(lastTouch: int, landed: int, slopeNormal: Vec2)

  /** One slot of IgnorePlatform.Items; `entityID == 0` marks an empty slot. */
  datatype IgnoreSlot = IgnoreSlot(entityID: int, recycled: int, lastActive: int)

  const EmptySlot := IgnoreSlot(0, 0, 0)

  /** The buffered input actions a player can issue. */
  datatype Action = Left | Right | Down | Jump

  /** Facing direction (spatial.Direction). */
  datatype Direction = FacingLeft | FacingRight

  /** Direction.AsFloat: -1 for left, +1 for right. */
  function AsReal(d: Direction): (r: real)
    ensures r == 1.0 || r == -1.0
    ensures r > 0.0 <==> d == FacingRight
  {
    if d == FacingRight then 1.0 else -1.0
  }

  /** Position and velocity of a body: what the collision resolvers correct. */
  datatype Kinematics = Kinematics(pos: Vec2, vel: Vec2)

  /** What the shape-overlap detector reports about an overlapping pair (player, terrain). */
  datatype Contact = Contact(normal: Vec2, isTop: bool, isTopB: bool)

  /** A positional resolver (motion.Resolver, motion.VerticalResolver), taken as opaque. */
  type Resolver = (Kinematics, Contact) -> Kinematics

  /** A structural change enqueued during a cursor pass and applied after it. */
  datatype Mutation =
    | AddOnGround(entity: EntityRef, record: OnGround)
    | RemoveOnGround(entity: EntityRef)
    | AddIgnorePlatform(entity: EntityRef)
    | RemoveIgnorePlatform(entity: EntityRef)

  // Movement constants (SPEED_X, SNAP_FORCE, JUMP_FORCE, COYOTE_TIME, INPUT_BUFFER_TICKS)
  const SpeedX: real := 120.0
  const SnapForce: real := 40.0
  const JumpForce: real := 320.0
  const CoyoteTime: int := 10
  const InputBufferTicks: int := 5
  /** Age in ticks beyond which a Down press no longer requests a drop-through. */
  const DropMaxAge: int := 5

  /** Expiry windows of the two sweeps. */
  const GroundExpiry: int := 15
  const IgnoreExpiry: int := 15

  /** Capacity of the per-player position history. */
  const MaxPositionsToTrack: int := 60

  /** math.MaxInt64, the starting value of the oldest-slot search. */
  const MaxInt64: int := 0x7fff_ffff_ffff_ffff

  /** An OnGround record is well formed at `tick` when it was created no later than its last touch, which is not in the future. */
  predicate GroundRecordValid(og: OnGround, tick: int)
  {
    og.landed <= og.lastTouch <= tick
  }

  /**
   * Grounded this tick: the OnGround record is present and was touched on the
   * previous tick. A record kept only for coyote time does not qualify.
   */
  predicate IsGrounded(og: Option<OnGround>, tick: int)
  {
    og.Some? && og.value.lastTouch == tick - 1
  }
}
