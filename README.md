# Player state core of the netcode platformer example

This project models, in Dafny, the tick-driven player-state logic of the
`shared/coresystems` package of the netcode platformer example: the systems
that run every simulation tick, in the fixed order of
`shared/coresystems/common.go:8-18`. That pipeline also runs gravity,
friction, integration and transform. Those four systems are not modelled
here: they are float force and position updates in the physics library. The
modelled systems are:

1. **PlayerMovementSystem** (`movement.dfy`). Three passes over all players:
   - horizontal movement: airborne, flat ground, or slope (uphill or downhill);
   - the jump gate: no double jump, a 10-tick coyote window and a 5-tick input buffer;
   - the drop-through request: a Down press on genuine ground enqueues an IgnorePlatform add.
2. **PlayerBlockCollisionSystem.resolve** (`block_collision.dfy`). It handles one (block, player) contact:
   - it classifies the normal as flat, wall or sloped;
   - it rejects the two snapping corner cases;
   - it picks the vertical or the full resolver;
   - it creates or refreshes OnGround.
3. **PlayerPlatformCollisionSystem** (`platform_collision.dfy`). It covers:
   - the per-player position history (at most 60 entries);
   - the "was ever above" test;
   - the ignore-list match;
   - the falling, top-contact and was-above landing gate;
   - the OnGround create or refresh;
   - the takeover of the least recently active ignore slot.
4. **OnGroundClearingSystem** (`ground_clearing.dfy`). It selects the records with `tick - LastTouch > 15` for removal.
5. **IgnorePlatformClearingSystem** (`ignore_clearing.dfy`). It zeroes expired slots in place. It removes the component when no slot stays active.

Shared value types (OnGround, ignore slots, actions, contacts, enqueued
mutations, the constants) are in `components.dfy`. The player entity is in
`entities.dfy`. It is a class whose fields the systems update in place. OnGround
presence is an `Option`. IgnorePlatform presence is a flag over a fixed-length
`items` array whose length is left open.

Inputs from outside the core:

- The shape-overlap detector is an input: `Option<Contact>` with the normal and
  the `IsTop`/`IsTopB` flags.
- The two resolvers are opaque functions on position and velocity. The model assumes they change only the player's position and velocity (see "## Left out").
- The action buffer is a map from action kind to the tick the press was stamped at.
  Consuming an action removes it.
- The ECS's deferred add/remove calls are returned as a list of pending `Mutation`s.

Behaviour of the code worth knowing when reading the model:

- **Drop-through window.** A Down press enqueues an *empty* IgnorePlatform
  component (`shared/coresystems/player_movement_system.go:215`). The platform's
  slot is written only when the player next lands on that platform, by the
  oldest-slot takeover (`shared/coresystems/player_platform_collision_system.go:150-172`).
  The sweep of that slot runs after the platform system in each tick
  (`shared/coresystems/common.go:8-18`). So the sweeps keep a platform written
  at tick `t` listed through tick `t + 16` and remove it before tick `t + 17`
  (`IgnoreClearing.DropThroughWindow`). It is skipped for that whole window
  unless a later landing's takeover reuses its slot first. The takeover spares
  the slot while some other slot holds an older `LastActive`
  (`PlatformCollision.TakeOverSparesNewerSlot`). With a single slot, the next
  landing elsewhere replaces it (`PlatformCollision.SingleSlotTakeOverForgets`).
- **Flat ground for movement.** Only the normal `(0, 1)` counts as flat
  (`shared/coresystems/player_movement_system.go:79`). The block system's
  classification also counts `(0, -1)` as flat
  (`shared/coresystems/player_block_collision_system.go:56`).
- **Block contacts in the same tick.** The block resolver treats a record as
  continuing only when `LastTouch == tick - 1`
  (`shared/coresystems/player_block_collision_system.go:60-62`). A second top
  contact in the same tick (two adjacent blocks) therefore enqueues a fresh
  OnGround add with `Landed = tick`. It does not refresh the record that the
  first contact already refreshed. `BlockCollision.Resolve` states this. What
  the storage does with an add for a component the entity already has is not
  part of this model.
- **Ignore-slot takeover.** The takeover happens on every landing while the
  player holds an IgnorePlatform component
  (`shared/coresystems/player_platform_collision_system.go:148-172`). The
  search starts from `math.MaxInt64` with a strict `<`. So it picks the first
  slot with the smallest `LastActive`, and picks nothing if every slot holds
  `MaxInt64`. A platform landed on while the list is held is therefore written
  into the list and ignored from the next tick on. A drop-through thus chains
  through each platform the player lands on until the component is removed.

## Model

| member | source | states |
|---|---|---|
| `Components.AsReal` | shared/coresystems/player_movement_system.go:69 | Direction.AsFloat is +1 exactly when facing right, -1 otherwise |
| `Entities.Player.ConsumeAction` | shared/coresystems/player_movement_system.go:48-56 | consuming reports whether the action was pending and its stamp, and removes it from the buffer |
| `Movement.FacingAfter` | shared/coresystems/player_movement_system.go:48-56 | Right pressed wins over Left; with no press the facing is kept |
| `Movement.HorizontalStep` | shared/coresystems/player_movement_system.go:43-110 | Left/Right consumed. No input keeps Vel.X. Airborne sets Vel.X = 120*dir and keeps Vel.Y. Grounded sets Vel.Y = max(Vel.Y, 40), except when moving downhill. Flat sets Vel.X = 120*dir. A slope sets Vel.X = 120*slopeDir.X, and downhill also Vel.Y = 120*slopeDir.Y |
| `Movement.ApplyFacing` | shared/coresystems/player_movement_system.go:48-56 | Left then Right consumed in place; facing becomes `FacingAfter` of the old state; reports whether either was pressed |
| `Movement.Steer` | shared/coresystems/player_movement_system.go:58-110 | after the presses are consumed, the in-place air control, snap force and flat/slope steering complete exactly `HorizontalStep` |
| `Movement.MoveHorizontally` | shared/coresystems/player_movement_system.go:43-110 | the in-place body of the horizontal loop for one player yields exactly `HorizontalStep` of its old state; position and ignore flag untouched |
| `Movement.HandleHorizontal` | shared/coresystems/player_movement_system.go:39-111 | the pass leaves every player in `HorizontalStep` of its old state |
| `Movement.JumpStep` | shared/coresystems/player_movement_system.go:135-168 | the Jump press is consumed for OnGround holders whether or not the jump happens. On success Vel.Y = Accel.Y = -320 and LastJump = tick. On failure velocity, acceleration and LastJump are unchanged |
| `Movement.TryJump` | shared/coresystems/player_movement_system.go:125-169 | the in-place body of the jump loop yields exactly `JumpStep` of the old state |
| `Movement.HandleJump` | shared/coresystems/player_movement_system.go:116-171 | the pass leaves every player in `JumpStep` of its old state |
| `Movement.CanJump` | shared/coresystems/player_movement_system.go:138-160 | no jump twice from one ground touch. A press stamped more than 5 ticks before the touch never jumps. A press after the touch jumps iff within 10 ticks of coyote time. A press buffered in [LastTouch-5, LastTouch] jumps at any later tick: there is no coyote bound on it |
| `Movement.NoDoubleJump` | shared/coresystems/player_movement_system.go:153-167 | after a successful jump from a record touched no later than the jump tick, no jump succeeds until LastTouch changes |
| `Movement.CoyoteExamples` | shared/coresystems/player_movement_system.go:138-160 | touched at 100: a live press at 109 jumps, one at 111 does not |
| `Movement.BufferedExamples` | shared/coresystems/player_movement_system.go:143-147 | touched at 50: a press stamped at 48 jumps, one stamped at 43 does not |
| `Movement.DropEligible` | shared/coresystems/player_movement_system.go:190-197 | eligibility needs grounded in the same sense as horizontal movement (touched last tick); a record held only for coyote time, or a jump this tick, rules a drop out |
| `Movement.DownStep` | shared/coresystems/player_movement_system.go:185-219 | a drop is requested iff OnGround present, LastTouch == tick-1, LastJump != tick, Down pending and at most 5 ticks old. Down is consumed exactly for eligible players, even when too old; nothing else changes |
| `Movement.TryDrop` | shared/coresystems/player_movement_system.go:185-219 | the in-place body of the down loop yields exactly `DownStep` (new state and request) |
| `Movement.HandleDown` | shared/coresystems/player_movement_system.go:175-222 | the pass leaves every player in `DownStep` of its old state and enqueues an IgnorePlatform add for exactly the players whose `DownStep` requests one |
| `Movement.JumpExcludesDrop` | shared/coresystems/player_movement_system.go:194-197 | a player that jumped this tick cannot request a drop-through in the same tick |
| `Movement.Run` | shared/coresystems/player_movement_system.go:29-33 | horizontal, jump, then down: each player ends in the composed step; every enqueued add is for one of the players, and a player has one iff its composed step requests a drop |
| `BlockCollision.ClassifyNormal` | shared/coresystems/player_block_collision_system.go:55-58 | flat iff the normal is (0,1) or (0,-1); wall iff (1,0) or (-1,0); sloped iff neither |
| `BlockCollision.Rejected` | shared/coresystems/player_block_collision_system.go:65-70 | only a contact with one shape on top of the other is rejected, and never at zero vertical velocity. A player under a block while falling is rejected. So is a player rising through a flat or wall top. A top contact on a slope is never rejected unless the block is also on top of the player |
| `BlockCollision.Resolve` | shared/coresystems/player_block_collision_system.go:32-129 | No overlap, or a rejected corner case (on top moving up on a non-sloped contact, or under the block while falling), changes nothing. Otherwise a sloped contact is corrected by the vertical resolver and a flat or wall contact by the full resolver (lines 72-90). OnGround is touched only on top of the block: a record touched last tick is refreshed in place (LastTouch, SlopeNormal; Landed kept). An absent, stale or same-tick record instead gets a fresh {t, t, n} enqueued. Landed <= LastTouch <= tick is preserved |
| `PlatformCollision.Tracked` | shared/coresystems/player_platform_collision_system.go:181-194 | the new history ends with the position, holds at most 60 entries when the old one did, and when full drops the oldest entry |
| `PlatformCollision.TrackedIsSuffix` | shared/coresystems/player_platform_collision_system.go:187-193 | the kept history is the most recent min(n+1, 60) of all tracked positions |
| `PlatformCollision.StaysBelow` | shared/coresystems/player_platform_collision_system.go:188-209 | a history that never had the player above stays so when a position below is tracked |
| `PlatformCollision.PlatformCollisionSystem.constructor` | shared/coresystems/player_platform_collision_system.go:23-29 | the system starts with no histories |
| `PlatformCollision.PlatformCollisionSystem.TrackPosition` | shared/coresystems/player_platform_collision_system.go:181-194 | only this player's history changes, to `Tracked` of the old one (empty if absent); every history stays within 60 |
| `PlatformCollision.PlatformCollisionSystem.CheckAnyPositionWasAbove` | shared/coresystems/player_platform_collision_system.go:197-212 | true iff some stored position has pos.Y + height/2 <= platform top; false for a missing or empty history |
| `PlatformCollision.PlatformCollisionSystem.CheckAnyPositionWasAboveAdvanced` | shared/coresystems/player_platform_collision_system.go:215-223 | false for a missing or empty history |
| `PlatformCollision.PlatformCollisionSystem.WasAbove` | shared/coresystems/player_platform_collision_system.go:89-109 | unrotated platforms use the flat history test; any "above" needs a non-empty history |
| `PlatformCollision.IsIgnored` | shared/coresystems/player_platform_collision_system.go:81-87 | true iff some slot matches the platform's (ID, Recycled) |
| `PlatformCollision.ScanForOldest` | shared/coresystems/player_platform_collision_system.go:150-164 | Stops on a matching slot. Otherwise yields the first slot with the smallest LastActive, provided it is below MaxInt64. Yields nothing when every slot is at MaxInt64 |
| `PlatformCollision.FirstOldestUnique` | shared/coresystems/player_platform_collision_system.go:159-163 | the first-oldest slot is unique |
| `PlatformCollision.TakeOverKeepsDistinct` | shared/coresystems/player_platform_collision_system.go:166-172 | writing a platform the list does not hold into any slot keeps at most one slot per platform |
| `PlatformCollision.TakeOverSparesNewerSlot` | shared/coresystems/player_platform_collision_system.go:150-172 | a takeover leaves a slot untouched whenever some other slot has an older LastActive |
| `PlatformCollision.SingleSlotTakeOverForgets` | shared/coresystems/player_platform_collision_system.go:150-172 | with one slot, a takeover for another platform replaces the listed one, which is then no longer ignored |
| `PlatformCollision.PlatformCollisionSystem.NeverAboveNeverLands` | shared/coresystems/player_platform_collision_system.go:89-115 | a player with no tracked position at or above an unrotated platform's top, or with no history at all, never lands on it, whatever the contact, velocity or ignore list |
| `PlatformCollision.Land` | shared/coresystems/player_platform_collision_system.go:118-146 | the vertical resolver is applied; OnGround is enqueued as {t, t, n} when absent, or gets LastTouch and SlopeNormal set in place with Landed kept; nothing else changes |
| `PlatformCollision.TakeOver` | shared/coresystems/player_platform_collision_system.go:148-172 | For a listed platform the slots are unchanged. Otherwise the first oldest slot (below MaxInt64) becomes (ID, Recycled, t) with all others kept, or nothing changes when every slot is at MaxInt64. At most one slot per platform is preserved |
| `PlatformCollision.PlatformCollisionSystem.Resolve` | shared/coresystems/player_platform_collision_system.go:57-178 | The landing gate is line 115: Vel.Y > 0, a top contact on the platform, and was-above. Without overlap, with the platform ignored, or without Vel.Y > 0 && IsTopB && was-above, nothing changes. A landing applies the vertical resolver. It then enqueues {t, t, n} when OnGround is absent, or sets LastTouch and SlopeNormal in place (no staleness check). Holding an ignore list, the first oldest slot becomes (ID, Recycled, t) and every other slot is kept. Distinct entries and Landed <= LastTouch <= tick are preserved |
| `PlatformCollision.PlatformCollisionSystem.Step` | shared/coresystems/player_platform_collision_system.go:37-52 | one (platform, player) iteration has exactly the effect of `Resolve` on the player, its ignore list and the enqueued OnGround add. That covers the landing and no-landing cases, OnGround, the slot takeover, distinct slots and valid records. The player's history then gains exactly the post-resolve position, also when resolve returned early |
| `GroundClearing.ExpiredEntities` | shared/coresystems/on_ground_clearing_system.go:21-35 | an entity is selected iff its record has tick - LastTouch > 15 |
| `GroundClearing.Remaining` | shared/coresystems/on_ground_clearing_system.go:26-33 | after the removals only unexpired records remain |
| `GroundClearing.Run` | shared/coresystems/on_ground_clearing_system.go:11-37 | enqueues one removal per selected entity, in cursor order, and modifies no record |
| `GroundClearing.GroundContinuity` | shared/coresystems/on_ground_clearing_system.go:26 | a record touched at t and never refreshed survives ticks t..t+15 and is selected from t+16 on |
| `GroundClearing.CoyoteWithinExpiry` | shared/coresystems/on_ground_clearing_system.go:12-14 | a record that still grants a coyote jump was never selected since its last touch |
| `GroundClearing.SweepThenNothing` | shared/coresystems/on_ground_clearing_system.go:21-35 | once the removals are applied, a second pass in the same tick selects nothing |
| `GroundClearing.RemainingComplementsSelection` | shared/coresystems/on_ground_clearing_system.go:26-33 | a record stays iff it is unexpired; every record that goes was selected |
| `IgnoreClearing.SweepSlot` | shared/coresystems/ignore_platform_clearing_system.go:29-44 | empty slots are kept as they are. Expired non-empty slots get ID, Recycled and LastActive zeroed. Active slots are kept. A slot is non-empty afterwards iff it was active |
| `IgnoreClearing.SweptSlots` | shared/coresystems/ignore_platform_clearing_system.go:27-45 | same length; each slot is swept where it stands |
| `IgnoreClearing.SweepNeverAddsEntries` | shared/coresystems/ignore_platform_clearing_system.go:27-45 | the number of non-empty slots never increases |
| `IgnoreClearing.SweepIdempotent` | shared/coresystems/ignore_platform_clearing_system.go:27-52 | a second sweep in the same tick leaves Items identical and makes the same removal decision |
| `IgnoreClearing.SweepKeepsDistinct` | shared/coresystems/ignore_platform_clearing_system.go:34-39 | sweeping keeps at most one slot per platform |
| `IgnoreClearing.SweepItems` | shared/coresystems/ignore_platform_clearing_system.go:24-45 | the array becomes `SweptSlots` of its old contents. The flag is true iff some slot was active, which is iff some slot is still non-empty |
| `IgnoreClearing.Run` | shared/coresystems/ignore_platform_clearing_system.go:12-56 | Every holder's slots are swept in place and non-holders' are untouched. Every enqueued removal is for one of the players, and a player has one iff it holds a list with no active slot |
| `IgnoreClearing.EmptyStaysEmpty` | shared/coresystems/ignore_platform_clearing_system.go:29-31 | an empty slot stays empty across any number of sweeps |
| `IgnoreClearing.SlotLifetime` | shared/coresystems/ignore_platform_clearing_system.go:34-43 | a non-empty slot survives while its age is at most 15 and is emptied for good by the first sweep after that |
| `IgnoreClearing.DropThroughWindow` | shared/coresystems/ignore_platform_clearing_system.go:34-39 | across the sweeps alone, a slot written for a platform at tick t still matches it at tick u > t iff u <= t + 16; writes by a later takeover are not covered here |

## Left out

- `PlatformCollision.PlatformCollisionSystem.CheckAnyPositionWasAboveAdvanced`: the rotated-edge geometry (`Mag`, `Norm`, the projections) is an opaque parameter. Only the missing-or-empty-history guard is modelled, because the square-root float geometry has no useful exact model here.
- The nested cursor loops of the two collision `Run` methods. They iterate (terrain, player) pairs, and the detector's answer for a later pair depends on positions corrected for earlier pairs. The model states the per-pair step (`BlockCollision.Resolve`, `PlatformCollision.PlatformCollisionSystem.Step`); the iteration over pairs is not modelled.
- Errors from the entity storage are not modelled; the model assumes every storage call succeeds. The movement down pass, the block resolver and the platform system's Run and platform lookup return a failed `CurrentEntity` or enqueue call to their caller (player_movement_system.go:200-218, player_block_collision_system.go:110-121, player_platform_collision_system.go:38-46 and 77-79). The ground and ignore clearing systems and the platform landing discard the `CurrentEntity` error with `_` (on_ground_clearing_system.go:27, ignore_platform_clearing_system.go:48, player_platform_collision_system.go:133) and return only enqueue failures.
- The resolvers' effects beyond the player: the model assumes a resolver changes only the player's position and velocity. It does not change Accel, and it does not change the terrain body it receives by pointer (player_block_collision_system.go:72-90, player_platform_collision_system.go:118-124). The unchanged-acceleration clauses of both `Resolve` methods rest on that assumption, and the terrain is not modelled as state.
- The entity storage itself is not modelled. Applying the pending mutations after a pass is left out, and so is what an add means for an entity that already has the component.
- The detector, the two resolvers, `Direction.AsFloat` and `ActionBuffer.ConsumeAction` are library code. They are modelled as inputs, opaque functions, ±1 and a map respectively.
- Gravity, friction, integration and the shape transform are left out: these systems are float force and position updates in library code.
- Floating point: positions, velocities and normals are reals, so rounding and NaN are left out. Ticks are unbounded integers, so overflow is left out. The `math.MaxInt64` start of the oldest-slot search is kept as a constant.
- The wall-direction computation in the block resolver (lines 93-102) is left out: its result is never used.
- Cursor iteration order is taken as the order of the given player sequence. The players are assumed to be distinct entities with their own components.
