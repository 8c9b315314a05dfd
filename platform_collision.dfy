/**
 * PlayerPlatformCollisionSystem: one-way platforms. The system owns a
 * per-player history of recent positions (keyed by entity id, at most 60
 * each) from which it decides whether the player approached from above. A
 * platform the player is ignoring (dropping through) is skipped; otherwise a
 * falling player on top of a platform it was above lands on it, and a player
 * holding an ignore list has its least recently active slot taken over by the
 * platform.
 */
module PlatformCollision {
  import opened Components
  import opened Entities

  /** A one-way platform as resolve sees it: its entity, rotation and top edge height. */
  datatype Platform = Platform(ref: EntityRef, rotation: real, top: real)

  // ---------------------------------------------------------------------------
  // Position history

  /** The history after appending `pos`: the most recent positions, at most 60 of them. */
  function Tracked(h: seq<Vec2>, pos: Vec2): (r: seq<Vec2>)
    ensures |r| >= 1 && r[|r| - 1] == pos
    ensures |h| <= MaxPositionsToTrack ==> |r| <= MaxPositionsToTrack
    ensures |h| < MaxPositionsToTrack ==> r == h + [pos]
    // once full, the oldest position is evicted
    ensures |h| == MaxPositionsToTrack ==> |r| == MaxPositionsToTrack && r == h[1..] + [pos]
  {
    var appended := h + [pos];
    if |appended| > MaxPositionsToTrack then appended[1..] else appended
  }

  /** The stored history kept is always a suffix of the full sequence of tracked positions. */
  lemma TrackedIsSuffix(h: seq<Vec2>, pos: Vec2)
    requires |h| <= MaxPositionsToTrack
    ensures var r := Tracked(h, pos);
      |r| == if |h| < MaxPositionsToTrack then |h| + 1 else MaxPositionsToTrack
    ensures var r := Tracked(h, pos);
      r == (h + [pos])[|h| + 1 - |r|..]
  {
  }

  /** Position `pos` had the player's bottom edge at or above the platform's top. */
  predicate PositionAbove(pos: Vec2, top: real, height: real)
  {
    pos.y + height / 2.0 <= top
  }

  predicate AnyPositionAbove(positions: seq<Vec2>, top: real, height: real)
  {
    exists k :: 0 <= k < |positions| && PositionAbove(positions[k], top, height)
  }

  /** A history that never had the player above cannot start being "above" by adding a position below. */
  lemma StaysBelow(h: seq<Vec2>, pos: Vec2, top: real, height: real)
    requires !AnyPositionAbove(h, top, height) && !PositionAbove(pos, top, height)
    ensures !AnyPositionAbove(Tracked(h, pos), top, height)
  {
    var r := Tracked(h, pos);
    forall k | 0 <= k < |r|
      ensures !PositionAbove(r[k], top, height)
    {
      if |h + [pos]| > MaxPositionsToTrack {
        assert r[k] == (h + [pos])[k + 1];
      } else {
        assert r[k] == (h + [pos])[k];
      }
    }
  }

  // ---------------------------------------------------------------------------
  // Ignore list

  /** A slot refers to the platform: same id and same recycle counter. */
  predicate Matches(s: IgnoreSlot, platform: EntityRef)
  {
    s.entityID == platform.id && s.recycled == platform.recycled
  }

  predicate Ignores(slots: seq<IgnoreSlot>, platform: EntityRef)
  {
    exists i :: 0 <= i < |slots| && Matches(slots[i], platform)
  }

  /** Slot i is the first slot holding the smallest LastActive. */
  predicate IsFirstOldest(slots: seq<IgnoreSlot>, i: int)
  {
    && 0 <= i < |slots|
    && (forall k :: 0 <= k < |slots| ==> slots[i].lastActive <= slots[k].lastActive)
    && (forall k :: 0 <= k < i ==> slots[k].lastActive > slots[i].lastActive)
  }

  lemma FirstOldestUnique(slots: seq<IgnoreSlot>, i: int, j: int)
    requires IsFirstOldest(slots, i) && IsFirstOldest(slots, j)
    ensures i == j
  {
    assert slots[i].lastActive <= slots[j].lastActive && slots[j].lastActive <= slots[i].lastActive;
  }

  /** At most one non-empty slot per distinct platform. */
  predicate DistinctEntries(slots: seq<IgnoreSlot>)
  {
    forall i, j :: 0 <= i < |slots| && 0 <= j < |slots| && i != j && slots[i].entityID != 0 ==>
      !Matches(slots[j], EntityRef(slots[i].entityID, slots[i].recycled))
  }

  /** Outcome of the oldest-slot search in resolve. */
  datatype Scan = AlreadyIgnored | Oldest(index: nat) | NoneFound

  /**
   * The takeover spares a slot whenever some slot is older: a platform written
   * at tick t stays listed through a later takeover if another slot's
   * LastActive is below t.
   */
  lemma TakeOverSparesNewerSlot(slots: seq<IgnoreSlot>, i: int, j: int, platform: EntityRef, tick: int)
    requires IsFirstOldest(slots, i) && 0 <= j < |slots|
    requires exists k :: 0 <= k < |slots| && slots[k].lastActive < slots[j].lastActive
    ensures slots[i := IgnoreSlot(platform.id, platform.recycled, tick)][j] == slots[j]
  {
    var k :| 0 <= k < |slots| && slots[k].lastActive < slots[j].lastActive;
    assert slots[i].lastActive <= slots[k].lastActive;
  }

  /**
   * With a single slot, a takeover for another platform replaces the one
   * listed: the earlier platform is no longer ignored.
   */
  lemma SingleSlotTakeOverForgets(p: EntityRef, q: EntityRef, t: int, u: int)
    requires p != q
    ensures IsFirstOldest([IgnoreSlot(p.id, p.recycled, t)], 0)
    ensures !Ignores([IgnoreSlot(p.id, p.recycled, t)][0 := IgnoreSlot(q.id, q.recycled, u)], p)
  {
    var after := [IgnoreSlot(q.id, q.recycled, u)];
    assert [IgnoreSlot(p.id, p.recycled, t)][0 := IgnoreSlot(q.id, q.recycled, u)] == after;
    assert !Matches(after[0], p);
  }

  /** Taking over a slot for a platform the list does not hold keeps the entries distinct. */
  lemma TakeOverKeepsDistinct(slots: seq<IgnoreSlot>, i: int, platform: EntityRef, tick: int)
    requires DistinctEntries(slots) && !Ignores(slots, platform) && 0 <= i < |slots|
    ensures DistinctEntries(slots[i := IgnoreSlot(platform.id, platform.recycled, tick)])
  {
    var s := slots[i := IgnoreSlot(platform.id, platform.recycled, tick)];
    forall a, b | 0 <= a < |s| && 0 <= b < |s| && a != b && s[a].entityID != 0
      ensures !Matches(s[b], EntityRef(s[a].entityID, s[a].recycled))
    {
      if a == i {
        assert !Matches(slots[b], platform);
      } else if b == i {
        assert !Matches(slots[a], platform);
      }
    }
  }

  /** The ignore-list match loop of resolve: is this platform in the list? */
  method IsIgnored(items: array<IgnoreSlot>, platform: EntityRef) returns (ignored: bool)
    ensures ignored <==> Ignores(items[..], platform)
  {
    for i := 0 to items.Length
      invariant forall k :: 0 <= k < i ==> !Matches(items[k], platform)
    {
      if Matches(items[i], platform) {
        return true;
      }
    }
    return false;
  }

  /**
   * The oldest-slot search of resolve: stops if the platform is already in the
   * list, otherwise finds the first slot with the smallest LastActive below
   * math.MaxInt64 (the search's starting value).
   */
  method ScanForOldest(items: array<IgnoreSlot>, platform: EntityRef) returns (scan: Scan)
    ensures scan.AlreadyIgnored? <==> Ignores(items[..], platform)
    ensures scan.Oldest? ==> IsFirstOldest(items[..], scan.index) && items[scan.index].lastActive < MaxInt64
    ensures scan.NoneFound? ==> forall k :: 0 <= k < items.Length ==> items[k].lastActive >= MaxInt64
  {
    var oldestTick := MaxInt64;
    var oldestIndex := -1;
    for i := 0 to items.Length
      invariant forall k :: 0 <= k < i ==> !Matches(items[k], platform)
      invariant -1 <= oldestIndex < i
      invariant oldestIndex == -1 ==>
        oldestTick == MaxInt64 && forall k :: 0 <= k < i ==> items[k].lastActive >= MaxInt64
      invariant oldestIndex != -1 ==>
        && oldestTick == items[oldestIndex].lastActive < MaxInt64
        && (forall k :: 0 <= k < i ==> oldestTick <= items[k].lastActive)
        && (forall k :: 0 <= k < oldestIndex ==> items[k].lastActive > oldestTick)
    {
      if Matches(items[i], platform) {
        return AlreadyIgnored;
      }
      if items[i].lastActive < oldestTick {
        oldestTick := items[i].lastActive;
        oldestIndex := i;
      }
    }
    if oldestIndex != -1 {
      scan := Oldest(oldestIndex);
    } else {
      scan := NoneFound;
    }
  }

  /**
   * The slot takeover after a landing: unless the platform is already listed,
   * the first slot with the smallest LastActive (below math.MaxInt64) is
   * overwritten with the platform, stamped with the current tick.
   */
  method TakeOver(items: array<IgnoreSlot>, platform: EntityRef, tick: int)
    modifies items
    ensures Ignores(old(items[..]), platform) ==> items[..] == old(items[..])
    ensures !Ignores(old(items[..]), platform) ==>
      || (exists i :: IsFirstOldest(old(items[..]), i) && old(items[i]).lastActive < MaxInt64 &&
            items[..] == old(items[..])[i := IgnoreSlot(platform.id, platform.recycled, tick)])
      || ((forall k :: 0 <= k < items.Length ==> old(items[k]).lastActive >= MaxInt64) &&
            items[..] == old(items[..]))
    ensures DistinctEntries(old(items[..])) ==> DistinctEntries(items[..])
  {
    var scan := ScanForOldest(items, platform);
    if scan.Oldest? {
      ghost var before := items[..];
      items[scan.index] := IgnoreSlot(platform.id, platform.recycled, tick);
      if DistinctEntries(before) {
        TakeOverKeepsDistinct(before, scan.index, platform, tick);
      }
    }
  }

  // ---------------------------------------------------------------------------
  // Landing

  /** Resolution happens only for a falling player on top of a platform it was above. */
  predicate LandingGate(velY: real, c: Contact, wasAbove: bool)
  {
    velY > 0.0 && c.isTopB && wasAbove
  }

  /** Whether resolve lands the player: an overlap, not ignored, that passes the gate. */
  predicate Lands(contact: Option<Contact>, ignoring: bool, slots: seq<IgnoreSlot>, platform: EntityRef,
                  velY: real, wasAbove: bool)
  {
    contact.Some? && !(ignoring && Ignores(slots, platform)) && LandingGate(velY, contact.value, wasAbove)
  }

  /**
   * A landing on a platform: vertical-only resolution, then a fresh OnGround
   * enqueued, or the existing one refreshed in place with no staleness check.
   */
  method Land(p: Player, c: Contact, vertical: Resolver, tick: int) returns (pending: seq<Mutation>)
    modifies p
    ensures p.accel == old(p.accel) && p.facing == old(p.facing) && p.actions == old(p.actions)
    ensures p.lastJump == old(p.lastJump) && p.ignoring == old(p.ignoring)
    ensures p.Kin() == vertical(old(p.Kin()), c)
    ensures old(p.onGround).None? ==>
      p.onGround == None && pending == [AddOnGround(p.ref, OnGround(tick, tick, c.normal))]
    ensures old(p.onGround).Some? ==>
      p.onGround == Some(old(p.onGround).value.(lastTouch := tick, slopeNormal := c.normal)) && pending == []
  {
    pending := [];
    var resolved := vertical(p.Kin(), c);
    p.pos, p.vel := resolved.pos, resolved.vel;
    if p.onGround.None? {
      pending := [AddOnGround(p.ref, OnGround(tick, tick, c.normal))];
    } else {
      p.onGround := Some(p.onGround.value.(lastTouch := tick, slopeNormal := c.normal));
    }
  }

  class PlatformCollisionSystem {
    /** Recent positions per player id, most recent last. */
    var history: map<int, seq<Vec2>>

    ghost predicate Valid()
      reads this
    {
      forall id :: id in history ==> |history[id]| <= MaxPositionsToTrack
    }

    constructor ()
      ensures Valid() && history == map[]
    {
      history := map[];
    }

    /** The stored history of a player; a player never tracked has none. */
    function HistoryOf(id: int): (h: seq<Vec2>)
      reads this
    {
      if id in history then history[id] else []
    }

    /** trackPosition: append, then evict the oldest once over capacity. */
    method TrackPosition(id: int, pos: Vec2)
      requires Valid()
      modifies this
      ensures Valid()
      ensures history == old(history)[id := Tracked(old(HistoryOf(id)), pos)]
    {
      if id !in history {
        history := history[id := []];
      }
      history := history[id := history[id] + [pos]];
      if |history[id]| > MaxPositionsToTrack {
        history := history[id := history[id][1..]];
      }
    }

    /** checkAnyPlayerPositionWasAbove: some stored position had the player above the platform's top. */
    method CheckAnyPositionWasAbove(id: int, top: real, height: real) returns (above: bool)
      ensures above <==> id in history && AnyPositionAbove(history[id], top, height)
      ensures id !in history || history[id] == [] ==> !above
    {
      if id !in history || |history[id]| == 0 {
        return false;
      }
      var positions := history[id];
      for i := 0 to |positions|
        invariant forall k :: 0 <= k < i ==> !PositionAbove(positions[k], top, height)
      {
        if PositionAbove(positions[i], top, height) {
          return true;
        }
      }
      return false;
    }

    /**
     * The rotated-platform test; its edge geometry (rotatedAbove) is taken as
     * opaque, and it is false for a missing or empty history.
     */
    function CheckAnyPositionWasAboveAdvanced(id: int, rotatedAbove: seq<Vec2> -> bool): (above: bool)
      reads this
      ensures above ==> id in history && history[id] != []
    {
      if id !in history || |history[id]| == 0 then false else rotatedAbove(history[id])
    }

    /** playerWasAbove as resolve computes it: the flat test for unrotated platforms, the edge test otherwise. */
    function WasAbove(id: int, platform: Platform, height: real, rotatedAbove: seq<Vec2> -> bool): (above: bool)
      reads this
      ensures platform.rotation == 0.0 ==> (above <==> AnyPositionAbove(HistoryOf(id), platform.top, height))
      ensures above ==> HistoryOf(id) != []
    {
      if platform.rotation == 0.0 then id in history && AnyPositionAbove(history[id], platform.top, height)
      else CheckAnyPositionWasAboveAdvanced(id, rotatedAbove)
    }

    /**
     * resolve for one (platform, player) pair. `contact` is the detector's
     * answer (None when not overlapping), `height` the player's box height,
     * `vertical` the vertical-only resolver. Returns the enqueued mutations.
     */
    method Resolve(p: Player, platform: Platform, contact: Option<Contact>, height: real,
                   vertical: Resolver, rotatedAbove: seq<Vec2> -> bool, tick: int)
      returns (pending: seq<Mutation>)
      modifies p, p.items
      ensures p.accel == old(p.accel) && p.facing == old(p.facing) && p.actions == old(p.actions)
      ensures p.lastJump == old(p.lastJump) && p.ignoring == old(p.ignoring)
      // no landing (no overlap, platform ignored, or the gate fails): nothing changes
      ensures !Lands(contact, old(p.ignoring), old(p.items[..]), platform.ref, old(p.vel.y),
                     WasAbove(p.ref.id, platform, height, rotatedAbove)) ==>
        unchanged(p) && unchanged(p.items) && pending == []
      // landing: vertical resolution, then OnGround enqueued or refreshed in place
      ensures Lands(contact, old(p.ignoring), old(p.items[..]), platform.ref, old(p.vel.y),
                    WasAbove(p.ref.id, platform, height, rotatedAbove)) ==>
        && p.Kin() == vertical(old(p.Kin()), contact.value)
        && (old(p.onGround).None? ==>
              p.onGround == None && pending == [AddOnGround(p.ref, OnGround(tick, tick, contact.value.normal))])
        && (old(p.onGround).Some? ==>
              p.onGround == Some(old(p.onGround).value.(lastTouch := tick, slopeNormal := contact.value.normal)) &&
              pending == [])
      // landing while holding an ignore list: the first oldest slot is taken over by this platform
      ensures Lands(contact, old(p.ignoring), old(p.items[..]), platform.ref, old(p.vel.y),
                    WasAbove(p.ref.id, platform, height, rotatedAbove)) && old(p.ignoring) ==>
        || (exists i :: IsFirstOldest(old(p.items[..]), i) && old(p.items[i]).lastActive < MaxInt64 &&
              p.items[..] == old(p.items[..])[i := IgnoreSlot(platform.ref.id, platform.ref.recycled, tick)])
        || ((forall k :: 0 <= k < p.items.Length ==> old(p.items[k]).lastActive >= MaxInt64) &&
              p.items[..] == old(p.items[..]))
      ensures !old(p.ignoring) ==> p.items[..] == old(p.items[..])
      // the ignore list keeps at most one slot per platform, and OnGround stays well formed
      ensures DistinctEntries(old(p.items[..])) ==> DistinctEntries(p.items[..])
      ensures old(p.onGround).Some? && GroundRecordValid(old(p.onGround).value, tick) ==>
        p.onGround.Some? && GroundRecordValid(p.onGround.value, tick)
      // any record enqueued is well formed
      ensures forall k :: 0 <= k < |pending| ==>
        pending[k].AddOnGround? && pending[k].entity == p.ref && GroundRecordValid(pending[k].record, tick)
    {
      pending := [];
      if contact.None? {
        return;
      }
      var c := contact.value;
      var ignoringPlatforms := p.ignoring;
      if ignoringPlatforms {
        var ignored := IsIgnored(p.items, platform.ref);
        if ignored {
          return;
        }
      }
      var playerWasAbove: bool;
      if platform.rotation == 0.0 {
        playerWasAbove := CheckAnyPositionWasAbove(p.ref.id, platform.top, height);
      } else {
        playerWasAbove := CheckAnyPositionWasAboveAdvanced(p.ref.id, rotatedAbove);
      }
      if p.vel.y > 0.0 && c.isTopB && playerWasAbove {
        pending := Land(p, c, vertical, tick);
        if ignoringPlatforms {
          TakeOver(p.items, platform.ref, tick);
        }
      }
    }

    /**
     * One-way behaviour: a player with no tracked position ever at or above
     * the top of an unrotated platform, or with no tracked position at all,
     * does not land on it, whatever the contact, velocity or ignore list.
     */
    lemma NeverAboveNeverLands(id: int, platform: Platform, height: real, rotatedAbove: seq<Vec2> -> bool,
                               contact: Option<Contact>, ignoring: bool, slots: seq<IgnoreSlot>, velY: real)
      requires (platform.rotation == 0.0 && !AnyPositionAbove(HistoryOf(id), platform.top, height))
               || HistoryOf(id) == []
      ensures !Lands(contact, ignoring, slots, platform.ref, velY, WasAbove(id, platform, height, rotatedAbove))
    {
    }

    /**
     * One iteration of Run's inner loop: resolve the pair, then record the
     * player's position as it is after resolve, whether resolve landed or not.
     */
    method Step(p: Player, platform: Platform, contact: Option<Contact>, height: real,
                vertical: Resolver, rotatedAbove: seq<Vec2> -> bool, tick: int)
      returns (pending: seq<Mutation>)
      requires Valid()
      modifies this, p, p.items
      ensures Valid()
      // the history gains the position as it is after resolve
      ensures history == old(history)[p.ref.id := Tracked(old(HistoryOf(p.ref.id)), p.pos)]
      ensures p.accel == old(p.accel) && p.facing == old(p.facing) && p.actions == old(p.actions)
      ensures p.lastJump == old(p.lastJump) && p.ignoring == old(p.ignoring)
      // no landing: the player and its ignore list are untouched and nothing is enqueued
      ensures !Lands(contact, old(p.ignoring), old(p.items[..]), platform.ref, old(p.vel.y),
                     old(WasAbove(p.ref.id, platform, height, rotatedAbove))) ==>
        p.Kin() == old(p.Kin()) && p.onGround == old(p.onGround) && p.items[..] == old(p.items[..]) &&
        pending == []
      // landing: vertical resolution, then OnGround enqueued or refreshed in place
      ensures Lands(contact, old(p.ignoring), old(p.items[..]), platform.ref, old(p.vel.y),
                    old(WasAbove(p.ref.id, platform, height, rotatedAbove))) ==>
        && p.Kin() == vertical(old(p.Kin()), contact.value)
        && (old(p.onGround).None? ==>
              p.onGround == None && pending == [AddOnGround(p.ref, OnGround(tick, tick, contact.value.normal))])
        && (old(p.onGround).Some? ==>
              p.onGround == Some(old(p.onGround).value.(lastTouch := tick, slopeNormal := contact.value.normal)) &&
              pending == [])
      // landing while holding an ignore list: the first oldest slot is taken over by this platform
      ensures Lands(contact, old(p.ignoring), old(p.items[..]), platform.ref, old(p.vel.y),
                    old(WasAbove(p.ref.id, platform, height, rotatedAbove))) && old(p.ignoring) ==>
        || (exists i :: IsFirstOldest(old(p.items[..]), i) && old(p.items[i]).lastActive < MaxInt64 &&
              p.items[..] == old(p.items[..])[i := IgnoreSlot(platform.ref.id, platform.ref.recycled, tick)])
        || ((forall k :: 0 <= k < p.items.Length ==> old(p.items[k]).lastActive >= MaxInt64) &&
              p.items[..] == old(p.items[..]))
      ensures !old(p.ignoring) ==> p.items[..] == old(p.items[..])
      ensures DistinctEntries(old(p.items[..])) ==> DistinctEntries(p.items[..])
      ensures old(p.onGround).Some? && GroundRecordValid(old(p.onGround).value, tick) ==>
        p.onGround.Some? && GroundRecordValid(p.onGround.value, tick)
      ensures forall k :: 0 <= k < |pending| ==>
        pending[k].AddOnGround? && pending[k].entity == p.ref && GroundRecordValid(pending[k].record, tick)
    {
      pending := Resolve(p, platform, contact, height, vertical, rotatedAbove, tick);
      TrackPosition(p.ref.id, p.pos);
    }
  }
}
