/**
 * IgnorePlatformClearingSystem: each tick, every IgnorePlatform holder has
 * its expired slots zeroed in place; when no slot is still active the whole
 * component's removal is enqueued. Slots are never moved or compacted.
 */
module IgnoreClearing {
  import opened Components
  import opened Entities
  import PlatformCollision

  /** A slot still in use: non-empty and active within the last 15 ticks. */
  predicate SlotActive(s: IgnoreSlot, tick: int)
  {
    s.entityID != 0 && tick - s.lastActive <= IgnoreExpiry
  }

  /** The sweep of one slot: empty slots are skipped, expired ones zeroed, active ones kept. */
  function SweepSlot(s: IgnoreSlot, tick: int): (r: IgnoreSlot)
    ensures s.entityID == 0 ==> r == s
    ensures s.entityID != 0 && tick - s.lastActive > IgnoreExpiry ==>
      r.entityID == 0 && r.recycled == 0 && r.lastActive == 0
    ensures SlotActive(s, tick) ==> r == s
    ensures r.entityID != 0 <==> SlotActive(s, tick)
  {
    if s.entityID == 0 then s
    else if tick - s.lastActive > IgnoreExpiry then EmptySlot
    else s
  }

  /** The sweep of a whole slot array: same length, each slot swept where it stands. */
  function SweptSlots(slots: seq<IgnoreSlot>, tick: int): (r: seq<IgnoreSlot>)
    ensures |r| == |slots|
    ensures forall i :: 0 <= i < |slots| ==> r[i] == SweepSlot(slots[i], tick)
  {
    seq(|slots|, i requires 0 <= i < |slots| => SweepSlot(slots[i], tick))
  }

  predicate AnyActive(slots: seq<IgnoreSlot>, tick: int)
  {
    exists i :: 0 <= i < |slots| && SlotActive(slots[i], tick)
  }

  /** Number of non-empty slots. */
  function CountOccupied(slots: seq<IgnoreSlot>): (n: nat)
    ensures n <= |slots|
  {
    if slots == [] then 0
    else (if slots[0].entityID != 0 then 1 else 0) + CountOccupied(slots[1..])
  }

  /** Sweeping never adds entries: the number of non-empty slots does not increase. */
  lemma {:induction false} SweepNeverAddsEntries(slots: seq<IgnoreSlot>, tick: int)
    ensures CountOccupied(SweptSlots(slots, tick)) <= CountOccupied(slots)
  {
    if slots != [] {
      var r := SweptSlots(slots, tick);
      assert r[1..] == SweptSlots(slots[1..], tick);
      SweepNeverAddsEntries(slots[1..], tick);
    }
  }

  /** Sweeping twice in one tick changes nothing more and makes the same removal decision. */
  lemma SweepIdempotent(slots: seq<IgnoreSlot>, tick: int)
    ensures SweptSlots(SweptSlots(slots, tick), tick) == SweptSlots(slots, tick)
    ensures AnyActive(SweptSlots(slots, tick), tick) <==> AnyActive(slots, tick)
  {
    var once := SweptSlots(slots, tick);
    assert forall i :: 0 <= i < |slots| ==> SweepSlot(once[i], tick) == once[i];
  }

  /** Sweeping only empties slots, so an ignore list that held each platform once still does. */
  lemma SweepKeepsDistinct(slots: seq<IgnoreSlot>, tick: int)
    requires PlatformCollision.DistinctEntries(slots)
    ensures PlatformCollision.DistinctEntries(SweptSlots(slots, tick))
  {
    var r := SweptSlots(slots, tick);
    forall a, b | 0 <= a < |r| && 0 <= b < |r| && a != b && r[a].entityID != 0
      ensures !PlatformCollision.Matches(r[b], EntityRef(r[a].entityID, r[a].recycled))
    {
      assert r[a] == slots[a];
      assert r[b] == slots[b] || r[b] == EmptySlot;
    }
  }

  /** The slot loop of Run for one holder: zero expired slots in place, report whether any stays active. */
  method SweepItems(items: array<IgnoreSlot>, tick: int) returns (anyActive: bool)
    modifies items
    ensures items[..] == SweptSlots(old(items[..]), tick)
    ensures anyActive <==> AnyActive(old(items[..]), tick)
    // after the sweep, the active slots are exactly the non-empty ones
    ensures anyActive <==> exists i :: 0 <= i < items.Length && items[i].entityID != 0
  {
    anyActive := false;
    for i := 0 to items.Length
      invariant forall k :: 0 <= k < i ==> items[k] == SweepSlot(old(items[k]), tick)
      invariant forall k :: i <= k < items.Length ==> items[k] == old(items[k])
      invariant anyActive <==> exists k :: 0 <= k < i && SlotActive(old(items[k]), tick)
    {
      if items[i].entityID == 0 {
        continue;
      }
      if tick - items[i].lastActive > IgnoreExpiry {
        items[i] := EmptySlot;
      } else {
        anyActive := true;
      }
    }
    assert forall k :: 0 <= k < items.Length ==> (items[k].entityID != 0 <==> SlotActive(old(items[k]), tick));
  }

  /** Each player owns its own ignore list. */
  predicate SeparateLists(players: seq<Player>)
  {
    forall i, j :: 0 <= i < j < |players| ==> players[i].ref != players[j].ref && players[i].items != players[j].items
  }

  /** Run: sweep every IgnorePlatform holder; enqueue the component's removal where nothing stays active. */
  method Run(players: seq<Player>, tick: int) returns (pending: seq<Mutation>)
    requires SeparateLists(players)
    modifies set p | p in players :: p.items
    ensures forall i :: 0 <= i < |players| ==>
      players[i].items[..] == if players[i].ignoring then SweptSlots(old(players[i].items[..]), tick)
                              else old(players[i].items[..])
    ensures forall k :: 0 <= k < |pending| ==>
      pending[k].RemoveIgnorePlatform? && exists j :: 0 <= j < |players| && pending[k].entity == players[j].ref
    ensures forall i :: 0 <= i < |players| ==>
      (RemoveIgnorePlatform(players[i].ref) in pending <==>
         players[i].ignoring && !AnyActive(old(players[i].items[..]), tick))
  {
    pending := [];
    for i := 0 to |players|
      invariant forall j :: 0 <= j < i ==>
        players[j].items[..] == if players[j].ignoring then SweptSlots(old(players[j].items[..]), tick)
                                else old(players[j].items[..])
      invariant forall j :: i <= j < |players| ==> players[j].items[..] == old(players[j].items[..])
      invariant forall k :: 0 <= k < |pending| ==>
        pending[k].RemoveIgnorePlatform? && exists j :: 0 <= j < i && pending[k].entity == players[j].ref
      invariant forall j :: 0 <= j < i ==>
        (RemoveIgnorePlatform(players[j].ref) in pending <==>
           players[j].ignoring && !AnyActive(old(players[j].items[..]), tick))
    {
      if !players[i].ignoring {
        continue;
      }
      var anyActive := SweepItems(players[i].items, tick);
      if !anyActive {
        pending := pending + [RemoveIgnorePlatform(players[i].ref)];
      }
    }
  }

  // ---------------------------------------------------------------------------
  // Lifetime of a slot across ticks

  /** A slot after the sweeps of `n` consecutive ticks, the first at tick `from`. */
  function SweptOver(s: IgnoreSlot, from: int, n: nat): (r: IgnoreSlot)
    decreases n
  {
    if n == 0 then s else SweptOver(SweepSlot(s, from), from + 1, n - 1)
  }

  lemma {:induction false} EmptyStaysEmpty(from: int, n: nat)
    ensures SweptOver(EmptySlot, from, n) == EmptySlot
    decreases n
  {
    if n > 0 {
      EmptyStaysEmpty(from + 1, n - 1);
    }
  }

  /**
   * A non-empty slot not yet due at `from` stays as it is while its age stays
   * within 15 ticks, and is emptied for good by the first sweep past that.
   */
  lemma {:induction false} SlotLifetime(s: IgnoreSlot, from: int, n: nat)
    requires s.entityID != 0 && from - 1 - s.lastActive <= IgnoreExpiry
    ensures from + n - 1 - s.lastActive <= IgnoreExpiry ==> SweptOver(s, from, n) == s
    ensures from + n - 1 - s.lastActive > IgnoreExpiry ==> SweptOver(s, from, n) == EmptySlot
    decreases n
  {
    if n > 0 {
      if from - s.lastActive <= IgnoreExpiry {
        SlotLifetime(s, from + 1, n - 1);
      } else {
        EmptyStaysEmpty(from + 1, n - 1);
      }
    }
  }

  /**
   * Drop-through window. A platform written into a slot at tick t (by the
   * oldest-slot takeover) is still in the list that the platform system sees at
   * a later tick u, after the sweeps of ticks t..u-1, exactly when u <= t + 16:
   * the sweep runs after the platform system in every tick.
   */
  lemma DropThroughWindow(platform: EntityRef, t: int, u: int)
    requires platform.id != 0 && u > t
    ensures PlatformCollision.Matches(SweptOver(IgnoreSlot(platform.id, platform.recycled, t), t, u - t), platform)
      <==> u <= t + IgnoreExpiry + 1
  {
    SlotLifetime(IgnoreSlot(platform.id, platform.recycled, t), t, u - t);
  }
}
