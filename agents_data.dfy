/** The agent registry of `agents_data.py`: parallel arrays of positions, species and ids
    whose active agents fill the prefix `[0, count)`, ids drawn from a LIFO free list
    before a counter, and removal by swapping the last active slot into the hole. */
module AgentsRegistry {
  import opened Common
  import opened Geometry

  /** The registry's state as a value: capacity, the three arrays, the counters and the
      free list (whose end is the top of the stack). */
  datatype Registry = Registry(cap: nat, positions: seq<Vec2>, species: seq<int>, ids: seq<int>,
                               count: nat, nextId: nat, free: seq<int>)

  /** The arrays have the capacity's length and the count is within it. */
  ghost predicate Shaped(r: Registry)
  {
    |r.positions| == r.cap && |r.species| == r.cap && |r.ids| == r.cap && r.count <= r.cap
  }

  /** The ids of the active agents. */
  function Active(r: Registry): seq<int>
    requires Shaped(r)
  {
    r.ids[..r.count]
  }

  ghost predicate Distinct(s: seq<int>)
  {
    forall a, b :: 0 <= a < b < |s| ==> s[a] != s[b]
  }

  /** The registry invariant: active ids are distinct, the free list is distinct and
      disjoint from them, every id handed out so far is either active or free, nothing
      beyond `next_id` has been handed out, and every slot past the count is cleared. */
  ghost predicate Inv(r: Registry)
  {
    && Shaped(r)
    && Distinct(Active(r))
    && Distinct(r.free)
    && (forall k :: 0 <= k < r.count ==> 0 <= r.ids[k] < r.nextId && r.ids[k] !in r.free)
    && (forall t :: 0 <= t < |r.free| ==> 0 <= r.free[t] < r.nextId)
    && (forall x :: 0 <= x < r.nextId ==> x in Active(r) || x in r.free)
    && (forall k :: r.count <= k < r.cap ==> r.positions[k] == Zero && r.species[k] == 0 && r.ids[k] == -1)
  }

  /** The freshly constructed registry: zero positions, species 0, ids -1. */
  function Initial(cap: nat): (r: Registry)
    ensures Inv(r) && r.count == 0
  {
    Registry(cap, seq(cap, _ => Zero), seq(cap, _ => 0), seq(cap, _ => -1), 0, 0, [])
  }

  /** `_add_agent_internal`: at capacity nothing changes and the result is None;
      otherwise the id is the most recently freed one, or `next_id` (which then
      advances) when the free list is empty, and it is written with the species and
      position into slot `count`, which grows by one; no other slot changes. */
  function Added(r: Registry, species: int, position: Vec2): (res: (Registry, Option<int>))
    requires Shaped(r)
    ensures Shaped(res.0) && res.0.cap == r.cap
    ensures r.count >= r.cap ==> res == (r, None)
    ensures r.count < r.cap ==>
              && res.1 == Some(if |r.free| > 0 then r.free[|r.free| - 1] else r.nextId)
              && res.0.free == (if |r.free| > 0 then r.free[..|r.free| - 1] else r.free)
              && res.0.nextId == (if |r.free| > 0 then r.nextId else r.nextId + 1)
              && res.0.count == r.count + 1
              && res.0.positions[r.count] == position && res.0.species[r.count] == species
              && res.0.ids[r.count] == res.1.value
              && (forall k :: 0 <= k < r.cap && k != r.count ==>
                    res.0.positions[k] == r.positions[k] && res.0.species[k] == r.species[k] && res.0.ids[k] == r.ids[k])
  {
    if r.count < r.cap then
      var (agentId, free, nextId) :=
        if |r.free| > 0 then (r.free[|r.free| - 1], r.free[..|r.free| - 1], r.nextId)
        else (r.nextId as int, r.free, r.nextId + 1);
      var index := r.count;
      (r.(positions := r.positions[index := position], species := r.species[index := species],
          ids := r.ids[index := agentId], count := r.count + 1, nextId := nextId, free := free),
       Some(agentId))
    else (r, None)
  }

  /** `remove_agent`: the first active slot holding `id` receives the last active slot,
      the last active slot is cleared, the count drops by one and the id is pushed onto
      the free list; an id that is not active changes nothing. */
  function Removed(r: Registry, id: int): (res: (Registry, bool))
    requires Shaped(r)
    ensures Shaped(res.0) && res.0.cap == r.cap
    ensures res.1 <==> id in Active(r)
    ensures !res.1 ==> res.0 == r
    ensures res.1 ==>
              var index := FirstIndexOf(Active(r), id);
              var last := r.count - 1;
              && res.0.count == last
              && res.0.free == r.free + [id]
              && res.0.nextId == r.nextId
              && (index != last ==>
                    res.0.positions[index] == r.positions[last] && res.0.species[index] == r.species[last]
                    && res.0.ids[index] == r.ids[last])
              && res.0.positions[last] == Zero && res.0.species[last] == 0 && res.0.ids[last] == -1
              && (forall k :: 0 <= k < r.cap && k != index && k != last ==>
                    res.0.positions[k] == r.positions[k] && res.0.species[k] == r.species[k] && res.0.ids[k] == r.ids[k])
  {
    var index := FirstIndexOf(Active(r), id);
    if index == -1 then (r, false)
    else
      // when the hole is the last slot the copy is overwritten by the clearing
      var last := r.count - 1;
      (r.(positions := r.positions[index := r.positions[last]][last := Zero],
          species := r.species[index := r.species[last]][last := 0],
          ids := r.ids[index := r.ids[last]][last := -1],
          count := last, free := r.free + [id]),
       true)
  }

  /** `Removed` of an active id, unfolded at its slot. */
  lemma RemovedAt(r: Registry, id: int, index: int)
    requires Shaped(r) && index == FirstIndexOf(Active(r), id) && index != -1
    ensures var last := r.count - 1;
            Removed(r, id)
            == (r.(positions := r.positions[index := r.positions[last]][last := Zero],
                   species := r.species[index := r.species[last]][last := 0],
                   ids := r.ids[index := r.ids[last]][last := -1],
                   count := last, free := r.free + [id]),
                true)
  {
  }

  /** `RemovedAt` with the three moved tables given by name. */
  lemma RemovedFrom(r: Registry, id: int, index: int, p: seq<Vec2>, sp: seq<int>, ids: seq<int>)
    requires Shaped(r) && index == FirstIndexOf(Active(r), id) && index != -1
    requires p == r.positions[index := r.positions[r.count - 1]][r.count - 1 := Zero]
    requires sp == r.species[index := r.species[r.count - 1]][r.count - 1 := 0]
    requires ids == r.ids[index := r.ids[r.count - 1]][r.count - 1 := -1]
    ensures Removed(r, id) == (Registry(r.cap, p, sp, ids, r.count - 1, r.nextId, r.free + [id]), true)
  {
    RemovedAt(r, id, index);
  }

  /** What the physics side sends back: positions for the active prefix and its count. */
  datatype Snapshot = Snapshot(positions: seq<Vec2>, count: nat)

  /** The state effect of `update_from_box2d`: no snapshot waiting gives false and no
      change; a snapshot whose positions neither match the active prefix nor broadcast
      from a single row raises ValueError before anything is written; otherwise the
      active positions are overwritten and the count is taken from the snapshot. */
  function Synced(r: Registry, data: Option<Snapshot>): (res: Result<(Registry, bool)>)
    requires Shaped(r)
    requires data.Some? ==> data.value.count <= r.cap
    ensures data.None? ==> res == Ok((r, false))
    ensures data.Some? ==> (res.Ok? <==> |data.value.positions| == r.count || |data.value.positions| == 1)
    ensures res.Err? ==> res.error == ValueError
    ensures res.Ok? && data.Some? ==>
              && res.value.1
              && Shaped(res.value.0)
              && res.value.0.count == data.value.count
              && res.value.0.ids == r.ids && res.value.0.species == r.species && res.value.0.free == r.free
              && res.value.0.nextId == r.nextId
              && res.value.0.positions[r.count..] == r.positions[r.count..]
    ensures res.Ok? && data.Some? ==>
              forall k :: 0 <= k < r.count ==>
                res.value.0.positions[k]
                == (if |data.value.positions| == r.count then data.value.positions[k] else data.value.positions[0])
  {
    if data.None? then Ok((r, false))
    else
      var d := data.value;
      if |d.positions| != r.count && |d.positions| != 1 then Err(ValueError)
      else
        var written := if |d.positions| == r.count then d.positions else seq(r.count, _ => d.positions[0]);
        Ok((r.(positions := written + r.positions[r.count..], count := d.count), true))
  }

  /** A sync keeps the registry invariant exactly when the snapshot's count is the
      registry's own: a larger count exposes cleared slots (id -1) as active, a smaller
      one leaves live ids in slots past the count. */
  lemma SyncedKeepsInvIff(r: Registry, data: Option<Snapshot>)
    requires Inv(r) && data.Some? && data.value.count <= r.cap
    requires |data.value.positions| == r.count || |data.value.positions| == 1
    ensures Synced(r, data).Ok?
    ensures Inv(Synced(r, data).value.0) <==> data.value.count == r.count
  {
    var r' := Synced(r, data).value.0;
    var c := data.value.count;
    if c == r.count {
      assert Active(r') == Active(r);
      forall k | r'.count <= k < r'.cap
        ensures r'.positions[k] == Zero
      {
        assert r'.positions[k] == r'.positions[r.count..][k - r.count];
      }
    } else if c > r.count {
      assert r'.ids[r.count] == -1;
    } else {
      assert r.ids[c] in Active(r);
      assert r'.ids[c] != -1;
    }
  }

  // ---------------------------------------------------------------------------
  // Invariant preservation

  lemma AddPreservesInv(r: Registry, species: int, position: Vec2)
    requires Inv(r)
    ensures Inv(Added(r, species, position).0)
  {
    if r.count < r.cap {
      if |r.free| > 0 {
        AddFromFreeKeepsInv(r, species, position);
      } else {
        AddFreshKeepsInv(r, species, position);
      }
    }
  }

  /** An add that reuses the most recently freed id keeps the invariant. */
  lemma AddFromFreeKeepsInv(r: Registry, species: int, position: Vec2)
    requires Inv(r) && r.count < r.cap && |r.free| > 0
    ensures Inv(Added(r, species, position).0)
  {
    var r' := Added(r, species, position).0;
    var id := Added(r, species, position).1.value;
    assert Active(r') == Active(r) + [id];
    assert id !in Active(r);
    PopKeepsEveryId(r, r', id);
    PopKeepsIdsLive(r, r', id);
  }

  /** An add that takes the next fresh id keeps the invariant. */
  lemma AddFreshKeepsInv(r: Registry, species: int, position: Vec2)
    requires Inv(r) && r.count < r.cap && |r.free| == 0
    ensures Inv(Added(r, species, position).0)
  {
    var r' := Added(r, species, position).0;
    var id := Added(r, species, position).1.value;
    assert Active(r') == Active(r) + [id];
    assert id !in Active(r);
  }

  /** The popped id leaves the free list, so no active id is free afterwards. */
  lemma PopKeepsIdsLive(r: Registry, r': Registry, id: int)
    requires Inv(r) && Shaped(r') && |r.free| > 0 && r.free == r'.free + [id]
    requires r'.count == r.count + 1 && r'.ids[r.count] == id
    requires forall k :: 0 <= k < r.count ==> r'.ids[k] == r.ids[k]
    ensures forall k :: 0 <= k < r'.count ==> r'.ids[k] !in r'.free
  {
    forall k | 0 <= k < r'.count
      ensures r'.ids[k] !in r'.free
    {
      if k < r.count {
        assert r.ids[k] !in r.free;
      } else {
        forall t | 0 <= t < |r'.free|
          ensures r'.free[t] != id
        {
          assert r.free[t] == r'.free[t] && r.free[|r.free| - 1] == id;
        }
      }
    }
  }

  /** Popping the top of the free list onto the active ids loses no id handed out. */
  lemma PopKeepsEveryId(r: Registry, r': Registry, id: int)
    requires Inv(r) && Shaped(r') && |r.free| > 0 && r.free == r'.free + [id]
    requires r'.nextId == r.nextId && Active(r') == Active(r) + [id]
    ensures forall x :: 0 <= x < r'.nextId ==> x in Active(r') || x in r'.free
  {
    forall x | 0 <= x < r'.nextId
      ensures x in Active(r') || x in r'.free
    {
      if x !in Active(r) && x != id {
        assert x in r.free;
        var t :| 0 <= t < |r.free| && r.free[t] == x;
        assert t < |r'.free| && r'.free[t] == x;
      }
    }
  }

  /** Where the active slot `k` of a registry after `Removed` took its id from. */
  lemma RemovedActive(r: Registry, id: int)
    requires Shaped(r) && id in Active(r)
    ensures var index := FirstIndexOf(Active(r), id);
            var last := r.count - 1;
            var a' := Active(Removed(r, id).0);
            && |a'| == last
            && forall k :: 0 <= k < last ==> a'[k] == r.ids[if k == index then last else k]
  {
  }

  lemma RemovePreservesInv(r: Registry, id: int)
    requires Inv(r)
    ensures Inv(Removed(r, id).0)
  {
    if id in Active(r) {
      RemovedStaysDistinct(r, id);
      RemovedKeepsIdsLive(r, id);
      RemovedKeepsEveryId(r, id);
      RemovedFreeList(r, id);
      RemovedClearsTail(r, id);
    }
  }

  /** The removed id joins the free list, which stays distinct and below `next_id`. */
  lemma RemovedFreeList(r: Registry, id: int)
    requires Inv(r) && id in Active(r)
    ensures var r' := Removed(r, id).0;
            Distinct(r'.free) && forall t :: 0 <= t < |r'.free| ==> 0 <= r'.free[t] < r'.nextId
  {
    var index := FirstIndexOf(Active(r), id);
    assert r.ids[index] == id;
    DistinctPush(r.free, id);
  }

  /** Every slot past the new count is cleared. */
  lemma RemovedClearsTail(r: Registry, id: int)
    requires Inv(r) && id in Active(r)
    ensures var r' := Removed(r, id).0;
            forall k :: r'.count <= k < r'.cap ==> r'.positions[k] == Zero && r'.species[k] == 0 && r'.ids[k] == -1
  {
  }

  lemma DistinctPush(s: seq<int>, x: int)
    requires Distinct(s) && x !in s
    ensures Distinct(s + [x])
  {
  }

  lemma RemovedStaysDistinct(r: Registry, id: int)
    requires Inv(r) && id in Active(r)
    ensures Distinct(Active(Removed(r, id).0))
  {
    var a' := Active(Removed(r, id).0);
    var index := FirstIndexOf(Active(r), id);
    var last := r.count - 1;
    RemovedActive(r, id);
    forall i, j | 0 <= i < j < |a'|
      ensures a'[i] != a'[j]
    {
      var si := if i == index then last else i;
      var sj := if j == index then last else j;
      assert Active(r)[si] != Active(r)[sj];
    }
  }

  lemma RemovedKeepsIdsLive(r: Registry, id: int)
    requires Inv(r) && id in Active(r)
    ensures var r' := Removed(r, id).0;
            forall k :: 0 <= k < r'.count ==> 0 <= r'.ids[k] < r'.nextId && r'.ids[k] !in r'.free
  {
    var r' := Removed(r, id).0;
    var index := FirstIndexOf(Active(r), id);
    var last := r.count - 1;
    RemovedActive(r, id);
    forall k | 0 <= k < r'.count
      ensures 0 <= r'.ids[k] < r'.nextId && r'.ids[k] !in r'.free
    {
      var j := if k == index then last else k;
      assert Active(r')[k] == r.ids[j];
      assert Active(r)[j] != Active(r)[index];
    }
  }

  lemma RemovedKeepsEveryId(r: Registry, id: int)
    requires Inv(r) && id in Active(r)
    ensures var r' := Removed(r, id).0;
            forall x :: 0 <= x < r'.nextId ==> x in Active(r') || x in r'.free
  {
    var r' := Removed(r, id).0;
    var index := FirstIndexOf(Active(r), id);
    var last := r.count - 1;
    RemovedActive(r, id);
    forall x | 0 <= x < r'.nextId
      ensures x in Active(r') || x in r'.free
    {
      if x != id && x in Active(r) {
        var k :| 0 <= k < r.count && Active(r)[k] == x;
        if k == last {
          assert Active(r')[index] == x;
        } else {
          assert Active(r')[k] == x;
        }
      } else if x != id {
        assert x in r.free;
      }
    }
  }

  // ---------------------------------------------------------------------------
  // Round trip and queries

  /** Removing the agent just added gives back the active prefix, the arrays and the
      count; the id returns to the free list, so when it came from there the whole
      registry is restored. */
  lemma AddThenRemove(r: Registry, species: int, position: Vec2)
    requires Inv(r) && r.count < r.cap
    ensures var (r1, id) := Added(r, species, position);
            var r2 := Removed(r1, id.value).0;
            && r2.positions == r.positions && r2.species == r.species && r2.ids == r.ids && r2.count == r.count
            && (|r.free| > 0 ==> r2 == r)
  {
    var (r1, id) := Added(r, species, position);
    var c := r.count;
    AddedLandsLast(r, species, position);
    assert r1.positions == r.positions[c := position] && r1.species == r.species[c := species]
        && r1.ids == r.ids[c := id.value];
    RestoreSlot(r.positions, c, position, Zero);
    RestoreSlot(r.species, c, species, 0);
    RestoreSlot(r.ids, c, id.value, -1);
    RemovedFrom(r1, id.value, c, r.positions, r.species, r.ids);
    if |r.free| > 0 {
      assert r1.free + [id.value] == r.free;
    }
  }

  /** The id an add hands out was not active before and is found in the new last slot. */
  lemma AddedLandsLast(r: Registry, species: int, position: Vec2)
    requires Inv(r) && r.count < r.cap
    ensures var (r1, id) := Added(r, species, position);
            id.Some? && id.value !in Active(r) && FirstIndexOf(Active(r1), id.value) == r.count
  {
    var (r1, id) := Added(r, species, position);
    assert id.value !in Active(r);
    assert Active(r1) == Active(r) + [id.value];
  }

  /** Writing a slot that held `blank`, copying it onto itself and clearing it back to
      `blank` restores the sequence. */
  lemma RestoreSlot<T>(s: seq<T>, c: nat, v: T, blank: T)
    requires c < |s| && s[c] == blank
    ensures s[c := v][c := s[c := v][c]][c := blank] == s
  {
  }

  /** After a removal the active ids are the old ones minus the removed id. */
  lemma RemoveDropsOnlyThatId(r: Registry, id: int)
    requires Shaped(r) && id in Active(r)
    ensures multiset(Active(Removed(r, id).0)) == multiset(Active(r)) - multiset{id}
  {
    RemovedActive(r, id);
    SwapRemoveMultiset(Active(r), Active(Removed(r, id).0), FirstIndexOf(Active(r), id));
  }

  /** Filling slot `index` with the last element and dropping the last removes exactly
      one occurrence of the element that was at `index`. */
  lemma SwapRemoveMultiset(a: seq<int>, a': seq<int>, index: nat)
    requires index < |a| && |a'| == |a| - 1
    requires forall k :: 0 <= k < |a'| ==> a'[k] == a[if k == index then |a| - 1 else k]
    ensures multiset(a') == multiset(a) - multiset{a[index]}
  {
    var last := |a| - 1;
    if index == last {
      assert a == a' + [a[index]];
    } else {
      assert a' == a[..index] + [a[last]] + a[index + 1..last];
      assert a == a[..index] + [a[index]] + a[index + 1..last] + [a[last]];
    }
  }

  // ---------------------------------------------------------------------------
  // The scenario of the registry's own test (capacity 10)

  /** Five adds from empty, removal of ids 2 and 4, three more adds: the ids handed out
      are 4, then 2, then the new id 5; of five further adds four succeed and the fifth
      finds the registry full. */
  lemma CapacityTenScenario()
    ensures var r0 := Initial(10);
            var (r1, a0) := Added(r0, 0, Vec2(0.0, 0.0));
            var (r2, a1) := Added(r1, 1, Vec2(10.0, 10.0));
            var (r3, a2) := Added(r2, 2, Vec2(20.0, 20.0));
            var (r4, a3) := Added(r3, 0, Vec2(30.0, 30.0));
            var (r5, a4) := Added(r4, 1, Vec2(40.0, 40.0));
            var r6 := Removed(r5, 2).0;
            var r7 := Removed(r6, 4).0;
            var (r8, b0) := Added(r7, 0, Vec2(0.0, 0.0));
            var (r9, b1) := Added(r8, 1, Vec2(20.0, 20.0));
            var (r10, b2) := Added(r9, 0, Vec2(40.0, 40.0));
            var (r11, c0) := Added(r10, 0, Zero);
            var (r12, c1) := Added(r11, 0, Zero);
            var (r13, c2) := Added(r12, 0, Zero);
            var (r14, c3) := Added(r13, 0, Zero);
            var (r15, c4) := Added(r14, 0, Zero);
            && [a0, a1, a2, a3, a4] == [Some(0), Some(1), Some(2), Some(3), Some(4)]
            && Active(r7) == [0, 1, 3]
            && [b0, b1, b2] == [Some(4), Some(2), Some(5)]
            && c0.Some? && c1.Some? && c2.Some? && c3.Some? && c4 == None
            && r15.count == 10
  {
    var r0 := Initial(10);
    var (r1, a0) := Added(r0, 0, Vec2(0.0, 0.0));
    var (r2, a1) := Added(r1, 1, Vec2(10.0, 10.0));
    var (r3, a2) := Added(r2, 2, Vec2(20.0, 20.0));
    var (r4, a3) := Added(r3, 0, Vec2(30.0, 30.0));
    var (r5, a4) := Added(r4, 1, Vec2(40.0, 40.0));
    FiveAddsFromEmpty();
    var r6 := Removed(r5, 2).0;
    var r7 := Removed(r6, 4).0;
    RemoveTwoAndFour(r5);
    var (r8, b0) := Added(r7, 0, Vec2(0.0, 0.0));
    var (r9, b1) := Added(r8, 1, Vec2(20.0, 20.0));
    var (r10, b2) := Added(r9, 0, Vec2(40.0, 40.0));
    ReuseThenFresh(r7);
    FillToCapacity(r10);
  }

  lemma FiveAddsFromEmpty()
    ensures var (r1, a0) := Added(Initial(10), 0, Vec2(0.0, 0.0));
            var (r2, a1) := Added(r1, 1, Vec2(10.0, 10.0));
            var (r3, a2) := Added(r2, 2, Vec2(20.0, 20.0));
            var (r4, a3) := Added(r3, 0, Vec2(30.0, 30.0));
            var (r5, a4) := Added(r4, 1, Vec2(40.0, 40.0));
            && [a0, a1, a2, a3, a4] == [Some(0), Some(1), Some(2), Some(3), Some(4)]
            && Shaped(r5) && r5.cap == 10 && r5.count == 5 && r5.free == [] && r5.nextId == 5
            && Active(r5) == [0, 1, 2, 3, 4]
  {
    var (r1, a0) := Added(Initial(10), 0, Vec2(0.0, 0.0));
    var (r2, a1) := Added(r1, 1, Vec2(10.0, 10.0));
    var (r3, a2) := Added(r2, 2, Vec2(20.0, 20.0));
    var (r4, a3) := Added(r3, 0, Vec2(30.0, 30.0));
    var (r5, a4) := Added(r4, 1, Vec2(40.0, 40.0));
    assert Active(r1) == [0];
    assert Active(r2) == [0, 1];
    assert Active(r3) == [0, 1, 2];
    assert Active(r4) == [0, 1, 2, 3];
    assert Active(r5) == [0, 1, 2, 3, 4];
  }

  lemma RemoveTwoAndFour(r5: Registry)
    requires Shaped(r5) && r5.cap == 10 && r5.count == 5 && r5.free == [] && r5.nextId == 5
    requires Active(r5) == [0, 1, 2, 3, 4]
    ensures var r7 := Removed(Removed(r5, 2).0, 4).0;
            Shaped(r7) && r7.cap == 10 && r7.count == 3 && r7.free == [2, 4] && r7.nextId == 5
            && Active(r7) == [0, 1, 3]
  {
    RemoveTwo(r5);
    RemoveFour(Removed(r5, 2).0);
  }

  lemma RemoveTwo(r5: Registry)
    requires Shaped(r5) && r5.cap == 10 && r5.count == 5 && r5.free == [] && r5.nextId == 5
    requires Active(r5) == [0, 1, 2, 3, 4]
    ensures var r6 := Removed(r5, 2).0;
            Shaped(r6) && r6.cap == 10 && r6.count == 4 && r6.free == [2] && r6.nextId == 5
            && Active(r6) == [0, 1, 4, 3]
  {
    var a := Active(r5);
    assert FirstIndexOf(a, 2) == 2;
    RemovedActive(r5, 2);
    var a' := Active(Removed(r5, 2).0);
    assert r5.ids[3] == a[3] == 3 && r5.ids[4] == a[4] == 4;
    assert a'[2] == r5.ids[4] && a'[3] == r5.ids[3];
    assert a'[0] == 0 && a'[1] == 1 && a'[2] == 4 && a'[3] == 3;
    assert |a'| == 4;
    assert a' == [a'[0], a'[1], a'[2], a'[3]];
  }

  lemma RemoveFour(r6: Registry)
    requires Shaped(r6) && r6.cap == 10 && r6.count == 4 && r6.free == [2] && r6.nextId == 5
    requires Active(r6) == [0, 1, 4, 3]
    ensures var r7 := Removed(r6, 4).0;
            Shaped(r7) && r7.cap == 10 && r7.count == 3 && r7.free == [2, 4] && r7.nextId == 5
            && Active(r7) == [0, 1, 3]
  {
    var a := Active(r6);
    assert FirstIndexOf(a, 4) == 2;
    RemovedActive(r6, 4);
    var a' := Active(Removed(r6, 4).0);
    assert a'[0] == 0 && a'[1] == 1 && a'[2] == 3;
    assert |a'| == 3;
    assert a' == [a'[0], a'[1], a'[2]];
  }

  lemma ReuseThenFresh(r7: Registry)
    requires Shaped(r7) && r7.cap == 10 && r7.count == 3 && r7.free == [2, 4] && r7.nextId == 5
    ensures var (r8, b0) := Added(r7, 0, Vec2(0.0, 0.0));
            var (r9, b1) := Added(r8, 1, Vec2(20.0, 20.0));
            var (r10, b2) := Added(r9, 0, Vec2(40.0, 40.0));
            [b0, b1, b2] == [Some(4), Some(2), Some(5)] && Shaped(r10) && r10.cap == 10 && r10.count == 6
  {
  }

  lemma FillToCapacity(r10: Registry)
    requires Shaped(r10) && r10.cap == 10 && r10.count == 6
    ensures var (r11, c0) := Added(r10, 0, Zero);
            var (r12, c1) := Added(r11, 0, Zero);
            var (r13, c2) := Added(r12, 0, Zero);
            var (r14, c3) := Added(r13, 0, Zero);
            var (r15, c4) := Added(r14, 0, Zero);
            c0.Some? && c1.Some? && c2.Some? && c3.Some? && c4 == None && r15.count == 10
  {
  }

  // ---------------------------------------------------------------------------
  // The class

  /** What the registry announces to the physics and visual queues. */
  datatype Notification = AgentAdded(id: int, species: int, position: Vec2) | AgentRemoved(id: int)

  /** The swap-remove on one array: slot `last` is copied into the hole when they differ,
      then cleared to `blank`. */
  method MoveLastInto<T>(a: array<T>, index: nat, last: nat, blank: T)
    requires index <= last < a.Length
    modifies a
    ensures a[..] == old(a[..])[index := old(a[last])][last := blank]
  {
    if index != last {
      a[index] := a[last];
    }
    a[last] := blank;
  }

  class AgentsData {
    const maxAgentsNum: nat
    const positions: array<Vec2>
    const species: array<int>
    const agentIds: array<int>
    var currentAgentCount: nat
    var nextId: nat
    var availableIds: seq<int>
    /** The messages put on the outgoing queues, in order. */
    var notifications: seq<Notification>

    ghost predicate Valid()
      reads this
    {
      positions.Length == maxAgentsNum && species.Length == maxAgentsNum && agentIds.Length == maxAgentsNum
      && species != agentIds && currentAgentCount <= maxAgentsNum
    }

    ghost function State(): Registry
      reads this, positions, species, agentIds
    {
      Registry(maxAgentsNum, positions[..], species[..], agentIds[..], currentAgentCount, nextId, availableIds)
    }

    constructor(maxAgentsNum: nat)
      ensures Valid() && State() == Initial(maxAgentsNum) && notifications == []
    {
      this.maxAgentsNum := maxAgentsNum;
      positions := new Vec2[maxAgentsNum](_ => Zero);
      species := new int[maxAgentsNum](_ => 0);
      agentIds := new int[maxAgentsNum](_ => -1);
      currentAgentCount := 0;
      nextId := 0;
      availableIds := [];
      notifications := [];
    }

    /** `_add_agent_internal` (also `add_agent_no_notify`). */
    method AddAgentInternal(sp: int, position: Vec2) returns (agentId: Option<int>)
      requires Valid()
      modifies this, positions, species, agentIds
      ensures Valid() && notifications == old(notifications)
      ensures (State(), agentId) == Added(old(State()), sp, position)
    {
      if currentAgentCount < maxAgentsNum {
        var id: int;
        if |availableIds| > 0 {
          id := availableIds[|availableIds| - 1];
          availableIds := availableIds[..|availableIds| - 1];
        } else {
          id := nextId;
          nextId := nextId + 1;
        }
        var index := currentAgentCount;
        positions[index] := position;
        species[index] := sp;
        agentIds[index] := id;
        currentAgentCount := currentAgentCount + 1;
        return Some(id);
      }
      return None;
    }

    /** `add_agent_no_notify`: the internal add and nothing else. */
    method AddAgentNoNotify(sp: int, position: Vec2) returns (agentId: Option<int>)
      requires Valid()
      modifies this, positions, species, agentIds
      ensures Valid() && notifications == old(notifications)
      ensures (State(), agentId) == Added(old(State()), sp, position)
    {
      agentId := AddAgentInternal(sp, position);
    }

    /** `add_agent`: the internal add, then one notification when it succeeded. */
    method AddAgent(sp: int, position: Vec2) returns (agentId: Option<int>)
      requires Valid()
      modifies this, positions, species, agentIds
      ensures Valid()
      ensures (State(), agentId) == Added(old(State()), sp, position)
      ensures notifications == old(notifications) + (if agentId.Some? then [AgentAdded(agentId.value, sp, position)] else [])
    {
      agentId := AddAgentInternal(sp, position);
      if agentId.Some? {
        notifications := notifications + [AgentAdded(agentId.value, sp, position)];
      }
    }

    /** `remove_agent`. */
    method RemoveAgent(agentId: int)
      requires Valid()
      modifies this, positions, species, agentIds
      ensures Valid()
      ensures State() == Removed(old(State()), agentId).0
      ensures notifications == old(notifications) + (if Removed(old(State()), agentId).1 then [AgentRemoved(agentId)] else [])
    {
      ghost var r := State();
      var index := FirstIndexOf(agentIds[..currentAgentCount], agentId);
      assert index == FirstIndexOf(Active(r), agentId);
      if index != -1 {
        var lastIndex := currentAgentCount - 1;
        MoveLastInto(positions, index, lastIndex, Zero);
        ghost var p := positions[..];
        MoveLastInto(species, index, lastIndex, 0);
        ghost var sp := species[..];
        MoveLastInto(agentIds, index, lastIndex, -1);
        assert positions[..] == p && species[..] == sp;
        currentAgentCount := currentAgentCount - 1;
        availableIds := availableIds + [agentId];
        notifications := notifications + [AgentRemoved(agentId)];
        RemovedFrom(r, agentId, index, p, sp, agentIds[..]);
      } else {
        assert Removed(r, agentId) == (r, false);
      }
    }

    /** `update_from_box2d`, with the queue read passed in as `data`. */
    method UpdateFromBox2d(data: Option<Snapshot>) returns (res: Result<bool>)
      requires Valid()
      requires data.Some? ==> data.value.count <= maxAgentsNum
      modifies this, positions
      ensures Valid() && notifications == old(notifications)
      ensures var spec := Synced(old(State()), data);
              && (spec.Err? ==> res == Err(spec.error) && State() == old(State()))
              && (spec.Ok? ==> res == Ok(spec.value.1) && State() == spec.value.0)
    {
      if data.None? {
        return Ok(false);
      }
      var d := data.value;
      if |d.positions| != currentAgentCount && |d.positions| != 1 {
        return Err(ValueError);
      }
      var n := currentAgentCount;
      ghost var before := positions[..];
      ghost var written := if |d.positions| == n then d.positions else seq(n, _ => d.positions[0]);
      for k := 0 to n
        modifies positions
        invariant forall j :: 0 <= j < k ==> positions[j] == written[j]
        invariant forall j :: k <= j < positions.Length ==> positions[j] == before[j]
      {
        positions[k] := if |d.positions| == n then d.positions[k] else d.positions[0];
      }
      assert positions[..] == written + before[n..];
      currentAgentCount := d.count;
      return Ok(true);
    }

    /** `available_agent_ids`: the ids of the active prefix, which are distinct while
        the registry invariant holds. */
    function AvailableAgentIds(): (ids: seq<int>)
      requires Valid()
      reads this, agentIds
      ensures |ids| == currentAgentCount
      ensures forall k :: 0 <= k < currentAgentCount ==> ids[k] == agentIds[k]
      ensures Inv(State()) ==> Distinct(ids)
    {
      agentIds[..currentAgentCount]
    }
  }
}
