/** The structured agent buffer of `sparse_agent_array2.py`: one record per slot, the
    active records filling `[0, count)`; batch add truncates at capacity, batch remove
    compacts the kept records in order, batch update replaces records by id. */
module SparseAgents {
  import opened Common
  import opened Geometry

  /** One element of the `agent_dtype` structured array. */
  datatype AgentRecord = AgentRecord(id: int, species: int, position: Vec2, velocity: Vec2, force: Vec2)

  function Min(a: nat, b: nat): nat { if a < b then a else b }

  // ---------------------------------------------------------------------------
  // Batch add

  /** `add_agents_batch` on the buffer's contents: the new count is `min(count + k,
      capacity)`, the first `new - count` incoming records fill the slots after the active
      prefix in list order, and every other slot keeps its record. */
  function AddedBatch(agents: seq<AgentRecord>, count: nat, incoming: seq<AgentRecord>): (res: (seq<AgentRecord>, nat))
    requires count <= |agents|
    ensures res.1 == Min(count + |incoming|, |agents|) && res.1 <= |agents|
    ensures |res.0| == |agents|
    ensures res.0[..count] == agents[..count]
    ensures res.0[count..res.1] == incoming[..res.1 - count]
    ensures res.0[res.1..] == agents[res.1..]
  {
    var newCount := Min(count + |incoming|, |agents|);
    (agents[..count] + incoming[..newCount - count] + agents[newCount..], newCount)
  }

  /** Reading all agents after a batch add gives the old agents followed by the incoming
      records that fitted; with room for all of them, by every incoming record. */
  lemma AddThenGetAll(agents: seq<AgentRecord>, count: nat, incoming: seq<AgentRecord>)
    requires count <= |agents|
    ensures var (agents', count') := AddedBatch(agents, count, incoming);
            && agents'[..count'] == agents[..count] + incoming[..count' - count]
            && (count + |incoming| <= |agents| ==> agents'[..count'] == agents[..count] + incoming)
  {
    var (agents', count') := AddedBatch(agents, count, incoming);
    assert agents'[..count'] == agents'[..count] + agents'[count..count'];
  }

  // ---------------------------------------------------------------------------
  // Batch remove

  /** The records whose id is not listed, in their original order. */
  function Kept(records: seq<AgentRecord>, ids: seq<int>): (r: seq<AgentRecord>)
    ensures |r| <= |records|
    ensures forall t :: 0 <= t < |r| ==> r[t] in records && r[t].id !in ids
    ensures forall x :: x in records && x.id !in ids ==> x in r
  {
    if |records| == 0 then []
    else
      var rest := Kept(records[..|records| - 1], ids);
      var x := records[|records| - 1];
      assert forall y :: y in records ==> y in records[..|records| - 1] || y == x;
      rest + (if x.id in ids then [] else [x])
  }

  /** Keeping is order preserving in the sense that it distributes over concatenation. */
  lemma {:induction false} KeptAppend(a: seq<AgentRecord>, b: seq<AgentRecord>, ids: seq<int>)
    ensures Kept(a + b, ids) == Kept(a, ids) + Kept(b, ids)
  {
    if |b| == 0 {
      assert a + b == a;
    } else {
      var b0 := b[..|b| - 1];
      assert (a + b)[..|a + b| - 1] == a + b0;
      KeptAppend(a, b0, ids);
    }
  }

  /** With no listed id among the records, nothing is dropped. */
  lemma {:induction false} KeptNoMatch(records: seq<AgentRecord>, ids: seq<int>)
    requires forall t :: 0 <= t < |records| ==> records[t].id !in ids
    ensures Kept(records, ids) == records
  {
    if |records| > 0 {
      KeptNoMatch(records[..|records| - 1], ids);
    }
  }

  /** Dropping the same ids a second time drops nothing more. */
  lemma {:induction false} KeptIdempotent(records: seq<AgentRecord>, ids: seq<int>)
    ensures Kept(Kept(records, ids), ids) == Kept(records, ids)
  {
    var r := Kept(records, ids);
    KeptNoMatch(r, ids);
  }

  /** `remove_agents_batch` on the buffer's contents: the kept records move to the front in
      order, the count becomes their number, and slots from there on keep their old
      records (the tail of the old prefix is left stale). */
  function RemovedBatch(agents: seq<AgentRecord>, count: nat, ids: seq<int>): (res: (seq<AgentRecord>, nat))
    requires count <= |agents|
    ensures res.1 == |Kept(agents[..count], ids)| && res.1 <= count
    ensures |res.0| == |agents|
    ensures res.0[..res.1] == Kept(agents[..count], ids)
    ensures res.0[res.1..] == agents[res.1..]
  {
    var kept := Kept(agents[..count], ids);
    (kept + agents[|kept|..], |kept|)
  }

  /** A batch remove naming no active id leaves the active records and the count as they
      were. */
  lemma RemoveNoMatch(agents: seq<AgentRecord>, count: nat, ids: seq<int>)
    requires count <= |agents|
    requires forall t :: 0 <= t < count ==> agents[t].id !in ids
    ensures RemovedBatch(agents, count, ids) == (agents, count)
  {
    KeptNoMatch(agents[..count], ids);
    assert agents[..count] + agents[count..] == agents;
  }

  /** Removing the same ids twice is the same as removing them once. */
  lemma RemoveTwice(agents: seq<AgentRecord>, count: nat, ids: seq<int>)
    requires count <= |agents|
    ensures var (a1, c1) := RemovedBatch(agents, count, ids);
            RemovedBatch(a1, c1, ids) == (a1, c1)
  {
    var (a1, c1) := RemovedBatch(agents, count, ids);
    forall t | 0 <= t < c1
      ensures a1[t].id !in ids
    {
      assert a1[t] == Kept(agents[..count], ids)[t];
    }
    RemoveNoMatch(a1, c1, ids);
  }

  // ---------------------------------------------------------------------------
  // Batch update

  /** The index that `{agent['id']: i for i, agent in enumerate(prefix)}` maps `id` to:
      the last slot holding it, or -1 when no slot does. */
  function LastIndexOf(prefix: seq<AgentRecord>, id: int): (k: int)
    ensures -1 <= k < |prefix|
    ensures k == -1 <==> forall t :: 0 <= t < |prefix| ==> prefix[t].id != id
    ensures 0 <= k ==> prefix[k].id == id && forall t :: k < t < |prefix| ==> prefix[t].id != id
  {
    if |prefix| == 0 then -1
    else if prefix[|prefix| - 1].id == id then |prefix| - 1
    else LastIndexOf(prefix[..|prefix| - 1], id)
  }

  /** The position of the last incoming record that the index sends to slot `k`, or -1
      when none does: the record that the in-order writes leave in that slot. */
  function LastWriter(prefix: seq<AgentRecord>, incoming: seq<AgentRecord>, k: int): (t: int)
    ensures -1 <= t < |incoming|
    ensures t == -1 <==> forall u :: 0 <= u < |incoming| ==> LastIndexOf(prefix, incoming[u].id) != k
    ensures 0 <= t ==>
              && LastIndexOf(prefix, incoming[t].id) == k
              && forall u :: t < u < |incoming| ==> LastIndexOf(prefix, incoming[u].id) != k
  {
    if |incoming| == 0 then -1
    else if LastIndexOf(prefix, incoming[|incoming| - 1].id) == k then |incoming| - 1
    else LastWriter(prefix, incoming[..|incoming| - 1], k)
  }

  /** The incoming records applied in order through the index built from `prefix`; an
      incoming id absent from the index is ignored. */
  function AppliedUpdates(agents: seq<AgentRecord>, prefix: seq<AgentRecord>, incoming: seq<AgentRecord>): (r: seq<AgentRecord>)
    requires |prefix| <= |agents|
    ensures |r| == |agents|
    ensures forall k :: 0 <= k < |r| ==>
              r[k] == agents[k] || (k < |prefix| && r[k] in incoming && r[k].id == prefix[k].id)
    ensures forall k :: 0 <= k < |r| ==>
              var t := LastWriter(prefix, incoming, k);
              r[k] == if t == -1 then agents[k] else incoming[t]
  {
    if |incoming| == 0 then agents
    else
      var before := incoming[..|incoming| - 1];
      var r := AppliedUpdates(agents, prefix, before);
      var x := incoming[|incoming| - 1];
      var k := LastIndexOf(prefix, x.id);
      if k == -1 then r else r[k := x]
  }

  /** After a batch update every active slot still holds a record with the id it had. */
  lemma UpdateKeepsIds(agents: seq<AgentRecord>, count: nat, incoming: seq<AgentRecord>)
    requires count <= |agents|
    ensures var r := AppliedUpdates(agents, agents[..count], incoming);
            forall k :: 0 <= k < count ==> r[k].id == agents[k].id
  {
  }

  /** An update carrying a single known id replaces exactly the last slot that holds it. */
  lemma UpdateOneKnownId(agents: seq<AgentRecord>, count: nat, x: AgentRecord)
    requires count <= |agents|
    requires exists t :: 0 <= t < count && agents[t].id == x.id
    ensures var k := LastIndexOf(agents[..count], x.id);
            AppliedUpdates(agents, agents[..count], [x]) == agents[k := x]
  {
    var prefix := agents[..count];
    assert [x][..0] == [];
    assert AppliedUpdates(agents, prefix, []) == agents;
    var t :| 0 <= t < count && agents[t].id == x.id;
    assert prefix[t].id == x.id;
  }

  // ---------------------------------------------------------------------------
  // Positions and velocities

  /** `agents['position'][:count] = positions` then the same for velocities: each field
      assignment accepts one row per active agent or a single row to broadcast and raises
      ValueError otherwise; the velocity check comes after the positions were written. */
  function SetPositionsAndVelocities(agents: seq<AgentRecord>, count: nat, positions: seq<Vec2>, velocities: seq<Vec2>)
    : (res: (seq<AgentRecord>, Result<()>))
    requires count <= |agents|
    ensures |res.0| == |agents|
    ensures res.1.Err? <==> !Fits(positions, count) || !Fits(velocities, count)
    ensures !Fits(positions, count) ==> res.0 == agents
    ensures forall k :: 0 <= k < |agents| ==>
              && res.0[k].id == agents[k].id && res.0[k].species == agents[k].species
              && res.0[k].force == agents[k].force
    ensures forall k :: count <= k < |agents| ==> res.0[k] == agents[k]
    ensures Fits(positions, count) ==> forall k :: 0 <= k < count ==> res.0[k].position == Row(positions, k)
    ensures res.1.Ok? ==> forall k :: 0 <= k < count ==> res.0[k].velocity == Row(velocities, k)
    ensures Fits(positions, count) && !Fits(velocities, count) ==>
              forall k :: 0 <= k < count ==> res.0[k].velocity == agents[k].velocity
  {
    if !Fits(positions, count) then (agents, Err(ValueError))
    else
      var moved := WithPositions(agents, count, positions);
      if !Fits(velocities, count) then (moved, Err(ValueError))
      else (WithVelocities(moved, count, velocities), Ok(()))
  }

  function WithPositions(agents: seq<AgentRecord>, count: nat, positions: seq<Vec2>): (r: seq<AgentRecord>)
    requires count <= |agents| && Fits(positions, count)
  {
    seq(|agents|, k requires 0 <= k < |agents| =>
          if k < count then agents[k].(position := Row(positions, k)) else agents[k])
  }

  function WithVelocities(agents: seq<AgentRecord>, count: nat, velocities: seq<Vec2>): (r: seq<AgentRecord>)
    requires count <= |agents| && Fits(velocities, count)
  {
    seq(|agents|, k requires 0 <= k < |agents| =>
          if k < count then agents[k].(velocity := Row(velocities, k)) else agents[k])
  }

  /** A right-hand side of `rows` rows can be assigned to `count` rows by broadcasting. */
  predicate Fits(rows: seq<Vec2>, count: nat)
  {
    |rows| == count || |rows| == 1
  }

  /** The row assigned to slot `k`: the `k`-th, or the single broadcast row. */
  function Row(rows: seq<Vec2>, k: nat): Vec2
    requires |rows| == 1 || k < |rows|
  {
    if |rows| == 1 then rows[0] else rows[k]
  }

  // ---------------------------------------------------------------------------
  // The shared buffer

  class SharedAgents {
    const agents: array<AgentRecord>
    var count: nat

    ghost predicate Valid()
      reads this
    {
      count <= agents.Length
    }

    constructor(maxAgents: nat, blank: AgentRecord)
      ensures Valid() && count == 0 && agents.Length == maxAgents
    {
      agents := new AgentRecord[maxAgents](_ => blank);
      count := 0;
    }

    /** `add_agents_batch`. */
    method AddAgentsBatch(incoming: seq<AgentRecord>)
      requires Valid()
      modifies this, agents
      ensures Valid()
      ensures (agents[..], count) == AddedBatch(old(agents[..]), old(count), incoming)
    {
      var currentCount := count;
      var newCount := Min(currentCount + |incoming|, agents.Length);
      forall k | currentCount <= k < newCount {
        agents[k] := incoming[k - currentCount];
      }
      count := newCount;
      assert agents[..] == old(agents[..])[..currentCount] + incoming[..newCount - currentCount] + old(agents[..])[newCount..];
    }

    /** `remove_agents_batch`. */
    method RemoveAgentsBatch(ids: seq<int>)
      requires Valid()
      modifies this, agents
      ensures Valid()
      ensures (agents[..], count) == RemovedBatch(old(agents[..]), old(count), ids)
    {
      var kept := Kept(agents[..count], ids);
      forall t | 0 <= t < |kept| {
        agents[t] := kept[t];
      }
      count := |kept|;
      assert agents[..] == kept + old(agents[..])[|kept|..];
    }

    /** `update_agents_batch`: the index is built once from the active records, then the
        incoming records are applied in order. */
    method UpdateAgentsBatch(incoming: seq<AgentRecord>)
      requires Valid()
      modifies agents
      ensures agents[..] == AppliedUpdates(old(agents[..]), old(agents[..count]), incoming)
    {
      var prefix := agents[..count];
      for i := 0 to |incoming|
        invariant agents[..] == AppliedUpdates(old(agents[..]), prefix, incoming[..i])
      {
        var x := incoming[i];
        var k := LastIndexOf(prefix, x.id);
        if k != -1 {
          agents[k] := x;
        }
        assert incoming[..i + 1][..i] == incoming[..i];
      }
      assert incoming[..|incoming|] == incoming;
    }

    /** `get_all_agents`: a copy of the active records. */
    function GetAllAgents(): (all: seq<AgentRecord>)
      requires Valid()
      reads this, agents
      ensures |all| == count && forall k :: 0 <= k < count ==> all[k] == agents[k]
    {
      agents[..count]
    }

    /** `update_positions_and_velocities`. */
    method UpdatePositionsAndVelocities(positions: seq<Vec2>, velocities: seq<Vec2>) returns (res: Result<()>)
      requires Valid()
      modifies agents
      ensures (agents[..], res) == SetPositionsAndVelocities(old(agents[..]), count, positions, velocities)
    {
      if !Fits(positions, count) {
        return Err(ValueError);
      }
      forall k | 0 <= k < count {
        agents[k] := agents[k].(position := Row(positions, k));
      }
      assert agents[..] == WithPositions(old(agents[..]), count, positions);
      if !Fits(velocities, count) {
        return Err(ValueError);
      }
      ghost var moved := agents[..];
      forall k | 0 <= k < count {
        agents[k] := agents[k].(velocity := Row(velocities, k));
      }
      assert agents[..] == WithVelocities(moved, count, velocities);
      return Ok(());
    }
  }
}
