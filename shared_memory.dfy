/** The `SharedMemoryManager` of the multi-threading experiment: fixed arrays of positions,
    agent ids and an activity mask that are never compacted. Ids come from a counter and
    are never reused, removal only clears a mask bit, and the count is a plain counter that
    nothing keeps in step with the mask. */
module SharedMemory {
  import opened Common
  import opened Geometry

  /** One entry of `agent_changes`. */
  datatype Change = AddChange(id: int) | RemoveChange(id: int)

  /** The manager's state as a value; the capacity is the arrays' length. */
  datatype Shared = Shared(positions: seq<Vec2>, ids: seq<int>, mask: seq<int>,
                           count: int, nextId: nat, changes: seq<Change>)

  ghost predicate Shaped(s: Shared)
  {
    |s.ids| == |s.positions| && |s.mask| == |s.positions|
  }

  /** The freshly constructed manager: zero positions, ids and mask. */
  function Initial(maxAgents: nat): (s: Shared)
    ensures Shaped(s) && |s.positions| == maxAgents
  {
    Shared(seq(maxAgents, _ => Zero), seq(maxAgents, _ => 0), seq(maxAgents, _ => 0), 0, 0, [])
  }

  /** `add_agent`: below capacity the next id is written with the position into slot
      `current_agent_count` (a negative count indexes from the end, and one below minus
      the capacity raises IndexError), the slot is marked active, the count and the id
      counter advance and the change is recorded; at capacity nothing changes and the
      result is -1. */
  function Added(s: Shared, position: Vec2): (res: Result<(Shared, int)>)
    requires Shaped(s)
    ensures s.count >= |s.positions| ==> res == Ok((s, -1))
    ensures res.Err? <==> s.count < -(|s.positions| as int)
    ensures res.Err? ==> res.error == IndexError
    ensures res.Ok? && s.count < |s.positions| ==>
              var (s', id) := res.value;
              var slot := PyIndex(s.count, |s.positions|);
              && Shaped(s') && |s'.positions| == |s.positions|
              && id == s.nextId && s'.nextId == s.nextId + 1
              && s'.count == s.count + 1
              && s'.changes == s.changes + [AddChange(id)]
              && s'.positions == s.positions[slot := position]
              && s'.ids == s.ids[slot := id]
              && s'.mask == s.mask[slot := 1]
  {
    if s.count < |s.positions| then
      var index := PyIndex(s.count, |s.positions|);
      if index == -1 then Err(IndexError)
      else
        var id := s.nextId;
        Ok((s.(positions := s.positions[index := position], ids := s.ids[index := id],
               mask := s.mask[index := 1], count := s.count + 1, nextId := s.nextId + 1,
               changes := s.changes + [AddChange(id)]), id))
    else Ok((s, -1))
  }

  /** `remove_agent`: the first slot anywhere in `agent_ids` holding the id has its mask
      cleared, the count drops by one and the change is recorded; the slot's position and
      id stay. An id found nowhere changes nothing. */
  function Removed(s: Shared, id: int): (res: (Shared, bool))
    requires Shaped(s)
    ensures Shaped(res.0) && |res.0.positions| == |s.positions|
    ensures res.1 <==> id in s.ids
    ensures !res.1 ==> res.0 == s
    ensures res.1 ==>
              && res.0.mask == s.mask[FirstIndexOf(s.ids, id) := 0]
              && res.0.count == s.count - 1
              && res.0.changes == s.changes + [RemoveChange(id)]
              && res.0.positions == s.positions && res.0.ids == s.ids && res.0.nextId == s.nextId
  {
    var index := FirstIndexOf(s.ids, id);
    if index == -1 then (s, false)
    else
      (s.(mask := s.mask[index := 0], count := s.count - 1, changes := s.changes + [RemoveChange(id)]), true)
  }

  /** Which slots have their mask equal to 1. */
  function IsActive(mask: seq<int>): (b: seq<bool>)
    ensures |b| == |mask| && forall k :: 0 <= k < |mask| ==> (b[k] <==> mask[k] == 1)
  {
    seq(|mask|, k requires 0 <= k < |mask| => mask[k] == 1)
  }

  /** `np.where(active_mask == 1)[0]`. */
  function ActiveIndices(s: Shared): (idx: seq<nat>)
    requires Shaped(s)
    ensures forall t :: 0 <= t < |idx| ==> idx[t] < |s.positions| && s.mask[idx[t]] == 1
    ensures forall t, u :: 0 <= t < u < |idx| ==> idx[t] < idx[u]
    ensures forall k :: 0 <= k < |s.mask| && s.mask[k] == 1 ==> k in idx
  {
    Where(IsActive(s.mask), |s.mask|)
  }

  /** `get_data_for_tensorflow`: the positions of the active slots in slot order. */
  function TensorflowView(s: Shared): (view: seq<Vec2>)
    requires Shaped(s)
    ensures |view| == |ActiveIndices(s)|
    ensures forall t :: 0 <= t < |view| ==> view[t] == s.positions[ActiveIndices(s)[t]]
  {
    var idx := ActiveIndices(s);
    seq(|idx|, t requires 0 <= t < |idx| => s.positions[idx[t]])
  }

  ghost predicate Increasing(idx: seq<nat>)
  {
    forall t, u :: 0 <= t < u < |idx| ==> idx[t] < idx[u]
  }

  /** `ps[idx[:u]] = vals[:u]`: the first `u` listed slots receive the values, every other
      slot keeps its value. */
  function Scatter(ps: seq<Vec2>, idx: seq<nat>, vals: seq<Vec2>, u: nat): (r: seq<Vec2>)
    requires u <= |idx| && u <= |vals| && Increasing(idx)
    requires forall t :: 0 <= t < |idx| ==> idx[t] < |ps|
    ensures |r| == |ps|
    ensures forall t :: 0 <= t < u ==> r[idx[t]] == vals[t]
    ensures forall k :: 0 <= k < |ps| && k !in idx[..u] ==> r[k] == ps[k]
  {
    if u == 0 then ps
    else
      var r := Scatter(ps, idx, vals, u - 1);
      assert forall k :: k in idx[..u - 1] ==> k in idx[..u];
      r[idx[u - 1] := vals[u - 1]]
  }

  /** A sequence that holds `vals[t]` at `idx[t]` for every t below u and the old value
      everywhere else is the scatter. */
  lemma ScatterIs(ps: seq<Vec2>, idx: seq<nat>, vals: seq<Vec2>, u: nat, out: seq<Vec2>)
    requires u <= |idx| && u <= |vals| && Increasing(idx)
    requires forall t :: 0 <= t < |idx| ==> idx[t] < |ps|
    requires |out| == |ps|
    requires forall t :: 0 <= t < u ==> out[idx[t]] == vals[t]
    requires forall k :: 0 <= k < |ps| && k !in idx[..u] ==> out[k] == ps[k]
    ensures out == Scatter(ps, idx, vals, u)
  {
    var r := Scatter(ps, idx, vals, u);
    forall k | 0 <= k < |ps|
      ensures out[k] == r[k]
    {
      if k in idx[..u] {
        var t :| 0 <= t < u && idx[t] == k;
      }
    }
  }

  /** `update_positions`: the first `min(#active, len(new))` active slots, in slot order,
      receive the new positions; nothing else changes and the result is always true. */
  function Updated(s: Shared, newPositions: seq<Vec2>): (s': Shared)
    requires Shaped(s)
    ensures Shaped(s') && s'.ids == s.ids && s'.mask == s.mask && s'.count == s.count
    ensures s'.nextId == s.nextId && s'.changes == s.changes
    ensures var idx := ActiveIndices(s);
            s'.positions == Scatter(s.positions, idx, newPositions, Min(|idx|, |newPositions|))
  {
    var idx := ActiveIndices(s);
    s.(positions := Scatter(s.positions, idx, newPositions, Min(|idx|, |newPositions|)))
  }

  function Min(a: nat, b: nat): nat { if a < b then a else b }

  // ---------------------------------------------------------------------------
  // Properties

  /** Ids handed out only grow: an add, any removal and another add give a larger id. */
  lemma IdsNeverReused(s: Shared, p: Vec2, q: Vec2, x: int)
    requires Shaped(s)
    requires Added(s, p).Ok? && Added(s, p).value.1 != -1
    ensures var s1 := Added(s, p).value.0;
            var s2 := Removed(s1, x).0;
            Added(s2, q).Ok? && Added(s2, q).value.1 != -1 ==> Added(s, p).value.1 < Added(s2, q).value.1
  {
  }

  /** Writing new positions for exactly the active agents and reading them back gives
      the new positions. */
  lemma UpdateThenView(s: Shared, newPositions: seq<Vec2>)
    requires Shaped(s) && |newPositions| == |ActiveIndices(s)|
    ensures TensorflowView(Updated(s, newPositions)) == newPositions
  {
    var s' := Updated(s, newPositions);
    assert ActiveIndices(s') == ActiveIndices(s);
    var view := TensorflowView(s');
    forall t | 0 <= t < |view|
      ensures view[t] == newPositions[t]
    {
      assert s'.positions[ActiveIndices(s)[t]] == newPositions[t];
    }
  }

  /** A removal clears one mask bit without touching any other slot, so the same id is
      found and "removed" again: both removals succeed and the count drops by two. */
  lemma DoubleRemoval(s: Shared, id: int)
    requires Shaped(s) && id in s.ids
    ensures var (s1, first) := Removed(s, id);
            var (s2, second) := Removed(s1, id);
            first && second && s2.count == s.count - 2
  {
  }

  /** The id array starts as zeros, so removing id 0 from a fresh manager succeeds before
      any agent was added and leaves the count at -1. */
  lemma RemoveZeroFromFresh(maxAgents: nat)
    requires maxAgents > 0
    ensures var (s, removed) := Removed(Initial(maxAgents), 0);
            removed && s.count == -1 && s.changes == [RemoveChange(0)]
  {
    assert Initial(maxAgents).ids[0] == 0;
  }

  /** With capacity 2: add two agents, remove the first, add again. The count is 1, so the
      new agent lands in slot 1 and overwrites agent 1, which was never removed. */
  lemma AddOverwritesLiveAgent(p0: Vec2, p1: Vec2, p2: Vec2)
    ensures var (s1, a) := Added(Initial(2), p0).value;
            var (s2, b) := Added(s1, p1).value;
            var (s3, _) := Removed(s2, a);
            var (s4, c) := Added(s3, p2).value;
            && a == 0 && b == 1 && c == 2
            && s4.ids == [0, 2] && s4.mask == [0, 1] && s4.count == 2
            && b !in s4.ids
  {
    var (s1, a) := Added(Initial(2), p0).value;
    var (s2, b) := Added(s1, p1).value;
    assert s2.ids == [0, 1];
    assert FirstIndexOf(s2.ids, a) == 0;
    var (s3, _) := Removed(s2, a);
    assert s3.count == 1;
  }

  // ---------------------------------------------------------------------------
  // The class

  class SharedMemoryManager {
    const maxAgents: nat
    const positions: array<Vec2>
    const agentIds: array<int>
    const activeMask: array<int>
    var currentAgentCount: int
    var nextAgentId: nat
    var agentChanges: seq<Change>

    ghost predicate Valid()
      reads this
    {
      positions.Length == maxAgents && agentIds.Length == maxAgents && activeMask.Length == maxAgents
      && agentIds != activeMask
    }

    ghost function State(): Shared
      reads this, positions, agentIds, activeMask
    {
      Shared(positions[..], agentIds[..], activeMask[..], currentAgentCount, nextAgentId, agentChanges)
    }

    constructor(maxAgents: nat)
      ensures Valid() && State() == Initial(maxAgents)
    {
      this.maxAgents := maxAgents;
      positions := new Vec2[maxAgents](_ => Zero);
      agentIds := new int[maxAgents](_ => 0);
      activeMask := new int[maxAgents](_ => 0);
      currentAgentCount := 0;
      nextAgentId := 0;
      agentChanges := [];
    }

    /** `add_agent`. */
    method AddAgent(position: Vec2) returns (res: Result<int>)
      requires Valid()
      modifies this, positions, agentIds, activeMask
      ensures Valid()
      ensures var spec := Added(old(State()), position);
              && (spec.Err? ==> res == Err(spec.error) && State() == old(State()))
              && (spec.Ok? ==> res == Ok(spec.value.1) && State() == spec.value.0)
    {
      if currentAgentCount < maxAgents {
        var index := PyIndex(currentAgentCount, maxAgents);
        if index == -1 {
          return Err(IndexError);
        }
        positions[index] := position;
        agentIds[index] := nextAgentId;
        activeMask[index] := 1;
        currentAgentCount := currentAgentCount + 1;
        var newAgentId := nextAgentId;
        nextAgentId := nextAgentId + 1;
        agentChanges := agentChanges + [AddChange(newAgentId)];
        return Ok(newAgentId);
      }
      return Ok(-1);
    }

    /** `remove_agent`. */
    method RemoveAgent(agentId: int) returns (removed: bool)
      requires Valid()
      modifies this, activeMask
      ensures Valid()
      ensures (State(), removed) == Removed(old(State()), agentId)
    {
      var index := FirstIndexOf(agentIds[..], agentId);
      if index != -1 {
        activeMask[index] := 0;
        currentAgentCount := currentAgentCount - 1;
        agentChanges := agentChanges + [RemoveChange(agentId)];
        return true;
      }
      return false;
    }

    /** `get_data_for_tensorflow`: a copy of the active positions. */
    function GetDataForTensorflow(): (view: seq<Vec2>)
      requires Valid()
      reads this, positions, agentIds, activeMask
      ensures view == TensorflowView(State())
      ensures forall t :: 0 <= t < |view| ==> view[t] in positions[..]
    {
      var idx := Where(IsActive(activeMask[..]), activeMask.Length);
      var ps := positions[..];
      seq(|idx|, t requires 0 <= t < |idx| => ps[idx[t]])
    }

    /** `update_positions`. */
    method UpdatePositions(newPositions: seq<Vec2>) returns (ok: bool)
      requires Valid()
      modifies positions
      ensures ok
      ensures State() == Updated(old(State()), newPositions)
    {
      var idx := Where(IsActive(activeMask[..]), activeMask.Length);
      var u := Min(|idx|, |newPositions|);
      forall t | 0 <= t < u {
        positions[idx[t]] := newPositions[t];
      }
      ghost var s := old(State());
      assert idx == ActiveIndices(s);
      ScatterIs(s.positions, idx, newPositions, u, positions[..]);
      ghost var s' := Updated(s, newPositions);
      assert s'.positions == positions[..];
      assert agentIds[..] == s.ids && activeMask[..] == s.mask;
      assert State() == s';
      return true;
    }
  }
}
