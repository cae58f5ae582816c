/** `FlameBuffer` of `keep/flame_buffer.py`: a bounded FIFO of position frames between the
    physics and the renderer, refilled with frames interpolated between the previous and
    the latest physics positions, with a counter of frames dropped on overflow. */
module FlameBuffers {
  import opened Common
  import opened Geometry

  /** A buffered frame. Interpolated frames are fresh arrays; the frame `initialize` and
      the agent-count reset append is the slice `current_positions[:n]`, a view that shows
      whatever the array holds when it is read. */
  datatype Frame = Stored(positions: seq<Vec2>) | CurrentView(n: nat)

  /** The positions a frame shows when read while `current_positions` holds `current`. */
  function Resolve(f: Frame, current: seq<Vec2>): seq<Vec2>
    requires f.CurrentView? ==> f.n <= |current|
  {
    match f
    case Stored(ps) => ps
    case CurrentView(n) => current[..n]
  }

  function Min(a: int, b: int): int { if a < b then a else b }

  function Max(a: int, b: int): int { if a < b then b else a }

  // ---------------------------------------------------------------------------
  // The bounded deque

  /** `deque.append` on a deque of maximum length `maxLen`: a full deque drops its oldest
      element first. */
  function DequeAppend(d: seq<Frame>, x: Frame, maxLen: nat): (r: seq<Frame>)
    requires 1 <= maxLen && |d| <= maxLen
    ensures |r| == Min(|d| + 1, maxLen)
    ensures r == (d + [x])[|d| + 1 - |r|..]
  {
    if |d| == maxLen then d[1..] + [x] else d + [x]
  }

  /** `add_frames`: each frame is appended after, when the buffer is full, the oldest frame
      is dropped and counted. The buffer ends as the newest `min(total, max_size)` of the
      old frames followed by the new ones, and the counter grows by the number dropped. */
  function Pushed(buffer: seq<Frame>, overflow: nat, frames: seq<Frame>, maxSize: nat): (r: (seq<Frame>, nat))
    requires 1 <= maxSize && |buffer| <= maxSize
    ensures var total := |buffer| + |frames|;
            var kept := Min(total, maxSize);
            && |r.0| == kept
            && r.0 == (buffer + frames)[total - kept..]
            && r.1 == overflow + (total - kept)
  {
    if |frames| == 0 then
      assert buffer + frames == buffer;
      (buffer, overflow)
    else
      var before := frames[..|frames| - 1];
      var f := frames[|frames| - 1];
      var (b, o) := Pushed(buffer, overflow, before, maxSize);
      assert buffer + frames == (buffer + before) + [f];
      if |b| >= maxSize then (b[1..] + [f], o + 1) else (b + [f], o)
  }

  /** Every view frame fits an array of `bound` agents. */
  ghost predicate ViewsFit(fs: seq<Frame>, bound: nat)
  {
    forall k :: 0 <= k < |fs| && fs[k].CurrentView? ==> fs[k].n <= bound
  }

  /** Appending a fitting frame to any suffix of fitting frames keeps them fitting. */
  lemma ViewsFitAppend(fs: seq<Frame>, f: Frame, bound: nat)
    requires ViewsFit(fs, bound) && (f.CurrentView? ==> f.n <= bound)
    ensures ViewsFit(fs + [f], bound) && (|fs| > 0 ==> ViewsFit(fs[1..] + [f], bound))
  {
    if |fs| > 0 {
      assert forall k :: 0 <= k < |fs| - 1 ==> fs[1..][k] == fs[k + 1];
    }
  }

  /** A bounded append of a fitting frame keeps every view within the bound. */
  lemma ViewsFitDequeAppend(d: seq<Frame>, x: Frame, maxLen: nat, bound: nat)
    requires 1 <= maxLen && |d| <= maxLen
    requires ViewsFit(d, bound) && (x.CurrentView? ==> x.n <= bound)
    ensures ViewsFit(DequeAppend(d, x, maxLen), bound)
  {
    ViewsFitAppend(d, x, bound);
  }

  /** One more frame pushed: the buffer of `frames[..i + 1]` is the buffer of `frames[..i]`
      with the oldest frame dropped and counted when full, then `frames[i]` appended. */
  lemma PushedStep(buffer: seq<Frame>, overflow: nat, frames: seq<Frame>, maxSize: nat, i: nat)
    requires 1 <= maxSize && |buffer| <= maxSize && i < |frames|
    ensures var (b, o) := Pushed(buffer, overflow, frames[..i], maxSize);
            Pushed(buffer, overflow, frames[..i + 1], maxSize)
              == if |b| >= maxSize then (b[1..] + [frames[i]], o + 1) else (b + [frames[i]], o)
  {
    assert frames[..i + 1][..i] == frames[..i];
  }

  /** A buffer that is not full and has room for every new frame drops nothing. */
  lemma PushedWithRoom(buffer: seq<Frame>, overflow: nat, frames: seq<Frame>, maxSize: nat)
    requires 1 <= maxSize && |buffer| + |frames| <= maxSize
    ensures Pushed(buffer, overflow, frames, maxSize) == (buffer + frames, overflow)
  {
  }

  /** Frames leave in the order they arrived: the first frame read after pushing onto a
      non-empty buffer that does not overflow is the old head. */
  lemma PushedKeepsHead(buffer: seq<Frame>, overflow: nat, frames: seq<Frame>, maxSize: nat)
    requires 1 <= maxSize && 0 < |buffer| && |buffer| + |frames| <= maxSize
    ensures Pushed(buffer, overflow, frames, maxSize).0[0] == buffer[0]
  {
  }

  // ---------------------------------------------------------------------------
  // Interpolation

  /** `_interpolate_vectorized(steps, n)` on the slices `current` and `next`: frame `k` is
      `current + (next - current) * (k + 1) / steps`. */
  function Interpolate(current: seq<Vec2>, next: seq<Vec2>, steps: nat): (frames: seq<seq<Vec2>>)
    requires |current| == |next|
    ensures |frames| == steps
    ensures forall k :: 0 <= k < steps ==> |frames[k]| == |current|
  {
    seq(steps, k requires 0 <= k < steps =>
          seq(|current|, j requires 0 <= j < |current| =>
                Add(current[j], Scale(Sub(next[j], current[j]), (k + 1) as real / steps as real))))
  }

  /** The last interpolated frame is exactly the latest positions. */
  lemma InterpolationEndsAtNext(current: seq<Vec2>, next: seq<Vec2>, steps: nat)
    requires |current| == |next| && steps >= 1
    ensures Interpolate(current, next, steps)[steps - 1] == next
  {
    var last := Interpolate(current, next, steps)[steps - 1];
    forall j | 0 <= j < |current|
      ensures last[j] == next[j]
    {
      var s := steps as real;
      assert (steps - 1 + 1) as real == s;
      assert s / s == 1.0;
      var d := Sub(next[j], current[j]);
      assert last[j] == Add(current[j], Scale(d, 1.0));
    }
  }

  /** Consecutive frames are one equal step `(next - current) / steps` apart. */
  lemma InterpolationStepsEvenly(current: seq<Vec2>, next: seq<Vec2>, steps: nat, k: nat, j: nat)
    requires |current| == |next| && k + 1 < steps && j < |current|
    ensures var frames := Interpolate(current, next, steps);
            frames[k + 1][j] == Add(frames[k][j], Div(Sub(next[j], current[j]), steps as real))
  {
    var d := Sub(next[j], current[j]);
    var s := steps as real;
    var a, b := (k + 1) as real / s, 1.0 / s;
    assert (k + 2) as real / s == a + b;
    assert Scale(d, b) == Div(d, s);
    ScaleDistributes(d, a, b);
  }

  lemma ScaleDistributes(d: Vec2, a: real, b: real)
    ensures Scale(d, a + b) == Add(Scale(d, a), Scale(d, b))
  {
  }

  /** Every interpolated frame as a stored frame. */
  function AsFrames(frames: seq<seq<Vec2>>): (r: seq<Frame>)
    ensures |r| == |frames| && forall k :: 0 <= k < |r| ==> r[k] == Stored(frames[k])
  {
    seq(|frames|, k requires 0 <= k < |frames| => Stored(frames[k]))
  }

  // ---------------------------------------------------------------------------
  // The step rule

  /** Python's `int()` of a float: truncation toward zero. */
  function Trunc(x: real): (n: int)
    ensures x >= 0.0 ==> n as real <= x < n as real + 1.0
    ensures x < 0.0 ==> n as real - 1.0 < x <= n as real
  {
    if x >= 0.0 then x.Floor else -((-x).Floor)
  }

  /** The interpolation step count of `update_with_physics_data`: the physics interval in
      frames, at least 1, plus 2, then one more when the buffer is below its target or one
      fewer (never below 1) when above; a zero frame time raises ZeroDivisionError. */
  function InterpolationSteps(interval: real, avgFrameTime: real, bufferSize: nat, targetSize: int): (r: Result<int>)
    ensures r.Err? <==> avgFrameTime == 0.0
    ensures r.Err? ==> r.error == ZeroDivisionError
    ensures r.Ok? ==> r.value >= 1
    ensures r.Ok? ==>
              var base := Max(1, Trunc(interval / avgFrameTime));
              && (bufferSize < targetSize ==> r.value == base + 3)
              && (bufferSize == targetSize ==> r.value == base + 2)
              && (bufferSize > targetSize ==> r.value == base + 1)
  {
    if avgFrameTime == 0.0 then Err(ZeroDivisionError)
    else
      var base := Max(1, Trunc(interval / avgFrameTime));
      var steps := base + 2;
      if bufferSize < targetSize then Ok(steps + 1)
      else if bufferSize > targetSize then Ok(Max(1, steps - 1))
      else Ok(steps)
  }

  /** A buffer below target gets more frames per physics step than one above it. */
  lemma StepsFavourRefill(interval: real, avgFrameTime: real, low: nat, high: nat, targetSize: int)
    requires avgFrameTime != 0.0 && low < targetSize < high
    ensures InterpolationSteps(interval, avgFrameTime, low, targetSize).value
              == InterpolationSteps(interval, avgFrameTime, high, targetSize).value + 2
  {
  }

  // ---------------------------------------------------------------------------
  // The buffer object

  /** The numpy slice assignment `a[:len(src)] = src`. */
  method AssignPrefix<T>(a: array<T>, src: seq<T>)
    requires |src| <= a.Length
    modifies a
    ensures a[..|src|] == src && a[|src|..] == old(a[|src|..])
  {
    forall j | 0 <= j < |src| {
      a[j] := src[j];
    }
    assert a[..|src|] == src;
  }

  /** What `get_stats` reports. */
  datatype Stats = Stats(currentSize: nat, targetSize: int, maxSize: nat, overflowCount: nat)

  class FlameBuffer {
    const maxAgents: nat
    const targetSize: int
    const maxSize: nat
    const currentPositions: array<Vec2>
    const nextPositions: array<Vec2>
    const agentIds: array<int>
    var buffer: seq<Frame>
    var overflowCount: nat
    var lastAgentCount: nat

    ghost predicate Valid()
      reads this
    {
      && currentPositions.Length == maxAgents && nextPositions.Length == maxAgents
      && agentIds.Length == maxAgents && currentPositions != nextPositions
      && 1 <= maxSize && |buffer| <= maxSize && lastAgentCount <= maxAgents
      && ViewsFit(buffer, maxAgents)
    }

    constructor(maxAgents: nat, targetSize: int, maxSize: nat)
      requires 1 <= maxSize
      ensures Valid() && buffer == [] && overflowCount == 0 && lastAgentCount == 0
      ensures this.maxAgents == maxAgents && this.targetSize == targetSize && this.maxSize == maxSize
      ensures currentPositions[..] == seq(maxAgents, _ => Zero) && nextPositions[..] == seq(maxAgents, _ => Zero)
      ensures agentIds[..] == seq(maxAgents, _ => -1)
    {
      this.maxAgents := maxAgents;
      this.targetSize := targetSize;
      this.maxSize := maxSize;
      currentPositions := new Vec2[maxAgents](_ => Zero);
      nextPositions := new Vec2[maxAgents](_ => Zero);
      agentIds := new int[maxAgents](_ => -1);
      buffer := [];
      overflowCount := 0;
      lastAgentCount := 0;
    }

    /** `initialize`: both position arrays start at the given positions, the buffer holds
        exactly one frame, the view of them, and the agent count is their number. */
    method Initialize(initialPositions: seq<Vec2>, initialIds: seq<int>)
      requires Valid() && |initialPositions| <= maxAgents && |initialIds| <= maxAgents
      modifies this, currentPositions, nextPositions, agentIds
      ensures Valid()
      ensures currentPositions[..|initialPositions|] == initialPositions
      ensures nextPositions[..|initialPositions|] == initialPositions
      ensures agentIds[..|initialIds|] == initialIds
      ensures currentPositions[|initialPositions|..] == old(currentPositions[|initialPositions|..])
      ensures nextPositions[|initialPositions|..] == old(nextPositions[|initialPositions|..])
      ensures agentIds[|initialIds|..] == old(agentIds[|initialIds|..])
      ensures buffer == [CurrentView(|initialPositions|)]
      ensures lastAgentCount == |initialPositions| && overflowCount == old(overflowCount)
    {
      var n := |initialPositions|;
      AssignPrefix(currentPositions, initialPositions);
      AssignPrefix(nextPositions, initialPositions);
      AssignPrefix(agentIds, initialIds);
      buffer := [];
      buffer := DequeAppend(buffer, CurrentView(n), maxSize);
      assert buffer == [CurrentView(n)];
      lastAgentCount := n;
    }

    /** `add_frames`. */
    method AddFrames(frames: seq<Frame>)
      requires Valid()
      requires ViewsFit(frames, maxAgents)
      modifies this
      ensures Valid() && lastAgentCount == old(lastAgentCount)
      ensures (buffer, overflowCount) == Pushed(old(buffer), old(overflowCount), frames, maxSize)
    {
      var queue, overflow := buffer, overflowCount;
      for i := 0 to |frames|
        invariant (queue, overflow) == Pushed(old(buffer), old(overflowCount), frames[..i], maxSize)
        invariant |queue| <= maxSize && ViewsFit(queue, maxAgents)
        invariant unchanged(this)
      {
        PushedStep(old(buffer), old(overflowCount), frames, maxSize, i);
        var frame := frames[i];
        ViewsFitAppend(queue, frame, maxAgents);
        if |queue| >= maxSize {
          overflow := overflow + 1;
          queue := queue[1..];
        }
        queue := queue + [frame];
      }
      assert frames[..|frames|] == frames;
      buffer, overflowCount := queue, overflow;
    }

    /** `get_next_position`: the oldest frame, removed from the buffer, or when the buffer
        is empty the current positions of the last known agents. */
    method GetNextPosition() returns (positions: seq<Vec2>)
      requires Valid()
      modifies this
      ensures Valid() && overflowCount == old(overflowCount) && lastAgentCount == old(lastAgentCount)
      ensures old(buffer) == [] ==> buffer == [] && positions == currentPositions[..lastAgentCount]
      ensures old(buffer) != [] ==>
                buffer == old(buffer)[1..] && positions == Resolve(old(buffer)[0], currentPositions[..])
    {
      if |buffer| > 0 {
        var frame := buffer[0];
        buffer := buffer[1..];
        positions := Resolve(frame, currentPositions[..]);
      } else {
        positions := currentPositions[..lastAgentCount];
      }
    }

    /** `get_stats`. */
    function GetStats(): (stats: Stats)
      reads this
      ensures stats.currentSize == |buffer| && stats.overflowCount == overflowCount
      ensures Valid() ==> stats.currentSize <= stats.maxSize
    {
      Stats(|buffer|, targetSize, maxSize, overflowCount)
    }

    /** Moves the latest positions into place and buffers the interpolated frames between
        the previous latest positions and the new ones. */
    method Advance(newPositions: seq<Vec2>, newIds: seq<int>, steps: nat)
      requires Valid() && |newPositions| <= maxAgents && |newIds| == |newPositions|
      modifies this, currentPositions, nextPositions, agentIds
      ensures Valid() && lastAgentCount == old(lastAgentCount)
      ensures var n := |newPositions|;
              && currentPositions[..n] == old(nextPositions[..n])
              && currentPositions[n..] == old(currentPositions[n..])
              && nextPositions[..n] == newPositions && nextPositions[n..] == old(nextPositions[n..])
              && agentIds[..n] == newIds && agentIds[n..] == old(agentIds[n..])
              && (buffer, overflowCount)
                   == Pushed(old(buffer), old(overflowCount), AsFrames(Interpolate(old(nextPositions[..n]), newPositions, steps)), maxSize)
    {
      var n := |newPositions|;
      AssignPrefix(currentPositions, nextPositions[..n]);
      AssignPrefix(nextPositions, newPositions);
      AssignPrefix(agentIds, newIds);
      var frames := AsFrames(Interpolate(currentPositions[..n], nextPositions[..n], steps));
      AddFrames(frames);
    }

    /** `update_with_physics_data`: advances by the step rule's number of frames and records
        the agent count; the division by a zero frame time raises after the arrays were
        already moved. */
    method UpdateWithPhysicsData(positions: seq<Vec2>, ids: seq<int>, interval: real, avgFrameTime: real)
      returns (res: Result<()>)
      requires Valid() && |positions| <= maxAgents && |ids| == |positions|
      modifies this, currentPositions, nextPositions, agentIds
      ensures Valid()
      ensures var n := |positions|;
              && currentPositions[..n] == old(nextPositions[..n])
              && nextPositions[..n] == positions && agentIds[..n] == ids
              && currentPositions[n..] == old(currentPositions[n..])
              && nextPositions[n..] == old(nextPositions[n..]) && agentIds[n..] == old(agentIds[n..])
      ensures var steps := InterpolationSteps(interval, avgFrameTime, |old(buffer)|, targetSize);
              && (steps.Err? ==> res == Err(ZeroDivisionError) && buffer == old(buffer)
                                 && overflowCount == old(overflowCount) && lastAgentCount == old(lastAgentCount))
              && (steps.Ok? ==> res == Ok(()) && lastAgentCount == |positions|
                                && (buffer, overflowCount)
                                     == Pushed(old(buffer), old(overflowCount),
                                               AsFrames(Interpolate(old(nextPositions[..|positions|]), positions, steps.value)),
                                               maxSize))
    {
      var steps := InterpolationSteps(interval, avgFrameTime, |buffer|, targetSize);
      if steps.Err? {
        AssignPrefix(currentPositions, nextPositions[..|positions|]);
        AssignPrefix(nextPositions, positions);
        AssignPrefix(agentIds, ids);
        return Err(ZeroDivisionError);
      }
      Advance(positions, ids, steps.value);
      lastAgentCount := |positions|;
      return Ok(());
    }

    /** The part of `update` before its final bookkeeping: on a changed agent count both
        arrays are reset to the new positions and their view is appended to the buffer
        (a full buffer silently drops its oldest frame, without counting it), then the
        buffer advances by `steps` frames. */
    method UpdateFrames(newPositions: seq<Vec2>, newIds: seq<int>, steps: nat)
      requires Valid() && |newPositions| <= maxAgents && |newIds| == |newPositions|
      modifies this, currentPositions, nextPositions, agentIds
      ensures Valid() && lastAgentCount == |newPositions|
      ensures var n := |newPositions|;
              var reset := n != old(lastAgentCount);
              var start := if reset then newPositions else old(nextPositions[..n]);
              var queued := if reset then DequeAppend(old(buffer), CurrentView(n), maxSize) else old(buffer);
              && currentPositions[..n] == start
              && nextPositions[..n] == newPositions && agentIds[..n] == newIds
              && currentPositions[n..] == old(currentPositions[n..])
              && nextPositions[n..] == old(nextPositions[n..]) && agentIds[n..] == old(agentIds[n..])
              && (buffer, overflowCount)
                   == Pushed(queued, old(overflowCount), AsFrames(Interpolate(start, newPositions, steps)), maxSize)
    {
      var n := |newPositions|;
      if n != lastAgentCount {
        Reset(newPositions, newIds);
      }
      Advance(newPositions, newIds, steps);
      lastAgentCount := n;
    }

    /** The agent-count mismatch branch of `update`: both arrays and the ids take the new
        values, the view of them is appended to the buffer without counting a dropped
        frame, and the count is recorded. */
    method Reset(newPositions: seq<Vec2>, newIds: seq<int>)
      requires Valid() && |newPositions| <= maxAgents && |newIds| == |newPositions|
      modifies this, currentPositions, nextPositions, agentIds
      ensures Valid() && lastAgentCount == |newPositions| && overflowCount == old(overflowCount)
      ensures var n := |newPositions|;
              && currentPositions[..n] == newPositions && nextPositions[..n] == newPositions
              && agentIds[..n] == newIds
              && currentPositions[n..] == old(currentPositions[n..])
              && nextPositions[n..] == old(nextPositions[n..]) && agentIds[n..] == old(agentIds[n..])
              && buffer == DequeAppend(old(buffer), CurrentView(n), maxSize)
    {
      var n := |newPositions|;
      AssignPrefix(currentPositions, newPositions);
      AssignPrefix(nextPositions, newPositions);
      AssignPrefix(agentIds, newIds);
      ViewsFitDequeAppend(buffer, CurrentView(n), maxSize, maxAgents);
      buffer := DequeAppend(buffer, CurrentView(n), maxSize);
      lastAgentCount := n;
    }

    /** `update` as written: after the frames are buffered it calls `_adjust_buffer_size`,
        which the class does not define, so every call raises AttributeError after the
        arrays and the buffer have advanced; `last_agent_count` equals the new count either
        way, since only a mismatch changes it. */
    method Update(newPositions: seq<Vec2>, newIds: seq<int>, steps: nat) returns (res: Result<Stats>)
      requires Valid() && |newPositions| <= maxAgents && |newIds| == |newPositions|
      modifies this, currentPositions, nextPositions, agentIds
      ensures Valid() && res == Err(AttributeError) && lastAgentCount == |newPositions|
      ensures var n := |newPositions|;
              var reset := n != old(lastAgentCount);
              var start := if reset then newPositions else old(nextPositions[..n]);
              var queued := if reset then DequeAppend(old(buffer), CurrentView(n), maxSize) else old(buffer);
              && currentPositions[..n] == start
              && nextPositions[..n] == newPositions && agentIds[..n] == newIds
              && currentPositions[n..] == old(currentPositions[n..])
              && nextPositions[n..] == old(nextPositions[n..]) && agentIds[n..] == old(agentIds[n..])
              && (buffer, overflowCount)
                   == Pushed(queued, old(overflowCount), AsFrames(Interpolate(start, newPositions, steps)), maxSize)
    {
      UpdateFrames(newPositions, newIds, steps);
      return Err(AttributeError);
    }

    /** `update` without the missing call: the frames are buffered, the agent count is
        recorded and the stats are returned, the buffer never exceeding its maximum. */
    method UpdateIntended(newPositions: seq<Vec2>, newIds: seq<int>, steps: nat) returns (res: Result<Stats>)
      requires Valid() && |newPositions| <= maxAgents && |newIds| == |newPositions|
      modifies this, currentPositions, nextPositions, agentIds
      ensures Valid() && lastAgentCount == |newPositions|
      ensures res == Ok(GetStats()) && res.value.currentSize <= maxSize
      ensures var n := |newPositions|;
              var reset := n != old(lastAgentCount);
              var start := if reset then newPositions else old(nextPositions[..n]);
              var queued := if reset then DequeAppend(old(buffer), CurrentView(n), maxSize) else old(buffer);
              && currentPositions[..n] == start
              && nextPositions[..n] == newPositions && agentIds[..n] == newIds
              && currentPositions[n..] == old(currentPositions[n..])
              && nextPositions[n..] == old(nextPositions[n..]) && agentIds[n..] == old(agentIds[n..])
              && (buffer, overflowCount)
                   == Pushed(queued, old(overflowCount), AsFrames(Interpolate(start, newPositions, steps)), maxSize)
    {
      UpdateFrames(newPositions, newIds, steps);
      return Ok(GetStats());
    }
  }
}
