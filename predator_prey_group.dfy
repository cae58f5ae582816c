/** The per-species numba kernel (`predator_prey_force_numba.py`): for each species 1..8
    it gathers that species' agents, then adds to each an escape term away from the
    nearest agent of its predator species within the escape distance, and afterwards a
    chase term towards the nearest agent of its prey species within the chase distance.
    Candidates are filtered in index order and chosen by `np.argmin`; the agent itself is
    not excluded, and the direction is normalised without a zero guard. */
module PredatorPreyGroup {
  import opened Common
  import opened Geometry
  import opened Nearest

  /** `np.where(species == s)[0]`. */
  function IndicesOf(species: seq<int>, s: int): (r: seq<nat>)
    ensures forall t :: 0 <= t < |r| ==> r[t] < |species| && species[r[t]] == s
    ensures forall t, u :: 0 <= t < u < |r| ==> r[t] < r[u]
    ensures forall j :: 0 <= j < |species| && species[j] == s ==> j in r
  {
    Where(seq(|species|, j requires 0 <= j < |species| => species[j] == s), |species|)
  }

  /** Distances from agent a to every agent: `sqrt(sum((positions[j] - agent_pos)**2))`. */
  function DistancesFrom(norm: Vec2 -> real, ps: seq<Vec2>, a: nat): (row: seq<real>)
    requires NormLike(norm) && a < |ps|
    ensures |row| == |ps|
    ensures forall j :: 0 <= j < |ps| ==> row[j] == Distance(norm, ps[j], ps[a])
  {
    seq(|ps|, j requires 0 <= j < |ps| => Distance(norm, ps[j], ps[a]))
  }

  /** Agents of species `target` strictly closer than `limit` to agent a. */
  function CloseOf(row: seq<real>, species: seq<int>, target: int, limit: real): (m: seq<bool>)
    requires |species| == |row|
    ensures |m| == |row|
    ensures forall j :: 0 <= j < |row| ==> (m[j] <==> species[j] == target && row[j] < limit)
  {
    seq(|row|, j requires 0 <= j < |row| => species[j] == target && row[j] < limit)
  }

  /** `direction / sqrt(sum(direction**2)) * weight`; a zero direction gives `0 / 0`. */
  function UnitTerm(norm: Vec2 -> real, dir: Vec2, weight: real): (r: FloatPair)
    requires NormLike(norm)
    ensures r.NaN? <==> dir == Zero
  {
    var n := norm(dir);
    if n == 0.0 then NaN else Num(Scale(Div(dir, n), weight))
  }

  /** The escape term of agent a (of species s), or None when no agent of the predator
      species is within the escape distance. */
  function EscapeOf(norm: Vec2 -> real, ps: seq<Vec2>, species: seq<int>, predator: int, a: nat,
                    escapeDistance: real, escapeWeight: real): Option<FloatPair>
    requires NormLike(norm) && a < |ps| && |species| == |ps|
  {
    var row := DistancesFrom(norm, ps, a);
    var k := FilteredArgMin(row, CloseOf(row, species, predator, escapeDistance));
    if k == -1 then None else Some(UnitTerm(norm, Sub(ps[a], ps[k]), escapeWeight))
  }

  /** The chase term of agent a, or None when no prey-species agent is within reach. */
  function ChaseOf(norm: Vec2 -> real, ps: seq<Vec2>, species: seq<int>, prey: int, a: nat,
                   chaseDistance: real, chaseWeight: real): Option<FloatPair>
    requires NormLike(norm) && a < |ps| && |species| == |ps|
  {
    var row := DistancesFrom(norm, ps, a);
    var k := FilteredArgMin(row, CloseOf(row, species, prey, chaseDistance));
    if k == -1 then None else Some(UnitTerm(norm, Sub(ps[k], ps[a]), chaseWeight))
  }

  /** The kernel's parameters besides positions and species. */
  datatype Params = Params(predatorSpecies: seq<int>, preySpecies: seq<int>,
                           escapeDistance: real, chaseDistance: real, escapeWeight: real, chaseWeight: real)

  ghost predicate ValidParams(p: Params)
  {
    |p.predatorSpecies| >= 8 && |p.preySpecies| >= 8
  }

  /** Agent a after the escape block of its species: escape term added to zero. */
  function Escaped(norm: Vec2 -> real, ps: seq<Vec2>, species: seq<int>, p: Params, a: nat): FloatPair
    requires NormLike(norm) && ValidParams(p) && a < |ps| && |species| == |ps| && 1 <= species[a] <= 8
  {
    AddTerm(Num(Zero), EscapeOf(norm, ps, species, p.predatorSpecies[species[a] - 1], a, p.escapeDistance, p.escapeWeight))
  }

  /** The final force on agent a: zero for a species outside 1..8 (never visited),
      otherwise escape then chase added to zero. */
  function ForceOf(norm: Vec2 -> real, ps: seq<Vec2>, species: seq<int>, p: Params, a: nat): FloatPair
    requires NormLike(norm) && ValidParams(p) && a < |ps| && |species| == |ps|
  {
    var s := species[a];
    if 1 <= s <= 8 then
      AddTerm(Escaped(norm, ps, species, p, a), ChaseOf(norm, ps, species, p.preySpecies[s - 1], a, p.chaseDistance, p.chaseWeight))
    else Num(Zero)
  }

  /** Without any agent of the target species the filter is empty and no term is added;
      this is why the kernel may skip the whole block when the target list is empty. */
  lemma NoTargetNoTerm(norm: Vec2 -> real, ps: seq<Vec2>, species: seq<int>, target: int, a: nat, limit: real)
    requires NormLike(norm) && a < |ps| && |species| == |ps|
    requires IndicesOf(species, target) == []
    ensures var row := DistancesFrom(norm, ps, a);
            FilteredArgMin(row, CloseOf(row, species, target, limit)) == -1
  {
    var row := DistancesFrom(norm, ps, a);
    WhereNone(CloseOf(row, species, target, limit), |ps|);
  }

  /** The value of agent a while species `s` is being processed: finished for earlier
      species, `phase` 0 (untouched), 1 (escaped) or 2 (finished) for species `s`, zero
      for later ones. */
  ghost function Stage(norm: Vec2 -> real, ps: seq<Vec2>, species: seq<int>, p: Params, s: int, a: nat, phase: nat): FloatPair
    requires NormLike(norm) && ValidParams(p) && a < |ps| && |species| == |ps|
  {
    if 1 <= species[a] < s then ForceOf(norm, ps, species, p, a)
    else if species[a] == s && 1 <= s <= 8 && phase == 1 then Escaped(norm, ps, species, p, a)
    else if species[a] == s && 1 <= s <= 8 && phase == 2 then ForceOf(norm, ps, species, p, a)
    else Num(Zero)
  }

  /** `calculate_forces_numba`: species by species, first every member's escape term,
      then every member's chase term. */
  method CalculateForces(norm: Vec2 -> real, ps: seq<Vec2>, species: seq<int>, p: Params) returns (forces: seq<FloatPair>)
    requires NormLike(norm) && ValidParams(p) && |species| == |ps|
    ensures |forces| == |ps|
    ensures forall a :: 0 <= a < |ps| ==> forces[a] == ForceOf(norm, ps, species, p, a)
  {
    forces := seq(|ps|, a requires 0 <= a < |ps| => Num(Zero));
    for s := 1 to 9
      invariant |forces| == |ps|
      invariant forall a :: 0 <= a < |ps| ==> forces[a] == Stage(norm, ps, species, p, s, a, 0)
    {
      var members := IndicesOf(species, s);
      if |members| == 0 {
        continue;
      }
      forces := EscapeBlock(norm, ps, species, p, s, members, forces);
      forces := ChaseBlock(norm, ps, species, p, s, members, forces);
    }
  }

  /** The first block for species s: when some agent has the predator species, the
      escape term of each member, in member order. */
  method EscapeBlock(norm: Vec2 -> real, ps: seq<Vec2>, species: seq<int>, p: Params, s: int,
                     members: seq<nat>, forces0: seq<FloatPair>) returns (forces: seq<FloatPair>)
    requires NormLike(norm) && ValidParams(p) && |species| == |ps| && 1 <= s <= 8
    requires members == IndicesOf(species, s)
    requires |forces0| == |ps|
    requires forall a :: 0 <= a < |ps| ==> forces0[a] == Stage(norm, ps, species, p, s, a, 0)
    ensures |forces| == |ps|
    ensures forall a :: 0 <= a < |ps| ==> forces[a] == Stage(norm, ps, species, p, s, a, 1)
  {
    var predators := IndicesOf(species, p.predatorSpecies[s - 1]);
    if |predators| > 0 {
      forces := AddEscapes(norm, ps, species, p, s, members, forces0);
    } else {
      forall a | 0 <= a < |ps| && species[a] == s
        ensures EscapeOf(norm, ps, species, p.predatorSpecies[s - 1], a, p.escapeDistance, p.escapeWeight) == None
      {
        NoTargetNoTerm(norm, ps, species, p.predatorSpecies[s - 1], a, p.escapeDistance);
      }
      forces := forces0;
    }
  }

  /** The loop of the first block over the members of species s. */
  method AddEscapes(norm: Vec2 -> real, ps: seq<Vec2>, species: seq<int>, p: Params, s: int,
                    members: seq<nat>, forces0: seq<FloatPair>) returns (forces: seq<FloatPair>)
    requires NormLike(norm) && ValidParams(p) && |species| == |ps| && 1 <= s <= 8
    requires members == IndicesOf(species, s)
    requires |forces0| == |ps|
    requires forall a :: 0 <= a < |ps| ==> forces0[a] == Stage(norm, ps, species, p, s, a, 0)
    ensures |forces| == |ps|
    ensures forall a :: 0 <= a < |ps| ==> forces[a] == Stage(norm, ps, species, p, s, a, 1)
  {
    forces := forces0;
    for t := 0 to |members|
      invariant |forces| == |ps|
      invariant forall a :: 0 <= a < |ps| ==>
                  forces[a] == Stage(norm, ps, species, p, s, a, if a in members[..t] then 1 else 0)
    {
      var a := members[t];
      MemberTurn(norm, ps, species, p, s, members, t, 0, forces);
      ghost var before := forces;
      forces := AddEscape(norm, ps, species, p, a, forces);
      MemberStep(norm, ps, species, p, s, members, t, 0, before, forces);
    }
    assert members[..|members|] == members;
  }

  /** The second block for species s: when some agent has the prey species, the chase
      term of each member, in member order. */
  method ChaseBlock(norm: Vec2 -> real, ps: seq<Vec2>, species: seq<int>, p: Params, s: int,
                    members: seq<nat>, forces0: seq<FloatPair>) returns (forces: seq<FloatPair>)
    requires NormLike(norm) && ValidParams(p) && |species| == |ps| && 1 <= s <= 8
    requires members == IndicesOf(species, s)
    requires |forces0| == |ps|
    requires forall a :: 0 <= a < |ps| ==> forces0[a] == Stage(norm, ps, species, p, s, a, 1)
    ensures |forces| == |ps|
    ensures forall a :: 0 <= a < |ps| ==> forces[a] == Stage(norm, ps, species, p, s + 1, a, 0)
  {
    var preys := IndicesOf(species, p.preySpecies[s - 1]);
    if |preys| > 0 {
      forces := AddChases(norm, ps, species, p, s, members, forces0);
    } else {
      forall a | 0 <= a < |ps| && species[a] == s
        ensures ChaseOf(norm, ps, species, p.preySpecies[s - 1], a, p.chaseDistance, p.chaseWeight) == None
      {
        NoTargetNoTerm(norm, ps, species, p.preySpecies[s - 1], a, p.chaseDistance);
      }
      forces := forces0;
    }
  }

  /** The loop of the second block over the members of species s. */
  method AddChases(norm: Vec2 -> real, ps: seq<Vec2>, species: seq<int>, p: Params, s: int,
                   members: seq<nat>, forces0: seq<FloatPair>) returns (forces: seq<FloatPair>)
    requires NormLike(norm) && ValidParams(p) && |species| == |ps| && 1 <= s <= 8
    requires members == IndicesOf(species, s)
    requires |forces0| == |ps|
    requires forall a :: 0 <= a < |ps| ==> forces0[a] == Stage(norm, ps, species, p, s, a, 1)
    ensures |forces| == |ps|
    ensures forall a :: 0 <= a < |ps| ==> forces[a] == Stage(norm, ps, species, p, s + 1, a, 0)
  {
    forces := forces0;
    for t := 0 to |members|
      invariant |forces| == |ps|
      invariant forall a :: 0 <= a < |ps| ==>
                  forces[a] == Stage(norm, ps, species, p, s, a, if a in members[..t] then 2 else 1)
    {
      var a := members[t];
      MemberTurn(norm, ps, species, p, s, members, t, 1, forces);
      ghost var before := forces;
      forces := AddChase(norm, ps, species, p, a, forces);
      MemberStep(norm, ps, species, p, s, members, t, 1, before, forces);
    }
    assert members[..|members|] == members;
  }

  /** At turn `t` of a member loop, member `t` has species s, has not been visited yet,
      and holds its phase-`lo` value; its next phase is its escape term, then its force. */
  lemma MemberTurn(norm: Vec2 -> real, ps: seq<Vec2>, species: seq<int>, p: Params, s: int, members: seq<nat>,
                   t: nat, lo: nat, forces: seq<FloatPair>)
    requires NormLike(norm) && ValidParams(p) && |species| == |ps| && 1 <= s <= 8 && lo <= 1
    requires members == IndicesOf(species, s) && t < |members| && |forces| == |ps|
    requires forall a :: 0 <= a < |ps| ==>
               forces[a] == Stage(norm, ps, species, p, s, a, if a in members[..t] then lo + 1 else lo)
    ensures members[t] < |ps| && species[members[t]] == s && members[t] !in members[..t]
    ensures forces[members[t]] == (if lo == 0 then Num(Zero) else Escaped(norm, ps, species, p, members[t]))
    ensures Stage(norm, ps, species, p, s, members[t], lo + 1)
            == if lo == 0 then Escaped(norm, ps, species, p, members[t]) else ForceOf(norm, ps, species, p, members[t])
  {
  }

  /** One turn of a member loop: member `t` moves from phase `lo` to `lo + 1`, and every
      other agent keeps its value. */
  lemma MemberStep(norm: Vec2 -> real, ps: seq<Vec2>, species: seq<int>, p: Params, s: int, members: seq<nat>,
                   t: nat, lo: nat, forces: seq<FloatPair>, forces': seq<FloatPair>)
    requires NormLike(norm) && ValidParams(p) && |species| == |ps| && 1 <= s <= 8
    requires members == IndicesOf(species, s) && t < |members| && |forces| == |ps|
    requires forall a :: 0 <= a < |ps| ==>
               forces[a] == Stage(norm, ps, species, p, s, a, if a in members[..t] then lo + 1 else lo)
    requires forces' == forces[members[t] := Stage(norm, ps, species, p, s, members[t], lo + 1)]
    ensures |forces'| == |ps|
    ensures forall a :: 0 <= a < |ps| ==>
              forces'[a] == Stage(norm, ps, species, p, s, a, if a in members[..t + 1] then lo + 1 else lo)
  {
    assert members[..t + 1] == members[..t] + [members[t]];
  }

  /** `forces[agent_index] += escape_direction * escape_weight` for agent a, when it has a
      predator within reach. */
  method AddEscape(norm: Vec2 -> real, ps: seq<Vec2>, species: seq<int>, p: Params, a: nat, forces0: seq<FloatPair>)
    returns (forces: seq<FloatPair>)
    requires NormLike(norm) && ValidParams(p) && |species| == |ps| && a < |ps| && 1 <= species[a] <= 8
    requires |forces0| == |ps| && forces0[a] == Num(Zero)
    ensures forces == forces0[a := Escaped(norm, ps, species, p, a)]
  {
    var term := EscapeOf(norm, ps, species, p.predatorSpecies[species[a] - 1], a, p.escapeDistance, p.escapeWeight);
    forces := forces0;
    if term.Some? {
      forces := forces[a := AddPair(forces[a], term.value)];
    }
  }

  /** `forces[agent_index] += chase_direction * chase_weight` for agent a, when it has a
      prey within reach. */
  method AddChase(norm: Vec2 -> real, ps: seq<Vec2>, species: seq<int>, p: Params, a: nat, forces0: seq<FloatPair>)
    returns (forces: seq<FloatPair>)
    requires NormLike(norm) && ValidParams(p) && |species| == |ps| && a < |ps| && 1 <= species[a] <= 8
    requires |forces0| == |ps| && forces0[a] == Escaped(norm, ps, species, p, a)
    ensures forces == forces0[a := ForceOf(norm, ps, species, p, a)]
  {
    var term := ChaseOf(norm, ps, species, p.preySpecies[species[a] - 1], a, p.chaseDistance, p.chaseWeight);
    forces := forces0;
    if term.Some? {
      forces := forces[a := AddPair(forces[a], term.value)];
    }
  }

  /** The predator fled from is the nearest agent of the predator species within the
      escape distance, lowest index on ties: the same agent the strict-`<` scan of the
      other kernels would pick over the same candidates. */
  lemma EscapeTargetIsNearest(norm: Vec2 -> real, ps: seq<Vec2>, species: seq<int>, predator: int, a: nat, escapeDistance: real)
    requires NormLike(norm) && a < |ps| && |species| == |ps|
    ensures var row := DistancesFrom(norm, ps, a);
            var cand := CloseOf(row, species, predator, escapeDistance);
            && IsNearest(row, cand, |ps|, FilteredArgMin(row, cand))
            && FilteredArgMin(row, cand) == Scan(row, cand, |ps|, Infinite).index
  {
    var row := DistancesFrom(norm, ps, a);
    FilteredArgMinIsNearest(row, CloseOf(row, species, predator, escapeDistance));
  }

  /** A species listed as its own predator always picks the agent itself (distance 0)
      as the nearest predator when the escape distance is positive, so its escape term is
      NaN. */
  lemma OwnPredatorGivesNaN(norm: Vec2 -> real, ps: seq<Vec2>, species: seq<int>, a: nat, escapeDistance: real, escapeWeight: real)
    requires NormLike(norm) && a < |ps| && |species| == |ps|
    requires 0.0 < escapeDistance
    ensures EscapeOf(norm, ps, species, species[a], a, escapeDistance, escapeWeight) == Some(NaN)
  {
    var row := DistancesFrom(norm, ps, a);
    var cand := CloseOf(row, species, species[a], escapeDistance);
    FilteredArgMinIsNearest(row, cand);
    var k := FilteredArgMin(row, cand);
    assert cand[a];
    assert row[k] <= row[a] == 0.0;
    assert ps[k] == ps[a];
    assert Sub(ps[a], ps[k]) == Zero;
  }
}
