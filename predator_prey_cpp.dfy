/** The C++ predator/prey kernel (`keep/predator_prey.cpp`): a dimension check, then for
    every agent one pass over its row of the distance matrix that skips the agent
    itself, with two independent candidate tests started from the largest float, and
    steering terms divided by an unguarded magnitude. */
module PredatorPreyCpp {
  import opened Common
  import opened Geometry
  import opened Nearest

  /** `std::numeric_limits<float>::max()`, the initial "nearest" distance. */
  const FloatMax: real := 340282346638528859811704183484516925440.0

  /** The shape metadata the kernel checks before touching any buffer. */
  datatype Dims = Dims(positions: nat, distances: nat, species: nat, predatorSpecies: nat, preySpecies: nat)

  predicate DimsOk(d: Dims)
  {
    d.positions == 2 && d.distances == 2 && d.species == 1 && d.predatorSpecies == 1 && d.preySpecies == 1
  }

  /** The candidate test of one branch of the inner loop: not the agent itself, closer
      than the branch's distance, of the branch's target species. The predator and the
      prey branch are independent `if`s, so the same agent may be a candidate of both. */
  function Candidates(row: seq<real>, species: seq<int>, i: nat, target: int, limit: real): (m: seq<bool>)
    requires |species| == |row|
    ensures |m| == |row|
    ensures forall j :: 0 <= j < |row| ==> (m[j] <==> j != i && row[j] < limit && species[j] == target)
  {
    seq(|row|, j requires 0 <= j < |row| => j != i && row[j] < limit && species[j] == target)
  }

  /** `weight * d / magnitude` for the direction `d` from `source` to `target`; when the
      two coincide the magnitude is 0 and the float result is NaN. */
  function SteerTerm(norm: Vec2 -> real, source: Vec2, target: Vec2, weight: real): (r: FloatPair)
    requires NormLike(norm)
    ensures r.NaN? <==> source == target
  {
    var d := Sub(target, source);
    var magnitude := norm(d);
    assert magnitude == 0.0 <==> source == target by {
      assert d == Zero <==> source == target;
    }
    if magnitude == 0.0 then NaN else Num(Div(Scale(d, weight), magnitude))
  }

  /** Outcome of one branch of the inner loop: the index variable (initialised to 0)
      and the running distance (initialised to the largest float). */
  function Chosen(row: seq<real>, cand: seq<bool>): (r: (nat, real))
    requires |cand| == |row|
    ensures r.0 == 0 || (r.0 < |row| && cand[r.0] && r.1 == row[r.0])
    ensures r.1 < FloatMax <==> exists j :: 0 <= j < |row| && cand[j] && row[j] < FloatMax
    ensures r.1 < FloatMax ==> r.0 < |row| && cand[r.0] && r.1 == row[r.0]
    ensures (forall j :: 0 <= j < |row| && cand[j] ==> FloatMax <= row[j]) ==> r == (0, FloatMax)
  {
    FiniteScanIsMaskedScan(row, cand, |row|, FloatMax);
    ScanIsNearest(row, MaskBelow(cand, row, FloatMax), |row|);
    var b := Scan(row, cand, |row|, Finite(FloatMax));
    if b.index == -1 then (0, FloatMax) else (b.index, row[b.index])
  }

  /** The escape part for agent i: applied when the running distance ended below the
      escape distance. */
  function EscapeTerm(norm: Vec2 -> real, ps: seq<Vec2>, row: seq<real>, species: seq<int>, predatorSpecies: seq<int>,
                      i: nat, escapeDistance: real, escapeWeight: real): Option<FloatPair>
    requires NormLike(norm)
    requires |row| == |ps| && |species| == |ps| && i < |ps| && 1 <= species[i] <= |predatorSpecies|
  {
    var (k, d) := Chosen(row, Candidates(row, species, i, predatorSpecies[species[i] - 1], escapeDistance));
    if d < escapeDistance then Some(SteerTerm(norm, ps[k], ps[i], escapeWeight)) else None
  }

  /** The chase part for agent i. */
  function ChaseTerm(norm: Vec2 -> real, ps: seq<Vec2>, row: seq<real>, species: seq<int>, preySpecies: seq<int>,
                     i: nat, chaseDistance: real, chaseWeight: real): Option<FloatPair>
    requires NormLike(norm)
    requires |row| == |ps| && |species| == |ps| && i < |ps| && 1 <= species[i] <= |preySpecies|
  {
    var (k, d) := Chosen(row, Candidates(row, species, i, preySpecies[species[i] - 1], chaseDistance));
    if d < chaseDistance then Some(SteerTerm(norm, ps[i], ps[k], chaseWeight)) else None
  }

  /** The total force on agent i: escape then chase, added to zero. */
  function ForceAt(norm: Vec2 -> real, ps: seq<Vec2>, row: seq<real>, species: seq<int>,
                   predatorSpecies: seq<int>, preySpecies: seq<int>, i: nat,
                   escapeDistance: real, chaseDistance: real, escapeWeight: real, chaseWeight: real): FloatPair
    requires NormLike(norm)
    requires |row| == |ps| && |species| == |ps| && i < |ps|
    requires 1 <= species[i] <= |predatorSpecies| && |predatorSpecies| == |preySpecies|
  {
    AddTerm(AddTerm(Num(Zero), EscapeTerm(norm, ps, row, species, predatorSpecies, i, escapeDistance, escapeWeight)),
            ChaseTerm(norm, ps, row, species, preySpecies, i, chaseDistance, chaseWeight))
  }

  /** Every species value indexes the tables (`species - 1` is read unchecked). */
  ghost predicate SpeciesInTables(species: seq<int>, predatorSpecies: seq<int>, preySpecies: seq<int>)
  {
    |predatorSpecies| == |preySpecies| && forall k :: 0 <= k < |species| ==> 1 <= species[k] <= |predatorSpecies|
  }

  /** The inner `j` loop for agent i: skip `j == i`, then the two independent tests. */
  method ScanRow(row: seq<real>, species: seq<int>, i: nat, predator: int, prey: int, escapeDistance: real, chaseDistance: real)
    returns (nearestPredatorIdx: nat, nearestPredatorDist: real, nearestPreyIdx: nat, nearestPreyDist: real)
    requires |species| == |row|
    ensures (nearestPredatorIdx, nearestPredatorDist) == Chosen(row, Candidates(row, species, i, predator, escapeDistance))
    ensures (nearestPreyIdx, nearestPreyDist) == Chosen(row, Candidates(row, species, i, prey, chaseDistance))
  {
    ghost var predatorMask := Candidates(row, species, i, predator, escapeDistance);
    ghost var preyMask := Candidates(row, species, i, prey, chaseDistance);
    nearestPredatorDist := FloatMax;
    nearestPreyDist := FloatMax;
    nearestPredatorIdx := 0;
    nearestPreyIdx := 0;
    for j := 0 to |row|
      invariant var b := Scan(row, predatorMask, j, Finite(FloatMax));
                nearestPredatorDist == b.dist.value
                && nearestPredatorIdx == (if b.index == -1 then 0 else b.index)
      invariant var b := Scan(row, preyMask, j, Finite(FloatMax));
                nearestPreyDist == b.dist.value
                && nearestPreyIdx == (if b.index == -1 then 0 else b.index)
    {
      if i == j {
        continue;
      }
      var dist := row[j];
      if dist < escapeDistance && species[j] == predator {
        if dist < nearestPredatorDist {
          nearestPredatorDist := dist;
          nearestPredatorIdx := j;
        }
      }
      if dist < chaseDistance && species[j] == prey {
        if dist < nearestPreyDist {
          nearestPreyDist := dist;
          nearestPreyIdx := j;
        }
      }
    }
  }

  /** `predator_prey_forces`: a RuntimeError when any buffer has the wrong number of
      dimensions, otherwise one force per agent. */
  method PredatorPreyForces(norm: Vec2 -> real, dims: Dims, ps: seq<Vec2>, distances: seq<seq<real>>, species: seq<int>,
                            predatorSpecies: seq<int>, preySpecies: seq<int>,
                            escapeDistance: real, chaseDistance: real, escapeWeight: real, chaseWeight: real)
    returns (r: Result<seq<FloatPair>>)
    requires NormLike(norm)
    requires DimsOk(dims) ==> |distances| == |ps| && (forall k :: 0 <= k < |ps| ==> |distances[k]| == |ps|)
                              && |species| == |ps| && SpeciesInTables(species, predatorSpecies, preySpecies)
    ensures !DimsOk(dims) <==> r == Err(RuntimeError)
    ensures DimsOk(dims) ==> r.Ok? && |r.value| == |ps|
    ensures DimsOk(dims) ==> forall i :: 0 <= i < |ps| ==>
              r.value[i] == ForceAt(norm, ps, distances[i], species, predatorSpecies, preySpecies, i,
                                    escapeDistance, chaseDistance, escapeWeight, chaseWeight)
  {
    if !DimsOk(dims) {
      return Err(RuntimeError);
    }
    var totalForce: seq<FloatPair> := [];
    for i := 0 to |ps|
      invariant |totalForce| == i
      invariant forall k :: 0 <= k < i ==>
                  totalForce[k] == ForceAt(norm, ps, distances[k], species, predatorSpecies, preySpecies, k,
                                           escapeDistance, chaseDistance, escapeWeight, chaseWeight)
    {
      var row := distances[i];
      var predator := predatorSpecies[species[i] - 1];
      var prey := preySpecies[species[i] - 1];
      var predatorIdx, predatorDist, preyIdx, preyDist := ScanRow(row, species, i, predator, prey, escapeDistance, chaseDistance);
      var force := Num(Zero);
      if predatorDist < escapeDistance {
        force := AddPair(force, SteerTerm(norm, ps[predatorIdx], ps[i], escapeWeight));
      }
      if preyDist < chaseDistance {
        force := AddPair(force, SteerTerm(norm, ps[i], ps[preyIdx], chaseWeight));
      }
      totalForce := totalForce + [force];
    }
    return Ok(totalForce);
  }

  /** The agent steered away from is the nearest predator candidate other than the agent
      itself (lowest index on ties), whenever some candidate is nearer than the largest
      float. */
  lemma EscapeFromNearestPredator(row: seq<real>, species: seq<int>, i: nat, predator: int, escapeDistance: real)
    requires |species| == |row|
    ensures var cand := Candidates(row, species, i, predator, escapeDistance);
            var k := Scan(row, MaskBelow(cand, row, FloatMax), |row|, Infinite).index;
            && IsNearest(row, MaskBelow(cand, row, FloatMax), |row|, k)
            && (k != -1 ==> Chosen(row, cand).0 == k && k != i)
  {
    var cand := Candidates(row, species, i, predator, escapeDistance);
    FiniteScanIsMaskedScan(row, cand, |row|, FloatMax);
    ScanIsNearest(row, MaskBelow(cand, row, FloatMax), |row|);
  }

  /** With an escape distance no larger than the largest float, the escape term is
      applied exactly when some other agent of the predator species is within the escape
      distance. */
  lemma EscapeAppliedIffCandidate(norm: Vec2 -> real, ps: seq<Vec2>, row: seq<real>, species: seq<int>, predatorSpecies: seq<int>,
                                  i: nat, escapeDistance: real, escapeWeight: real)
    requires NormLike(norm)
    requires |row| == |ps| && |species| == |ps| && i < |ps| && 1 <= species[i] <= |predatorSpecies|
    requires escapeDistance <= FloatMax
    ensures EscapeTerm(norm, ps, row, species, predatorSpecies, i, escapeDistance, escapeWeight).Some?
            <==> exists j :: 0 <= j < |ps| && j != i && row[j] < escapeDistance && species[j] == predatorSpecies[species[i] - 1]
    ensures var k := Scan(row, Candidates(row, species, i, predatorSpecies[species[i] - 1], escapeDistance), |row|, Infinite).index;
            var term := EscapeTerm(norm, ps, row, species, predatorSpecies, i, escapeDistance, escapeWeight);
            term.Some? ==> 0 <= k && term == Some(SteerTerm(norm, ps[k], ps[i], escapeWeight))
  {
    var cand := Candidates(row, species, i, predatorSpecies[species[i] - 1], escapeDistance);
    FiniteScanIsMaskedScan(row, cand, |row|, FloatMax);
    ScanIsNearest(row, MaskBelow(cand, row, FloatMax), |row|);
    assert MaskBelow(cand, row, FloatMax) == cand;
    if exists j :: 0 <= j < |ps| && j != i && row[j] < escapeDistance && species[j] == predatorSpecies[species[i] - 1] {
      var j :| 0 <= j < |ps| && j != i && row[j] < escapeDistance && species[j] == predatorSpecies[species[i] - 1];
      assert MaskBelow(cand, row, FloatMax)[j];
    }
  }

  /** The agent chased is the nearest prey candidate other than the agent itself (lowest
      index on ties), whenever some candidate is nearer than the largest float. */
  lemma ChaseFromNearestPrey(row: seq<real>, species: seq<int>, i: nat, prey: int, chaseDistance: real)
    requires |species| == |row|
    ensures var cand := Candidates(row, species, i, prey, chaseDistance);
            var k := Scan(row, MaskBelow(cand, row, FloatMax), |row|, Infinite).index;
            && IsNearest(row, MaskBelow(cand, row, FloatMax), |row|, k)
            && (k != -1 ==> Chosen(row, cand).0 == k && k != i)
  {
    var cand := Candidates(row, species, i, prey, chaseDistance);
    FiniteScanIsMaskedScan(row, cand, |row|, FloatMax);
    ScanIsNearest(row, MaskBelow(cand, row, FloatMax), |row|);
  }

  /** With a chase distance no larger than the largest float, the chase term is applied
      exactly when some other agent of the prey species is within the chase distance, and
      then it steers towards the nearest such agent; otherwise nothing is added. */
  lemma ChaseAppliedIffCandidate(norm: Vec2 -> real, ps: seq<Vec2>, row: seq<real>, species: seq<int>, preySpecies: seq<int>,
                                 i: nat, chaseDistance: real, chaseWeight: real)
    requires NormLike(norm)
    requires |row| == |ps| && |species| == |ps| && i < |ps| && 1 <= species[i] <= |preySpecies|
    requires chaseDistance <= FloatMax
    ensures var cand := Candidates(row, species, i, preySpecies[species[i] - 1], chaseDistance);
            var k := Scan(row, cand, |row|, Infinite).index;
            var term := ChaseTerm(norm, ps, row, species, preySpecies, i, chaseDistance, chaseWeight);
            && (term.Some? <==> exists j :: 0 <= j < |ps| && j != i && row[j] < chaseDistance && species[j] == preySpecies[species[i] - 1])
            && (term.Some? ==> 0 <= k && term == Some(SteerTerm(norm, ps[i], ps[k], chaseWeight)))
  {
    var cand := Candidates(row, species, i, preySpecies[species[i] - 1], chaseDistance);
    FiniteScanIsMaskedScan(row, cand, |row|, FloatMax);
    ScanIsNearest(row, MaskBelow(cand, row, FloatMax), |row|);
    ScanIsNearest(row, cand, |row|);
    assert MaskBelow(cand, row, FloatMax) == cand;
    if exists j :: 0 <= j < |ps| && j != i && row[j] < chaseDistance && species[j] == preySpecies[species[i] - 1] {
      var j :| 0 <= j < |ps| && j != i && row[j] < chaseDistance && species[j] == preySpecies[species[i] - 1];
      assert cand[j];
    }
  }

  /** An escape distance above the largest float (an infinite one) makes the guard pass
      with no candidate at all, and the agent then steers away from agent 0. */
  lemma InfiniteEscapeFleesAgentZero(norm: Vec2 -> real, ps: seq<Vec2>, row: seq<real>, species: seq<int>, predatorSpecies: seq<int>,
                                     i: nat, escapeDistance: real, escapeWeight: real)
    requires NormLike(norm)
    requires |row| == |ps| && |species| == |ps| && i < |ps| && 1 <= species[i] <= |predatorSpecies|
    requires FloatMax < escapeDistance
    requires forall j :: 0 <= j < |ps| && j != i ==> species[j] != predatorSpecies[species[i] - 1]
    ensures EscapeTerm(norm, ps, row, species, predatorSpecies, i, escapeDistance, escapeWeight)
         == Some(SteerTerm(norm, ps[0], ps[i], escapeWeight))
  {
    var cand := Candidates(row, species, i, predatorSpecies[species[i] - 1], escapeDistance);
    FiniteScanIsMaskedScan(row, cand, |row|, FloatMax);
    ScanIsNearest(row, MaskBelow(cand, row, FloatMax), |row|);
  }

  /** A nearest predator standing on the agent's own position poisons its force with
      NaN. */
  lemma CoincidentPredatorGivesNaN(norm: Vec2 -> real, ps: seq<Vec2>, row: seq<real>, species: seq<int>,
                                   predatorSpecies: seq<int>, preySpecies: seq<int>, i: nat,
                                   escapeDistance: real, chaseDistance: real, escapeWeight: real, chaseWeight: real)
    requires NormLike(norm)
    requires |row| == |ps| && |species| == |ps| && i < |ps|
    requires 1 <= species[i] <= |predatorSpecies| && |predatorSpecies| == |preySpecies|
    requires var (k, d) := Chosen(row, Candidates(row, species, i, predatorSpecies[species[i] - 1], escapeDistance));
             d < escapeDistance && ps[k] == ps[i]
    ensures ForceAt(norm, ps, row, species, predatorSpecies, preySpecies, i,
                    escapeDistance, chaseDistance, escapeWeight, chaseWeight) == NaN
  {
  }

  /** The two tests are independent `if`s: when a species' predator and prey entries
      name the same species and the two distances and weights agree, the same agent is
      both the nearest predator and the nearest prey, and the escape and chase terms
      cancel. */
  lemma CoincidingTablesCancel(norm: Vec2 -> real, ps: seq<Vec2>, row: seq<real>, species: seq<int>,
                               predatorSpecies: seq<int>, preySpecies: seq<int>, i: nat, distance: real, weight: real)
    requires NormLike(norm)
    requires |row| == |ps| && |species| == |ps| && i < |ps|
    requires 1 <= species[i] <= |predatorSpecies| && |predatorSpecies| == |preySpecies|
    requires predatorSpecies[species[i] - 1] == preySpecies[species[i] - 1]
    requires var (k, d) := Chosen(row, Candidates(row, species, i, predatorSpecies[species[i] - 1], distance));
             d < distance && ps[k] != ps[i]
    ensures Chosen(row, Candidates(row, species, i, predatorSpecies[species[i] - 1], distance))
         == Chosen(row, Candidates(row, species, i, preySpecies[species[i] - 1], distance))
    ensures var k := Chosen(row, Candidates(row, species, i, predatorSpecies[species[i] - 1], distance)).0;
            && EscapeTerm(norm, ps, row, species, predatorSpecies, i, distance, weight) == Some(SteerTerm(norm, ps[k], ps[i], weight))
            && ChaseTerm(norm, ps, row, species, preySpecies, i, distance, weight) == Some(SteerTerm(norm, ps[i], ps[k], weight))
    ensures ForceAt(norm, ps, row, species, predatorSpecies, preySpecies, i, distance, distance, weight, weight) == Num(Zero)
  {
    var s := predatorSpecies[species[i] - 1];
    var (k, d) := Chosen(row, Candidates(row, species, i, s, distance));
    var away := Sub(ps[i], ps[k]);
    var towards := Sub(ps[k], ps[i]);
    assert towards == Neg(away);
    var m := norm(away);
    assert m != 0.0 by {
      assert away != Zero;
    }
    assert norm(towards) == m;
    var e := Div(Scale(away, weight), m);
    var c := Div(Scale(towards, weight), m);
    assert SteerTerm(norm, ps[k], ps[i], weight) == Num(e);
    assert SteerTerm(norm, ps[i], ps[k], weight) == Num(c);
    assert Add(Add(Zero, e), c) == Zero;
  }
}
