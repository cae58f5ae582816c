/** The numba force kernel (`numba_simulation.py`): the pairwise distance matrix,
    separation, cohesion, environment confinement, nearest predator/prey steering, their
    sum and the single magnitude clamp. Positions and forces are real pairs; the Euclidean
    norm is the parameter `norm` (see Geometry). */
module NumbaSimulation {
  import opened Common
  import opened Geometry
  import opened Nearest

  /** `n` rows of `n` distances each. */
  ghost predicate IsMatrix(d: seq<seq<real>>, n: nat)
  {
    |d| == n && forall i :: 0 <= i < n ==> |d[i]| == n
  }

  // ---------------------------------------------------------------------------
  // Distance matrix and magnitude clamp (vectorised, so functions)

  /** `calculate_distances`: row i holds the distance from agent i to every agent. */
  function CalculateDistances(norm: Vec2 -> real, ps: seq<Vec2>): (d: seq<seq<real>>)
    requires NormLike(norm)
    ensures IsMatrix(d, |ps|)
    ensures forall i, j :: 0 <= i < |ps| && 0 <= j < |ps| ==> d[i][j] == Distance(norm, ps[i], ps[j])
    ensures forall i :: 0 <= i < |ps| ==> d[i][i] == 0.0
  {
    seq(|ps|, i requires 0 <= i < |ps| =>
      seq(|ps|, j requires 0 <= j < |ps| => Distance(norm, ps[i], ps[j])))
  }

  /** The distance matrix is symmetric. */
  lemma DistancesSymmetric(norm: Vec2 -> real, ps: seq<Vec2>)
    requires NormLike(norm)
    ensures var d := CalculateDistances(norm, ps);
            forall i, j :: 0 <= i < |ps| && 0 <= j < |ps| ==> d[i][j] == d[j][i]
  {
    forall i, j | 0 <= i < |ps| && 0 <= j < |ps|
      ensures Distance(norm, ps[i], ps[j]) == Distance(norm, ps[j], ps[i])
    {
      DistanceSymmetric(norm, ps[i], ps[j]);
    }
  }

  /** `np.minimum(max_magnitude / (magnitude + 1e-5), 1.0)` for one vector. */
  function ClampScale(norm: Vec2 -> real, v: Vec2, maxMagnitude: real): (s: real)
    requires NormLike(norm)
    ensures s <= 1.0
    ensures maxMagnitude >= 0.0 ==> 0.0 <= s
    ensures norm(v) + Epsilon <= maxMagnitude ==> s == 1.0
    ensures maxMagnitude >= 0.0 ==> s * norm(v) <= maxMagnitude
  {
    var n := norm(v);
    var q := maxMagnitude / (n + Epsilon);
    assert n + Epsilon <= maxMagnitude ==> q >= 1.0;
    assert maxMagnitude >= 0.0 ==> (if q < 1.0 then q else 1.0) * n <= maxMagnitude by {
      if maxMagnitude >= 0.0 {
        if q < 1.0 {
          assert q * (n + Epsilon) == maxMagnitude;
          assert q * n <= q * (n + Epsilon);
        } else {
          assert maxMagnitude >= n + Epsilon;
        }
      }
    }
    if q < 1.0 then q else 1.0
  }

  /** `limit_magnitude`: every vector is scaled by its own clamp factor; with a
      non-negative cap none is longer than the cap and none gets longer, and one already
      shorter than the cap by the epsilon margin is returned unchanged. */
  function LimitMagnitude(norm: Vec2 -> real, vs: seq<Vec2>, maxMagnitude: real): (r: seq<Vec2>)
    requires NormLike(norm)
    ensures |r| == |vs|
    ensures forall i :: 0 <= i < |vs| ==> r[i] == Scale(vs[i], ClampScale(norm, vs[i], maxMagnitude))
    ensures maxMagnitude >= 0.0 ==> forall i :: 0 <= i < |vs| ==> norm(r[i]) <= maxMagnitude
    ensures maxMagnitude >= 0.0 ==> forall i :: 0 <= i < |vs| ==> norm(r[i]) <= norm(vs[i])
    ensures forall i :: 0 <= i < |vs| && norm(vs[i]) + Epsilon <= maxMagnitude ==> r[i] == vs[i]
  {
    var r := seq(|vs|, i requires 0 <= i < |vs| => Scale(vs[i], ClampScale(norm, vs[i], maxMagnitude)));
    assert maxMagnitude >= 0.0 ==> forall i :: 0 <= i < |vs| ==> norm(r[i]) <= maxMagnitude && norm(r[i]) <= norm(vs[i]) by {
      if maxMagnitude >= 0.0 {
        forall i | 0 <= i < |vs| ensures norm(r[i]) <= maxMagnitude && norm(r[i]) <= norm(vs[i]) {
          ClampedLength(norm, vs[i], maxMagnitude);
          ScaleShrinks(norm, vs[i], ClampScale(norm, vs[i], maxMagnitude));
        }
      }
    }
    r
  }

  /** The length of a clamped vector is `maxMagnitude * |v| / (|v| + 1e-5)` when the cap
      is below `|v| + 1e-5`, and `|v|` otherwise; with a non-negative cap it never
      exceeds the cap. */
  lemma ClampedLength(norm: Vec2 -> real, v: Vec2, maxMagnitude: real)
    requires NormLike(norm) && maxMagnitude >= 0.0
    ensures norm(Scale(v, ClampScale(norm, v, maxMagnitude)))
         == if maxMagnitude < norm(v) + Epsilon then maxMagnitude * norm(v) / (norm(v) + Epsilon) else norm(v)
    ensures norm(Scale(v, ClampScale(norm, v, maxMagnitude))) <= maxMagnitude
  {
    var s := ClampScale(norm, v, maxMagnitude);
    var n := norm(v);
    assert norm(Scale(v, s)) == s * n;
    if maxMagnitude < n + Epsilon {
      assert maxMagnitude / (n + Epsilon) < 1.0;
      assert s == maxMagnitude / (n + Epsilon);
      QuotientTimes(maxMagnitude, n + Epsilon, n);
    }
  }

  /** `(a / b) * c == a * c / b` for a positive divisor. */
  lemma QuotientTimes(a: real, b: real, c: real)
    requires b > 0.0
    ensures (a / b) * c == a * c / b
  {
    var q := a / b;
    assert q * b == a;
    assert (q * c) * b == a * c;
  }

  // ---------------------------------------------------------------------------
  // Neighbour selection shared by separation and cohesion

  /** The mask `0 < dist < limit` over one row of the distance matrix. */
  function InRange(row: seq<real>, limit: real): (m: seq<bool>)
    ensures |m| == |row|
    ensures forall j :: 0 <= j < |row| ==> (m[j] <==> 0.0 < row[j] < limit)
  {
    seq(|row|, j requires 0 <= j < |row| => 0.0 < row[j] < limit)
  }

  /** Indices j in `[0, upto)` with `0 < row[j] < limit`, in index order. */
  function Neighbours(row: seq<real>, limit: real, upto: nat): (ns: seq<nat>)
    requires upto <= |row|
    ensures forall t :: 0 <= t < |ns| ==> ns[t] < upto && 0.0 < row[ns[t]] < limit
    ensures forall j :: 0 <= j < upto && 0.0 < row[j] < limit ==> j in ns
  {
    Where(InRange(row, limit), upto)
  }

  /** An agent at distance 0 from itself is never its own neighbour, nor is any agent
      sharing its position. */
  lemma SelfIsNeverNeighbour(norm: Vec2 -> real, ps: seq<Vec2>, i: nat, limit: real)
    requires NormLike(norm) && i < |ps|
    ensures var d := CalculateDistances(norm, ps);
            forall j :: 0 <= j < |ps| && ps[j] == ps[i] ==> j !in Neighbours(d[i], limit, |ps|)
  {
  }

  /** With no j in range, the neighbour list is empty. */
  lemma NoNeighbours(row: seq<real>, limit: real)
    requires forall j :: 0 <= j < |row| ==> !(0.0 < row[j] < limit)
    ensures Neighbours(row, limit, |row|) == []
  {
    WhereNone(InRange(row, limit), |row|);
  }

  // ---------------------------------------------------------------------------
  // Separation

  /** `sum of diff / (dist + 1e-5)` over the listed neighbours, in order. */
  function SeparationSum(ps: seq<Vec2>, row: seq<real>, i: nat, ns: seq<nat>): Vec2
    requires i < |ps| && |row| == |ps|
    requires forall t :: 0 <= t < |ns| ==> ns[t] < |ps| && 0.0 < row[ns[t]]
  {
    if |ns| == 0 then Zero
    else
      var j := ns[|ns| - 1];
      Add(SeparationSum(ps, row, i, ns[..|ns| - 1]), Div(Sub(ps[i], ps[j]), row[j] + Epsilon))
  }

  /** The separation force on agent i: the sum scaled by the weight when some neighbour
      qualified, the (zero) sum otherwise. */
  function SeparationAt(ps: seq<Vec2>, row: seq<real>, i: nat, separationDistance: real, separationWeight: real): Vec2
    requires i < |ps| && |row| == |ps|
  {
    var ns := Neighbours(row, separationDistance, |row|);
    var force := SeparationSum(ps, row, i, ns);
    if |ns| > 0 then Scale(force, separationWeight) else force
  }

  /** Extending the scan from `[0, j)` to `[0, j + 1)` adds agent j's term and bumps the
      count exactly when j qualifies. */
  lemma SeparationStep(ps: seq<Vec2>, row: seq<real>, i: nat, limit: real, j: nat)
    requires i < |ps| && |row| == |ps| && j < |ps|
    ensures var before := Neighbours(row, limit, j);
            var after := Neighbours(row, limit, j + 1);
            if 0.0 < row[j] < limit then
              && |after| == |before| + 1
              && SeparationSum(ps, row, i, after) == Add(SeparationSum(ps, row, i, before), Div(Sub(ps[i], ps[j]), row[j] + Epsilon))
            else after == before
  {
    var before := Neighbours(row, limit, j);
    if 0.0 < row[j] < limit {
      assert Neighbours(row, limit, j + 1) == before + [j];
      assert (before + [j])[..|before|] == before;
    }
  }

  /** The inner loop of `separation` for agent i: the sum over qualifying neighbours and
      their count, then the weight applied only when the count is positive. */
  method SeparationOf(ps: seq<Vec2>, row: seq<real>, i: nat, separationDistance: real, separationWeight: real)
    returns (force: Vec2)
    requires i < |ps| && |row| == |ps|
    ensures force == SeparationAt(ps, row, i, separationDistance, separationWeight)
  {
    force := Zero;
    var count := 0;
    for j := 0 to |ps|
      invariant force == SeparationSum(ps, row, i, Neighbours(row, separationDistance, j))
      invariant count == |Neighbours(row, separationDistance, j)|
    {
      SeparationStep(ps, row, i, separationDistance, j);
      var dist := row[j];
      if 0.0 < dist < separationDistance {
        force := Add(force, Div(Sub(ps[i], ps[j]), dist + Epsilon));
        count := count + 1;
      }
    }
    if count > 0 {
      force := Scale(force, separationWeight);
    }
  }

  /** `separation`: one force per agent, each from its own row of the distance matrix. */
  method Separation(ps: seq<Vec2>, distances: seq<seq<real>>, separationDistance: real, separationWeight: real)
    returns (forces: seq<Vec2>)
    requires IsMatrix(distances, |ps|)
    ensures |forces| == |ps|
    ensures forall i :: 0 <= i < |ps| ==> forces[i] == SeparationAt(ps, distances[i], i, separationDistance, separationWeight)
  {
    forces := [];
    for i := 0 to |ps|
      invariant |forces| == i
      invariant forall k :: 0 <= k < i ==> forces[k] == SeparationAt(ps, distances[k], k, separationDistance, separationWeight)
    {
      var force := SeparationOf(ps, distances[i], i, separationDistance, separationWeight);
      forces := forces + [force];
    }
  }

  /** An agent with no neighbour inside the separation distance feels no separation. */
  lemma SeparationZeroWhenIsolated(ps: seq<Vec2>, row: seq<real>, i: nat, separationDistance: real, separationWeight: real)
    requires i < |ps| && |row| == |ps|
    requires forall j :: 0 <= j < |row| ==> !(0.0 < row[j] < separationDistance)
    ensures SeparationAt(ps, row, i, separationDistance, separationWeight) == Zero
  {
    NoNeighbours(row, separationDistance);
  }

  /** Two agents that are each other's only neighbour push each other apart with
      opposite forces. */
  lemma SeparationOfPairIsOpposite(norm: Vec2 -> real, ps: seq<Vec2>, i: nat, j: nat, separationDistance: real, separationWeight: real)
    requires NormLike(norm) && i < |ps| && j < |ps|
    requires var d := CalculateDistances(norm, ps);
             Neighbours(d[i], separationDistance, |ps|) == [j] && Neighbours(d[j], separationDistance, |ps|) == [i]
    ensures var d := CalculateDistances(norm, ps);
            SeparationAt(ps, d[i], i, separationDistance, separationWeight)
            == Scale(SeparationAt(ps, d[j], j, separationDistance, separationWeight), -1.0)
  {
    var d := CalculateDistances(norm, ps);
    DistanceSymmetric(norm, ps[i], ps[j]);
    var k := d[i][j] + Epsilon;
    assert d[j][i] + Epsilon == k;
    assert [j][..0] == [] && [i][..0] == [];
    var a := Div(Sub(ps[i], ps[j]), k);
    var b := Div(Sub(ps[j], ps[i]), k);
    assert SeparationSum(ps, d[i], i, [j]) == Add(Zero, a);
    assert SeparationSum(ps, d[j], j, [i]) == Add(Zero, b);
    assert (ps[i].x - ps[j].x) / k == -((ps[j].x - ps[i].x) / k);
    assert (ps[i].y - ps[j].y) / k == -((ps[j].y - ps[i].y) / k);
  }

  // ---------------------------------------------------------------------------
  // Cohesion

  /** Sum of the positions of the listed agents, in order. */
  function PositionSum(ps: seq<Vec2>, ns: seq<nat>): Vec2
    requires forall t :: 0 <= t < |ns| ==> ns[t] < |ps|
  {
    if |ns| == 0 then Zero else Add(PositionSum(ps, ns[..|ns| - 1]), ps[ns[|ns| - 1]])
  }

  /** The cohesion force on agent i: zero without neighbours, otherwise the weighted
      offset from agent i to the mean position of its neighbours. */
  function CohesionAt(ps: seq<Vec2>, row: seq<real>, i: nat, cohesionDistance: real, cohesionWeight: real): Vec2
    requires i < |ps| && |row| == |ps|
  {
    var ns := Neighbours(row, cohesionDistance, |row|);
    if |ns| > 0 then Scale(Sub(Div(PositionSum(ps, ns), |ns| as real), ps[i]), cohesionWeight)
    else Zero
  }

  /** The inner loop of `cohesion` for agent i: the neighbours' centre and count, then
      the weighted offset when the count is positive. */
  method CohesionOf(ps: seq<Vec2>, row: seq<real>, i: nat, cohesionDistance: real, cohesionWeight: real)
    returns (force: Vec2)
    requires i < |ps| && |row| == |ps|
    ensures force == CohesionAt(ps, row, i, cohesionDistance, cohesionWeight)
  {
    var center := Zero;
    var count := 0;
    for j := 0 to |ps|
      invariant center == PositionSum(ps, Neighbours(row, cohesionDistance, j))
      invariant count == |Neighbours(row, cohesionDistance, j)|
    {
      var dist := row[j];
      if 0.0 < dist < cohesionDistance {
        ghost var before := Neighbours(row, cohesionDistance, j);
        assert Neighbours(row, cohesionDistance, j + 1) == before + [j];
        assert (before + [j])[..|before|] == before;
        center := Add(center, ps[j]);
        count := count + 1;
      } else {
        assert Neighbours(row, cohesionDistance, j + 1) == Neighbours(row, cohesionDistance, j);
      }
    }
    force := Zero;
    if count > 0 {
      center := Div(center, count as real);
      force := Scale(Sub(center, ps[i]), cohesionWeight);
    }
  }

  /** `cohesion`: one force per agent. */
  method Cohesion(ps: seq<Vec2>, distances: seq<seq<real>>, cohesionDistance: real, cohesionWeight: real)
    returns (forces: seq<Vec2>)
    requires IsMatrix(distances, |ps|)
    ensures |forces| == |ps|
    ensures forall i :: 0 <= i < |ps| ==> forces[i] == CohesionAt(ps, distances[i], i, cohesionDistance, cohesionWeight)
  {
    forces := [];
    for i := 0 to |ps|
      invariant |forces| == i
      invariant forall k :: 0 <= k < i ==> forces[k] == CohesionAt(ps, distances[k], k, cohesionDistance, cohesionWeight)
    {
      var force := CohesionOf(ps, distances[i], i, cohesionDistance, cohesionWeight);
      forces := forces + [force];
    }
  }

  /** An agent whose only neighbour is j is pulled straight towards j. */
  lemma CohesionTowardsSingleNeighbour(ps: seq<Vec2>, row: seq<real>, i: nat, j: nat, cohesionDistance: real, cohesionWeight: real)
    requires i < |ps| && |row| == |ps| && j < |ps|
    requires Neighbours(row, cohesionDistance, |row|) == [j]
    ensures CohesionAt(ps, row, i, cohesionDistance, cohesionWeight) == Scale(Sub(ps[j], ps[i]), cohesionWeight)
  {
    assert [j][..0] == [];
    assert PositionSum(ps, [j]) == Add(Zero, ps[j]);
  }

  // ---------------------------------------------------------------------------
  // Environment forces (vectorised, so functions)

  /** `to_center / (distance + 1e-5)`. */
  function TowardsCenter(norm: Vec2 -> real, p: Vec2, worldCenter: Vec2): Vec2
    requires NormLike(norm)
  {
    var toCenter := Sub(worldCenter, p);
    Div(toCenter, norm(toCenter) + Epsilon)
  }

  /** The confinement term: zero while the agent is within the world radius, otherwise
      `confinement_weight * (distance - radius)` along the direction to the centre. */
  function Confinement(norm: Vec2 -> real, p: Vec2, worldCenter: Vec2, worldRadius: real, confinementWeight: real): (f: Vec2)
    requires NormLike(norm)
    ensures norm(Sub(worldCenter, p)) <= worldRadius ==> f == Zero
    ensures norm(Sub(worldCenter, p)) > worldRadius
            ==> f == Scale(TowardsCenter(norm, p, worldCenter), confinementWeight * (norm(Sub(worldCenter, p)) - worldRadius))
  {
    var distance := norm(Sub(worldCenter, p));
    var outside: real := if distance > worldRadius then 1.0 else 0.0;
    var f := Scale(TowardsCenter(norm, p, worldCenter), outside * confinementWeight * (distance - worldRadius));
    assert outside == 0.0 ==> f == Zero;
    f
  }

  /** The rotation term: the counter-clockwise normal `(-dy, dx)` of the vector to the
      centre, normalised and scaled; it is perpendicular to that vector. */
  function Rotation(norm: Vec2 -> real, p: Vec2, worldCenter: Vec2, rotationStrength: real): (f: Vec2)
    requires NormLike(norm)
    ensures Dot(f, Sub(worldCenter, p)) == 0.0
  {
    var toCenter := Sub(worldCenter, p);
    var normal := Vec2(-toCenter.y, toCenter.x);
    var k := rotationStrength / (norm(normal) + Epsilon);
    assert Dot(Scale(Div(normal, norm(normal) + Epsilon), rotationStrength), toCenter) == 0.0 by {
      var n := norm(normal) + Epsilon;
      var a, b := -toCenter.y / n * rotationStrength, toCenter.x / n * rotationStrength;
      assert a == -(toCenter.y * k) && b == toCenter.x * k;
      assert a * toCenter.x + b * toCenter.y == k * (toCenter.x * toCenter.y - toCenter.y * toCenter.x);
    }
    Scale(Div(normal, norm(normal) + Epsilon), rotationStrength)
  }

  /** `environment_forces` for one agent: centre attraction + confinement + rotation. */
  function EnvironmentForce(norm: Vec2 -> real, p: Vec2, worldCenter: Vec2, worldRadius: real,
                            centerAttractionWeight: real, confinementWeight: real, rotationStrength: real): Vec2
    requires NormLike(norm)
  {
    var center := Scale(TowardsCenter(norm, p, worldCenter), centerAttractionWeight);
    Add(Add(center, Confinement(norm, p, worldCenter, worldRadius, confinementWeight)),
        Rotation(norm, p, worldCenter, rotationStrength))
  }

  /** `environment_forces`, one entry per agent. */
  function EnvironmentForces(norm: Vec2 -> real, ps: seq<Vec2>, worldCenter: Vec2, worldRadius: real,
                             centerAttractionWeight: real, confinementWeight: real, rotationStrength: real): (fs: seq<Vec2>)
    requires NormLike(norm)
    ensures |fs| == |ps|
    ensures forall i :: 0 <= i < |ps| ==>
              fs[i] == EnvironmentForce(norm, ps[i], worldCenter, worldRadius, centerAttractionWeight, confinementWeight, rotationStrength)
  {
    seq(|ps|, i requires 0 <= i < |ps| =>
      EnvironmentForce(norm, ps[i], worldCenter, worldRadius, centerAttractionWeight, confinementWeight, rotationStrength))
  }

  /** Inside the world radius the environment force is centre attraction plus rotation
      only. */
  lemma EnvironmentInsideRadius(norm: Vec2 -> real, p: Vec2, worldCenter: Vec2, worldRadius: real,
                                centerAttractionWeight: real, confinementWeight: real, rotationStrength: real)
    requires NormLike(norm)
    requires norm(Sub(worldCenter, p)) <= worldRadius
    ensures EnvironmentForce(norm, p, worldCenter, worldRadius, centerAttractionWeight, confinementWeight, rotationStrength)
         == Add(Scale(TowardsCenter(norm, p, worldCenter), centerAttractionWeight), Rotation(norm, p, worldCenter, rotationStrength))
  {
  }

  // ---------------------------------------------------------------------------
  // Predator / prey

  /** `predator_species[species[i] - 1]`: numba wraps the negative index of species 0 down
      to -7 to the end of the 8-entry table. */
  function TableAt(table: seq<int>, s: int): int
    requires |table| == 8 && -7 <= s <= 8
  {
    table[PyIndex(s - 1, 8)]
  }

  /** Candidates for "predator": the predator species, closer than the escape distance. */
  function PredatorMask(row: seq<real>, allSpecies: seq<int>, predator: int, escapeDistance: real): (m: seq<bool>)
    requires |allSpecies| == |row|
    ensures |m| == |row|
    ensures forall j :: 0 <= j < |row| ==> (m[j] <==> allSpecies[j] == predator && row[j] < escapeDistance)
  {
    seq(|row|, j requires 0 <= j < |row| => allSpecies[j] == predator && row[j] < escapeDistance)
  }

  /** Candidates for "prey" under the `elif`: an agent that already counted as a predator
      candidate is never also a prey candidate. */
  function PreyMask(row: seq<real>, allSpecies: seq<int>, predator: int, escapeDistance: real, prey: int, chaseDistance: real): (m: seq<bool>)
    requires |allSpecies| == |row|
    ensures |m| == |row|
    ensures forall j :: 0 <= j < |row| ==>
              (m[j] <==> !(allSpecies[j] == predator && row[j] < escapeDistance) && allSpecies[j] == prey && row[j] < chaseDistance)
    ensures forall j :: 0 <= j < |row| ==> !(m[j] && PredatorMask(row, allSpecies, predator, escapeDistance)[j])
  {
    seq(|row|, j requires 0 <= j < |row| =>
      !(allSpecies[j] == predator && row[j] < escapeDistance) && allSpecies[j] == prey && row[j] < chaseDistance)
  }

  /** A unit vector from `source` to `target` scaled by `weight`, or zero when the two
      coincide (the `norm > 0` guard). */
  function Steer(norm: Vec2 -> real, source: Vec2, target: Vec2, weight: real): (f: Vec2)
    requires NormLike(norm)
    ensures source == target ==> f == Zero
  {
    var dir := Sub(target, source);
    var norm := norm(dir);
    if norm > 0.0 then Scale(Div(dir, norm), weight) else Zero
  }

  /** The predator agent i flees from: the nearest one of its predator species inside the
      escape distance, lowest index on ties, or -1. */
  function NearestPredator(ps: seq<Vec2>, row: seq<real>, species: seq<int>, allSpecies: seq<int>,
                           predatorSpecies: seq<int>, i: nat, escapeDistance: real): (k: int)
    requires |row| == |ps| && |allSpecies| == |ps| && i < |species| && |predatorSpecies| == 8
    requires -7 <= species[i] <= 8
    ensures IsNearest(row, PredatorMask(row, allSpecies, TableAt(predatorSpecies, species[i]), escapeDistance), |row|, k)
  {
    var mask := PredatorMask(row, allSpecies, TableAt(predatorSpecies, species[i]), escapeDistance);
    ScanIsNearest(row, mask, |row|);
    Scan(row, mask, |row|, Infinite).index
  }

  /** The prey agent i chases: the nearest prey-species candidate left by the `elif`. */
  function NearestPrey(ps: seq<Vec2>, row: seq<real>, species: seq<int>, allSpecies: seq<int>,
                       predatorSpecies: seq<int>, preySpecies: seq<int>, i: nat,
                       escapeDistance: real, chaseDistance: real): (k: int)
    requires |row| == |ps| && |allSpecies| == |ps| && i < |species| && |predatorSpecies| == 8 && |preySpecies| == 8
    requires -7 <= species[i] <= 8
    ensures IsNearest(row, PreyMask(row, allSpecies, TableAt(predatorSpecies, species[i]), escapeDistance,
                                    TableAt(preySpecies, species[i]), chaseDistance), |row|, k)
  {
    var mask := PreyMask(row, allSpecies, TableAt(predatorSpecies, species[i]), escapeDistance,
                         TableAt(preySpecies, species[i]), chaseDistance);
    ScanIsNearest(row, mask, |row|);
    Scan(row, mask, |row|, Infinite).index
  }

  /** The predator/prey force on agent i: escape from the nearest predator, then chase
      the nearest prey, each only when there is one. */
  function PredatorPreyAt(norm: Vec2 -> real, ps: seq<Vec2>, row: seq<real>, species: seq<int>, allSpecies: seq<int>,
                          predatorSpecies: seq<int>, preySpecies: seq<int>, i: nat,
                          escapeDistance: real, chaseDistance: real, escapeWeight: real, chaseWeight: real): Vec2
    requires NormLike(norm)
    requires |row| == |ps| && |allSpecies| == |ps| && i < |ps| && i < |species| && |predatorSpecies| == 8 && |preySpecies| == 8
    requires -7 <= species[i] <= 8
  {
    var predator := NearestPredator(ps, row, species, allSpecies, predatorSpecies, i, escapeDistance);
    var prey := NearestPrey(ps, row, species, allSpecies, predatorSpecies, preySpecies, i, escapeDistance, chaseDistance);
    var escaped := if predator != -1 then Add(Zero, Steer(norm, ps[predator], ps[i], escapeWeight)) else Zero;
    if prey != -1 then Add(escaped, Steer(norm, ps[i], ps[prey], chaseWeight)) else escaped
  }

  /** Species values for which the table lookup `species - 1` is defined. */
  ghost predicate SpeciesIndexable(species: seq<int>)
  {
    forall k :: 0 <= k < |species| ==> -7 <= species[k] <= 8
  }

  /** The inner loop of `predator_prey_forces` for agent i: one pass over its row,
      tracking the nearest predator and (under `elif`) the nearest prey with strict `<`
      against `np.inf`. */
  method NearestPredatorAndPrey(ps: seq<Vec2>, row: seq<real>, species: seq<int>, allSpecies: seq<int>,
                                predatorSpecies: seq<int>, preySpecies: seq<int>, i: nat,
                                escapeDistance: real, chaseDistance: real)
    returns (nearestPredator: int, nearestPrey: int)
    requires |row| == |ps| && |allSpecies| == |ps| && i < |species| && |predatorSpecies| == 8 && |preySpecies| == 8
    requires -7 <= species[i] <= 8
    ensures nearestPredator == NearestPredator(ps, row, species, allSpecies, predatorSpecies, i, escapeDistance)
    ensures nearestPrey == NearestPrey(ps, row, species, allSpecies, predatorSpecies, preySpecies, i, escapeDistance, chaseDistance)
  {
    var predator := TableAt(predatorSpecies, species[i]);
    var prey := TableAt(preySpecies, species[i]);
    ghost var predatorMask := PredatorMask(row, allSpecies, predator, escapeDistance);
    ghost var preyMask := PreyMask(row, allSpecies, predator, escapeDistance, prey, chaseDistance);

    var nearestPredatorDist: Bound := Infinite;
    var nearestPreyDist: Bound := Infinite;
    nearestPredator := -1;
    nearestPrey := -1;

    for j := 0 to |row|
      invariant Best(nearestPredator, nearestPredatorDist) == Scan(row, predatorMask, j, Infinite)
      invariant Best(nearestPrey, nearestPreyDist) == Scan(row, preyMask, j, Infinite)
    {
      var dist := row[j];
      if allSpecies[j] == predator && dist < escapeDistance {
        if Below(dist, nearestPredatorDist) {
          nearestPredatorDist := Finite(dist);
          nearestPredator := j;
        }
      } else if allSpecies[j] == prey && dist < chaseDistance {
        if Below(dist, nearestPreyDist) {
          nearestPreyDist := Finite(dist);
          nearestPrey := j;
        }
      }
    }
  }

  /** The force computation of `predator_prey_forces` for agent i: each term is added
      only when there is a candidate and the direction to it has positive norm. */
  method PredatorPreyOf(norm: Vec2 -> real, ps: seq<Vec2>, row: seq<real>, species: seq<int>, allSpecies: seq<int>,
                        predatorSpecies: seq<int>, preySpecies: seq<int>, i: nat,
                        escapeDistance: real, chaseDistance: real, escapeWeight: real, chaseWeight: real)
    returns (force: Vec2)
    requires NormLike(norm)
    requires |row| == |ps| && |allSpecies| == |ps| && i < |ps| && i < |species| && |predatorSpecies| == 8 && |preySpecies| == 8
    requires -7 <= species[i] <= 8
    ensures force == PredatorPreyAt(norm, ps, row, species, allSpecies, predatorSpecies, preySpecies, i,
                                    escapeDistance, chaseDistance, escapeWeight, chaseWeight)
  {
    var nearestPredator, nearestPrey := NearestPredatorAndPrey(ps, row, species, allSpecies, predatorSpecies, preySpecies, i,
                                                               escapeDistance, chaseDistance);
    force := Zero;
    if nearestPredator != -1 {
      force := Add(force, Steer(norm, ps[nearestPredator], ps[i], escapeWeight));
    }
    if nearestPrey != -1 {
      force := Add(force, Steer(norm, ps[i], ps[nearestPrey], chaseWeight));
    }
  }

  /** `predator_prey_forces`: one force per agent. */
  method PredatorPreyForces(norm: Vec2 -> real, ps: seq<Vec2>, distances: seq<seq<real>>, species: seq<int>, allSpecies: seq<int>,
                            predatorSpecies: seq<int>, preySpecies: seq<int>,
                            escapeDistance: real, chaseDistance: real, escapeWeight: real, chaseWeight: real)
    returns (forces: seq<Vec2>)
    requires NormLike(norm)
    requires IsMatrix(distances, |ps|) && |species| == |ps| && |allSpecies| == |ps|
    requires |predatorSpecies| == 8 && |preySpecies| == 8 && SpeciesIndexable(species)
    ensures |forces| == |ps|
    ensures forall i :: 0 <= i < |ps| ==>
              forces[i] == PredatorPreyAt(norm, ps, distances[i], species, allSpecies, predatorSpecies, preySpecies, i,
                                          escapeDistance, chaseDistance, escapeWeight, chaseWeight)
  {
    forces := [];
    for i := 0 to |ps|
      invariant forces == PredatorPreyRows(norm, ps, distances, species, allSpecies, predatorSpecies, preySpecies, i,
                                           escapeDistance, chaseDistance, escapeWeight, chaseWeight)
    {
      var force := PredatorPreyOf(norm, ps, distances[i], species, allSpecies, predatorSpecies, preySpecies, i,
                                  escapeDistance, chaseDistance, escapeWeight, chaseWeight);
      forces := forces + [force];
    }
  }

  /** The predator/prey forces of agents `[0, n)`, in order. */
  ghost function PredatorPreyRows(norm: Vec2 -> real, ps: seq<Vec2>, distances: seq<seq<real>>, species: seq<int>, allSpecies: seq<int>,
                                  predatorSpecies: seq<int>, preySpecies: seq<int>, n: nat,
                                  escapeDistance: real, chaseDistance: real, escapeWeight: real, chaseWeight: real): (r: seq<Vec2>)
    requires NormLike(norm)
    requires IsMatrix(distances, |ps|) && |species| == |ps| && |allSpecies| == |ps| && n <= |ps|
    requires |predatorSpecies| == 8 && |preySpecies| == 8 && SpeciesIndexable(species)
    ensures |r| == n
    ensures forall k :: 0 <= k < n ==>
              r[k] == PredatorPreyAt(norm, ps, distances[k], species, allSpecies, predatorSpecies, preySpecies, k,
                                     escapeDistance, chaseDistance, escapeWeight, chaseWeight)
  {
    if n == 0 then []
    else
      PredatorPreyRows(norm, ps, distances, species, allSpecies, predatorSpecies, preySpecies, n - 1,
                       escapeDistance, chaseDistance, escapeWeight, chaseWeight)
      + [PredatorPreyAt(norm, ps, distances[n - 1], species, allSpecies, predatorSpecies, preySpecies, n - 1,
                        escapeDistance, chaseDistance, escapeWeight, chaseWeight)]
  }

  /** An agent with no predator candidate and no prey candidate feels no predator/prey
      force. */
  lemma PredatorPreyZeroWithoutCandidates(norm: Vec2 -> real, ps: seq<Vec2>, row: seq<real>, species: seq<int>, allSpecies: seq<int>,
                                          predatorSpecies: seq<int>, preySpecies: seq<int>, i: nat,
                                          escapeDistance: real, chaseDistance: real, escapeWeight: real, chaseWeight: real)
    requires NormLike(norm)
    requires |row| == |ps| && |allSpecies| == |ps| && i < |ps| && i < |species| && |predatorSpecies| == 8 && |preySpecies| == 8
    requires -7 <= species[i] <= 8
    requires forall j :: 0 <= j < |ps| ==> !(allSpecies[j] == TableAt(predatorSpecies, species[i]) && row[j] < escapeDistance)
    requires forall j :: 0 <= j < |ps| ==> !(allSpecies[j] == TableAt(preySpecies, species[i]) && row[j] < chaseDistance)
    ensures PredatorPreyAt(norm, ps, row, species, allSpecies, predatorSpecies, preySpecies, i,
                           escapeDistance, chaseDistance, escapeWeight, chaseWeight) == Zero
  {
  }

  // ---------------------------------------------------------------------------
  // The whole kernel

  /** The configured scalars and species tables the kernel is called with. */
  datatype KernelParams = KernelParams(
    worldCenter: Vec2, worldRadius: real,
    separationDistance: real, cohesionDistance: real,
    separationWeight: real, cohesionWeight: real,
    centerAttractionWeight: real, confinementWeight: real,
    rotationStrength: real, maxForce: real,
    predatorSpecies: seq<int>, preySpecies: seq<int>,
    escapeDistance: real, chaseDistance: real,
    escapeWeight: real, chaseWeight: real)

  ghost predicate ValidParams(p: KernelParams)
  {
    |p.predatorSpecies| == 8 && |p.preySpecies| == 8
  }

  /** The unclamped sum on agent i given its row of the distance matrix: separation +
      cohesion + environment + predator/prey. */
  function ForceSum(norm: Vec2 -> real, ps: seq<Vec2>, row: seq<real>, species: seq<int>, p: KernelParams, i: nat): Vec2
    requires NormLike(norm) && ValidParams(p)
    requires i < |ps| && |row| == |ps| && |species| == |ps| && -7 <= species[i] <= 8
  {
    Add(Add(Add(SeparationAt(ps, row, i, p.separationDistance, p.separationWeight),
                CohesionAt(ps, row, i, p.cohesionDistance, p.cohesionWeight)),
            EnvironmentForce(norm, ps[i], p.worldCenter, p.worldRadius, p.centerAttractionWeight, p.confinementWeight, p.rotationStrength)),
        PredatorPreyAt(norm, ps, row, species, species, p.predatorSpecies, p.preySpecies, i,
                       p.escapeDistance, p.chaseDistance, p.escapeWeight, p.chaseWeight))
  }

  /** The unclamped total on agent i. */
  function TotalForceAt(norm: Vec2 -> real, ps: seq<Vec2>, species: seq<int>, p: KernelParams, i: nat): Vec2
    requires NormLike(norm) && ValidParams(p)
    requires i < |ps| && |species| == |ps| && SpeciesIndexable(species)
  {
    ForceSum(norm, ps, CalculateDistances(norm, ps)[i], species, p, i)
  }

  /** `_calculate_forces_numba`: the four terms summed, then clamped once; the result has
      one force per agent, each the total scaled by its clamp factor, and with a
      non-negative cap no force is longer than `max_force` or than its unclamped total. */
  method CalculateForces(norm: Vec2 -> real, ps: seq<Vec2>, species: seq<int>, p: KernelParams) returns (forces: seq<Vec2>)
    requires NormLike(norm) && ValidParams(p)
    requires |species| == |ps| && SpeciesIndexable(species)
    ensures |forces| == |ps|
    ensures forall i :: 0 <= i < |ps| ==>
              var total := TotalForceAt(norm, ps, species, p, i);
              forces[i] == Scale(total, ClampScale(norm, total, p.maxForce))
    ensures p.maxForce >= 0.0 ==> forall i :: 0 <= i < |ps| ==> norm(forces[i]) <= p.maxForce
    ensures p.maxForce >= 0.0 ==> forall i :: 0 <= i < |ps| ==> norm(forces[i]) <= norm(TotalForceAt(norm, ps, species, p, i))
  {
    var distances := CalculateDistances(norm, ps);
    var sepForces := Separation(ps, distances, p.separationDistance, p.separationWeight);
    var cohForces := Cohesion(ps, distances, p.cohesionDistance, p.cohesionWeight);
    var envForces := EnvironmentForces(norm, ps, p.worldCenter, p.worldRadius,
                                       p.centerAttractionWeight, p.confinementWeight, p.rotationStrength);
    var predPreyForces := PredatorPreyForces(norm, ps, distances, species, species, p.predatorSpecies, p.preySpecies,
                                             p.escapeDistance, p.chaseDistance, p.escapeWeight, p.chaseWeight);
    var totalForces := seq(|ps|, i requires 0 <= i < |ps| =>
      Add(Add(Add(sepForces[i], cohForces[i]), envForces[i]), predPreyForces[i]));
    assert forall i :: 0 <= i < |ps| ==> totalForces[i] == TotalForceAt(norm, ps, species, p, i);
    forces := LimitMagnitude(norm, totalForces, p.maxForce);
  }

  /** An agent with nobody inside any threshold receives only the environment force
      (before the clamp). */
  lemma IsolatedAgentFeelsOnlyEnvironment(norm: Vec2 -> real, ps: seq<Vec2>, row: seq<real>, species: seq<int>, p: KernelParams, i: nat)
    requires NormLike(norm) && ValidParams(p)
    requires i < |ps| && |row| == |ps| && |species| == |ps| && -7 <= species[i] <= 8
    requires forall j :: 0 <= j < |ps| ==>
               && !(0.0 < row[j] < p.separationDistance)
               && !(0.0 < row[j] < p.cohesionDistance)
               && !(species[j] == TableAt(p.predatorSpecies, species[i]) && row[j] < p.escapeDistance)
               && !(species[j] == TableAt(p.preySpecies, species[i]) && row[j] < p.chaseDistance)
    ensures ForceSum(norm, ps, row, species, p, i)
         == EnvironmentForce(norm, ps[i], p.worldCenter, p.worldRadius, p.centerAttractionWeight, p.confinementWeight, p.rotationStrength)
  {
    SeparationZeroWhenIsolated(ps, row, i, p.separationDistance, p.separationWeight);
    NoNeighbours(row, p.cohesionDistance);
    PredatorPreyZeroWithoutCandidates(norm, ps, row, species, species, p.predatorSpecies, p.preySpecies, i,
                                      p.escapeDistance, p.chaseDistance, p.escapeWeight, p.chaseWeight);
    AddZeros(SeparationAt(ps, row, i, p.separationDistance, p.separationWeight),
             CohesionAt(ps, row, i, p.cohesionDistance, p.cohesionWeight),
             EnvironmentForce(norm, ps[i], p.worldCenter, p.worldRadius, p.centerAttractionWeight, p.confinementWeight, p.rotationStrength),
             PredatorPreyAt(norm, ps, row, species, species, p.predatorSpecies, p.preySpecies, i,
                            p.escapeDistance, p.chaseDistance, p.escapeWeight, p.chaseWeight));
  }

  /** Three zero terms around `e` leave `e`. */
  lemma AddZeros(a: Vec2, b: Vec2, e: Vec2, c: Vec2)
    requires a == Zero && b == Zero && c == Zero
    ensures Add(Add(Add(a, b), e), c) == e
  {
  }
}
