/** The "nearest predator / nearest prey" selection shared by the three force kernels.
    Each kernel builds a candidate mask (which agents of the right species are close
    enough) and then picks one candidate; the kernels differ in the mask and in how they
    pick, and this module proves that every way of picking they use yields the same
    agent: the lowest-index candidate at minimal distance. */
module Nearest {
  import opened Common

  /** The running best distance of a scan: numba starts from `np.inf`, the C++ kernel
      from the largest float. */
  datatype Bound = Infinite | Finite(value: real)

  predicate Below(d: real, b: Bound)
  {
    b.Infinite? || d < b.value
  }

  /** Index and distance of the best candidate so far; index -1 means none. */
  datatype Best = Best(index: int, dist: Bound)

  /** The explicit loop of the kernels over j in `[0, upto)`: a candidate replaces the
      current best only when it is strictly closer. */
  function Scan(dist: seq<real>, cand: seq<bool>, upto: nat, init: Bound): (b: Best)
    requires |cand| == |dist| && upto <= |dist|
    ensures -1 <= b.index < upto
    ensures b.index == -1 ==> b.dist == init
    ensures b.index >= 0 ==> cand[b.index] && b.dist == Finite(dist[b.index])
  {
    if upto == 0 then Best(-1, init)
    else
      var b := Scan(dist, cand, upto - 1, init);
      if cand[upto - 1] && Below(dist[upto - 1], b.dist) then Best(upto - 1, Finite(dist[upto - 1]))
      else b
  }

  /** The reference meaning of "nearest" over `[0, upto)`: `k` is the candidate of least
      distance with the lowest index among equally near ones, or -1 when there is no
      candidate at all. */
  ghost predicate IsNearest(dist: seq<real>, cand: seq<bool>, upto: nat, k: int)
    requires |cand| == |dist| && upto <= |dist|
  {
    if k == -1 then forall j :: 0 <= j < upto ==> !cand[j]
    else
      && 0 <= k < upto
      && cand[k]
      && (forall j :: 0 <= j < upto && cand[j] ==> dist[k] <= dist[j])
      && (forall j :: 0 <= j < k && cand[j] ==> dist[k] < dist[j])
  }

  /** Started from an infinite bound, the strict-`<` scan picks exactly the nearest
      candidate with the lowest-index tie-break. */
  lemma {:induction false} ScanIsNearest(dist: seq<real>, cand: seq<bool>, upto: nat)
    requires |cand| == |dist| && upto <= |dist|
    ensures IsNearest(dist, cand, upto, Scan(dist, cand, upto, Infinite).index)
  {
    if upto > 0 {
      ScanIsNearest(dist, cand, upto - 1);
    }
  }

  /** At most one index is the nearest, so any two selections meeting `IsNearest` agree. */
  lemma NearestIsUnique(dist: seq<real>, cand: seq<bool>, upto: nat, k1: int, k2: int)
    requires |cand| == |dist| && upto <= |dist|
    requires IsNearest(dist, cand, upto, k1) && IsNearest(dist, cand, upto, k2)
    ensures k1 == k2
  {
  }

  /** The candidates that are also strictly below `limit`. */
  function MaskBelow(cand: seq<bool>, dist: seq<real>, limit: real): (m: seq<bool>)
    requires |cand| == |dist|
    ensures |m| == |cand|
    ensures forall j :: 0 <= j < |m| ==> (m[j] <==> cand[j] && dist[j] < limit)
  {
    seq(|cand|, j requires 0 <= j < |cand| => cand[j] && dist[j] < limit)
  }

  /** A scan started from a finite sentinel behaves as an unbounded scan over the
      candidates that beat the sentinel; it reports the sentinel when none does. */
  lemma {:induction false} FiniteScanIsMaskedScan(dist: seq<real>, cand: seq<bool>, upto: nat, sentinel: real)
    requires |cand| == |dist| && upto <= |dist|
    ensures Scan(dist, cand, upto, Finite(sentinel)).index
         == Scan(dist, MaskBelow(cand, dist, sentinel), upto, Infinite).index
  {
    if upto > 0 {
      FiniteScanIsMaskedScan(dist, cand, upto - 1, sentinel);
    }
  }

  /** `np.argmin`: the first position of the least value. */
  function ArgMin(ds: seq<real>): (k: nat)
    requires |ds| > 0
    ensures k < |ds|
    ensures forall j :: 0 <= j < |ds| ==> ds[k] <= ds[j]
    ensures forall j :: 0 <= j < k ==> ds[k] < ds[j]
  {
    if |ds| == 1 then 0
    else
      var k := ArgMin(ds[..|ds| - 1]);
      if ds[|ds| - 1] < ds[k] then |ds| - 1 else k
  }

  /** The selection of the per-species numba kernel: filter the candidates in index
      order, take the arg-min of their distances, map it back to an agent index. */
  function FilteredArgMin(dist: seq<real>, cand: seq<bool>): (k: int)
    requires |cand| == |dist|
  {
    var idx := Where(cand, |cand|);
    if |idx| == 0 then -1
    else idx[ArgMin(seq(|idx|, t requires 0 <= t < |idx| => dist[idx[t]]))]
  }

  /** Arg-min over the index-ordered filter meets the reference meaning of "nearest". */
  lemma FilteredArgMinMeetsNearest(dist: seq<real>, cand: seq<bool>)
    requires |cand| == |dist|
    ensures IsNearest(dist, cand, |dist|, FilteredArgMin(dist, cand))
  {
    if |Where(cand, |cand|)| > 0 {
      FilteredArgMinIsLeast(dist, cand);
      FilteredArgMinIsFirst(dist, cand);
    }
  }

  /** The filtered arg-min is no farther than any candidate. */
  lemma FilteredArgMinIsLeast(dist: seq<real>, cand: seq<bool>)
    requires |cand| == |dist| && |Where(cand, |cand|)| > 0
    ensures var k := FilteredArgMin(dist, cand);
            0 <= k < |dist| && cand[k] && forall j :: 0 <= j < |dist| && cand[j] ==> dist[k] <= dist[j]
  {
    var idx := Where(cand, |cand|);
    var ds := seq(|idx|, t requires 0 <= t < |idx| => dist[idx[t]]);
    var k := idx[ArgMin(ds)];
    forall j | 0 <= j < |dist| && cand[j]
      ensures dist[k] <= dist[j]
    {
      var t :| 0 <= t < |idx| && idx[t] == j;
      assert ds[t] == dist[j];
    }
  }

  /** In a strictly increasing sequence, a smaller entry sits at a smaller position. */
  lemma IncreasingOrder(idx: seq<nat>, t: nat, a: nat)
    requires forall x, y :: 0 <= x < y < |idx| ==> idx[x] < idx[y]
    requires t < |idx| && a < |idx| && idx[t] < idx[a]
    ensures t < a
  {
  }

  /** Every candidate before the filtered arg-min is strictly farther. */
  lemma FilteredArgMinIsFirst(dist: seq<real>, cand: seq<bool>)
    requires |cand| == |dist| && |Where(cand, |cand|)| > 0
    ensures var k := FilteredArgMin(dist, cand);
            0 <= k < |dist| && forall j :: 0 <= j < k && cand[j] ==> dist[k] < dist[j]
  {
    var idx := Where(cand, |cand|);
    var ds := seq(|idx|, t requires 0 <= t < |idx| => dist[idx[t]]);
    var a := ArgMin(ds);
    var k := idx[a];
    forall j | 0 <= j < k && cand[j]
      ensures dist[k] < dist[j]
    {
      var t :| 0 <= t < |idx| && idx[t] == j;
      IncreasingOrder(idx, t, a);
      assert ds[t] == dist[j];
    }
  }

  /** Arg-min over the index-ordered filter picks the same agent as the strict-`<` scan. */
  lemma FilteredArgMinIsNearest(dist: seq<real>, cand: seq<bool>)
    requires |cand| == |dist|
    ensures IsNearest(dist, cand, |dist|, FilteredArgMin(dist, cand))
    ensures FilteredArgMin(dist, cand) == Scan(dist, cand, |dist|, Infinite).index
  {
    FilteredArgMinMeetsNearest(dist, cand);
    ScanIsNearest(dist, cand, |dist|);
    NearestIsUnique(dist, cand, |dist|, FilteredArgMin(dist, cand), Scan(dist, cand, |dist|, Infinite).index);
  }
}
