/** Small shared vocabulary: optional values, the Python exceptions the modelled code
    can raise, and the two numpy/Python indexing rules several components rely on. */
module Common {

  datatype Option<T> = None | Some(value: T)

  /** The exceptions the modelled Python code can let escape to its caller. */
  datatype PyError =
    | KeyError
    | IndexError
    | ValueError
    | OverflowError
    | StopIteration
    | AttributeError
    | RuntimeError
    | ZeroDivisionError

  /** A call either returns a value or raises. */
  datatype Result<T> = Ok(value: T) | Err(error: PyError)

  /** `np.where(a == x)[0][0]`: the first position of `x` in `s`, or -1 when absent. */
  function FirstIndexOf(s: seq<int>, x: int): (k: int)
    ensures -1 <= k < |s|
    ensures k == -1 <==> x !in s
    ensures 0 <= k ==> s[k] == x && forall j :: 0 <= j < k ==> s[j] != x
  {
    if |s| == 0 then -1
    else if s[0] == x then 0
    else
      var k := FirstIndexOf(s[1..], x);
      if k == -1 then -1 else k + 1
  }

  /** Python subscript `a[i]` on a sequence of length `n`: a negative index counts from
      the end; -1 stands for the IndexError raised outside `[-n, n)`. */
  function PyIndex(i: int, n: nat): (k: int)
    ensures -1 <= k < n
    ensures k == -1 <==> (i < -(n as int) || n <= i)
    ensures 0 <= i < n ==> k == i
    ensures -(n as int) <= i < 0 ==> k == i + n
  {
    if 0 <= i < n then i
    else if -(n as int) <= i < 0 then i + n
    else -1
  }

  /** `np.where(mask)[0]` restricted to `[0, upto)`: the indices whose mask is set, in
      increasing order. */
  function Where(mask: seq<bool>, upto: nat): (r: seq<nat>)
    requires upto <= |mask|
    ensures forall t :: 0 <= t < |r| ==> r[t] < upto && mask[r[t]]
    ensures forall t, u :: 0 <= t < u < |r| ==> r[t] < r[u]
    ensures forall j :: 0 <= j < upto && mask[j] ==> j in r
  {
    if upto == 0 then []
    else Where(mask, upto - 1) + (if mask[upto - 1] then [upto - 1] else [])
  }

  /** With no mask bit set below `upto`, nothing is selected. */
  lemma {:induction false} WhereNone(mask: seq<bool>, upto: nat)
    requires upto <= |mask|
    requires forall j :: 0 <= j < upto ==> !mask[j]
    ensures Where(mask, upto) == []
  {
    if upto > 0 {
      WhereNone(mask, upto - 1);
    }
  }
}
