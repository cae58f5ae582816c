/** The values the two trait tables hold and the text-to-value rule they share: a cell
    becomes an int when Python's `int()` accepts it, else a float when `float()` does,
    else it stays a string. The two recognisers are parameters. */
module TraitValues {
  import opened Common

  /** A Python value a trait lookup can return; `Inf(negative)` is `float('-inf')` or
      `float('inf')`. */
  datatype Value = NoneV | IntV(i: int) | FloatV(r: real) | StrV(s: string) | Inf(negative: bool)

  /** What `int(s)` and `float(s)` accept and return for a string `s`. */
  datatype Recognisers = Recognisers(asInt: string -> Option<int>, asFloat: string -> Option<real>)

  /** `int(value)`, falling back to `float(value)`, falling back to the string itself. */
  function ParseText(rec: Recognisers, s: string): (v: Value)
    ensures v.IntV? <==> rec.asInt(s).Some?
    ensures v.IntV? ==> v.i == rec.asInt(s).value
    ensures v.FloatV? <==> rec.asInt(s).None? && rec.asFloat(s).Some?
    ensures v.FloatV? ==> v.r == rec.asFloat(s).value
    ensures v.StrV? <==> rec.asInt(s).None? && rec.asFloat(s).None?
    ensures v.StrV? ==> v.s == s
  {
    match rec.asInt(s)
    case Some(i) => IntV(i)
    case None =>
      match rec.asFloat(s)
      case Some(r) => FloatV(r)
      case None => StrV(s)
  }

  /** Python's `str()` of an int, in decimal with a leading '-' for negatives. */
  function IntToString(i: int): (s: string)
    ensures |s| >= 1
  {
    if i < 0 then "-" + NatToString(-i) else NatToString(i)
  }

  function NatToString(n: nat): (s: string)
    ensures |s| >= 1
    ensures |s| == 1 <==> n < 10
    ensures forall k :: 0 <= k < |s| ==> '0' <= s[k] <= '9'
    decreases n
  {
    if n < 10 then [Digit(n)] else NatToString(n / 10) + [Digit(n % 10)]
  }

  function Digit(d: nat): (c: char)
    requires d < 10
    ensures '0' <= c <= '9'
  {
    ['0', '1', '2', '3', '4', '5', '6', '7', '8', '9'][d]
  }

  /** Decimal rendering loses nothing: different naturals print differently. */
  lemma {:induction false} NatToStringInjective(a: nat, b: nat)
    requires NatToString(a) == NatToString(b)
    ensures a == b
  {
    var s := NatToString(a);
    if a < 10 && b < 10 {
      assert Digit(a) == s[0] == Digit(b);
      DigitInjective(a, b);
    } else if a >= 10 && b >= 10 {
      var sa := NatToString(a / 10);
      var sb := NatToString(b / 10);
      assert s == sa + [Digit(a % 10)] == sb + [Digit(b % 10)];
      assert sa == s[..|s| - 1] == sb;
      assert Digit(a % 10) == s[|s| - 1] == Digit(b % 10);
      DigitInjective(a % 10, b % 10);
      NatToStringInjective(a / 10, b / 10);
    }
  }

  lemma DigitInjective(d: nat, e: nat)
    requires d < 10 && e < 10 && Digit(d) == Digit(e)
    ensures d == e
  {
  }
}
