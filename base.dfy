/** Small shared definitions: an optional value and PHP's decimal rendering of integers. */
module Base {

  datatype Option<+T> = None | Some(value: T)

  /** The decimal digit for 0 <= d < 10. */
  function Digit(d: nat): (c: char)
    requires d < 10
    ensures '0' <= c <= '9'
    ensures c as int - '0' as int == d
  {
    "0123456789"[d]
  }

  /** Decimal representation of a natural number, most significant digit first, no leading zeros. */
  function NatToString(n: nat): (s: string)
    ensures |s| >= 1
    ensures forall i :: 0 <= i < |s| ==> '0' <= s[i] <= '9'
    ensures n > 0 ==> s[0] != '0'
    decreases n
  {
    if n < 10 then [Digit(n)] else NatToString(n / 10) + [Digit(n % 10)]
  }

  /** `(string)$i` for a PHP integer: a leading '-' for negative numbers. */
  function IntToString(i: int): (s: string)
    ensures |s| >= 1
    ensures i < 0 <==> s[0] == '-'
  {
    if i < 0 then "-" + NatToString(-i) else NatToString(i)
  }

  predicate AllDigits(s: string) {
    forall i :: 0 <= i < |s| ==> '0' <= s[i] <= '9'
  }

  /** The number a string of decimal digits denotes. */
  function ParseNat(s: string): nat
    requires AllDigits(s)
  {
    if s == [] then 0 else 10 * ParseNat(s[..|s| - 1]) + (s[|s| - 1] as int - '0' as int)
  }

  /** Reading the decimal rendering back gives the number. */
  lemma {:induction false} ParseNatToString(n: nat)
    ensures AllDigits(NatToString(n)) && ParseNat(NatToString(n)) == n
    decreases n
  {
    var s := NatToString(n);
    if n >= 10 {
      ParseNatToString(n / 10);
      assert s[..|s| - 1] == NatToString(n / 10);
    }
  }

  /** Different integers render differently, so integer keys stay distinct as names. */
  lemma IntToStringInjective(i: int, j: int)
    requires IntToString(i) == IntToString(j)
    ensures i == j
  {
    var t := IntToString(i);
    assert (i < 0) == (j < 0) by { assert i < 0 <==> t[0] == '-'; assert j < 0 <==> t[0] == '-'; }
    var a: nat := if i < 0 then -i else i;
    var b: nat := if j < 0 then -j else j;
    assert NatToString(a) == NatToString(b) by {
      if i < 0 {
        assert t == "-" + NatToString(a) && t == "-" + NatToString(b);
        assert t[1..] == NatToString(a) && t[1..] == NatToString(b);
      }
    }
    ParseNatToString(a);
    ParseNatToString(b);
  }
}
