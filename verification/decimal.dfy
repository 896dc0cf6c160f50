/**
  Decimal rendering of natural numbers, as JavaScript produces it when a
  number is concatenated to a string (`"Run" + 2 == "Run2"`).  The
  collision policy of the time logger appends such numbers to names, so
  the only property that matters is that different numbers render to
  different strings.
 */
module Decimal {

  /** The character of one decimal digit. */
  function Digit(d: nat): (ch: char)
    requires d < 10
    ensures '0' <= ch <= '9'
  {
    (('0' as int) + d) as char
  }

  /** Shortest decimal rendering of `n`, most significant digit first. */
  function NatToString(n: nat): (s: string)
    ensures |s| >= 1
    ensures n < 10 <==> |s| == 1
    ensures s[|s| - 1] == Digit(n % 10)
  {
    if n < 10 then [Digit(n)] else NatToString(n / 10) + [Digit(n % 10)]
  }

  /** Distinct numbers render to distinct strings. */
  lemma {:induction false} NatToStringInjective(a: nat, b: nat)
    requires NatToString(a) == NatToString(b)
    ensures a == b
  {
    var sa, sb := NatToString(a), NatToString(b);
    if a < 10 || b < 10 {
      assert a < 10 && b < 10;
      assert Digit(a) == sa[0] == sb[0] == Digit(b);
    } else {
      assert sa[..|sa| - 1] == NatToString(a / 10);
      assert sb[..|sb| - 1] == NatToString(b / 10);
      NatToStringInjective(a / 10, b / 10);
      assert Digit(a % 10) == Digit(b % 10);
    }
  }

  /** Appending different numbers to the same name gives different names. */
  lemma SuffixInjective(name: string, a: nat, b: nat)
    requires name + NatToString(a) == name + NatToString(b)
    ensures a == b
  {
    assert (name + NatToString(a))[|name|..] == NatToString(a);
    assert (name + NatToString(b))[|name|..] == NatToString(b);
    NatToStringInjective(a, b);
  }
}
