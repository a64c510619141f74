/** Decimal text of natural numbers, printed and parsed. */
module Decimals {
  import opened Addresses

  function Print(n: nat): (s: string)
    ensures AllDigits(s)
  {
    if n < 10 then ['0' + n as char] else Print(n / 10) + ['0' + (n % 10) as char]
  }

  function Parse(s: string): nat
    requires forall i | 0 <= i < |s| :: Digit(s[i])
  {
    if s == [] then 0
    else
      assert Digit(s[|s| - 1]);
      10 * Parse(s[..|s| - 1]) + (s[|s| - 1] - '0') as nat
  }

  lemma {:induction false} ParsePrint(n: nat)
    ensures Parse(Print(n)) == n
  {
    if n >= 10 {
      ParsePrint(n / 10);
      assert Print(n)[..|Print(n)| - 1] == Print(n / 10);
    } else {
      assert Print(n)[..0] == [];
    }
  }

  /** Printing drops leading zeros and never makes a numeral longer. */
  lemma {:induction false} PrintIsShortest(s: string)
    requires AllDigits(s)
    ensures |Print(Parse(s))| <= |s|
  {
    var n := Parse(s);
    if n >= 10 {
      var front := s[..|s| - 1];
      assert n / 10 == Parse(front);
      PrintIsShortest(front);
    }
  }

  lemma PortIsShort(n: nat)
    requires n <= 65535
    ensures |Print(n)| <= 5
  {
    assert n >= 10 ==> |Print(n)| == |Print(n / 10)| + 1;
    assert n / 10 >= 10 ==> |Print(n / 10)| == |Print(n / 10 / 10)| + 1;
    var m := n / 10 / 10;
    assert m <= 655;
    assert m >= 10 ==> |Print(m)| == |Print(m / 10)| + 1;
    assert m / 10 >= 10 ==> |Print(m / 10)| == |Print(m / 10 / 10)| + 1;
    assert m / 10 / 10 < 10;
  }
}
