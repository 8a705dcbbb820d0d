/** Unsigned numbers as the program formats them. */
module Decimal {

  function Digit(d: nat): (c: char)
    requires d < 10
    ensures '0' <= c <= '9' && c as int - '0' as int == d
  {
    ('0' as int + d) as char
  }

  function Format(n: nat): (s: string)
    ensures s != [] && forall k :: 0 <= k < |s| ==> '0' <= s[k] <= '9'
  {
    if n < 10 then [Digit(n)] else Format(n / 10) + [Digit(n % 10)]
  }

  /** The number a digit string stands for. */
  function Parse(s: string): nat
    requires forall k :: 0 <= k < |s| ==> '0' <= s[k] <= '9'
  {
    if s == [] then 0 else 10 * Parse(s[..|s| - 1]) + (s[|s| - 1] as int - '0' as int)
  }

  lemma {:induction false} ParseFormat(n: nat)
    ensures Parse(Format(n)) == n
  {
    if n < 10 {
      assert Format(n)[..0] == [];
    } else {
      ParseFormat(n / 10);
      assert Format(n)[..|Format(n)| - 1] == Format(n / 10);
    }
  }

  lemma FormatsTheVector()
    ensures Format(1234) == "1234"
  {
    assert Format(12) == "12";
    assert Format(123) == "123";
  }

  lemma {:induction false} NoLeadingZero(n: nat)
    ensures Format(n)[0] == '0' ==> n == 0 && Format(n) == "0"
  {
    if n >= 10 {
      NoLeadingZero(n / 10);
      assert Format(n)[0] == Format(n / 10)[0];
    }
  }

  /** Different numbers are formatted differently. */
  lemma FormatInjective(a: nat, b: nat)
    ensures Format(a) == Format(b) ==> a == b
  {
    ParseFormat(a);
    ParseFormat(b);
  }
}
