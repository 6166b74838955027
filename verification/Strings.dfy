/** Facts about concatenation that the solver should not have to search for, used wherever text is
    built in pieces. */
module Strings {
  import opened Utils

  lemma Join(a: string, b: string, c: string)
    ensures a + (b + c) == a + b + c
  {}

  lemma Regroup(a: string, b: string, c: string, d: string)
    ensures a + (b + (c + d)) == a + b + c + d
  {}

  /** The position of the first `c`, or the end. */
  function Find(s: string, c: char): (n: nat)
    ensures n <= |s| && (n < |s| ==> s[n] == c) && c !in s[..n]
  {
    if s == "" || s[0] == c then 0
    else
      var n := 1 + Find(s[1..], c);
      assert s[..n] == [s[0]] + s[1..][..n - 1];
      n
  }

  // ----- numbers and booleans -----

  /** strconv.ParseBool. */
  function ParseBool(s: string): Option<bool> {
    if s in ["1", "t", "T", "TRUE", "true", "True"] then Some(true)
    else if s in ["0", "f", "F", "FALSE", "false", "False"] then Some(false)
    else None
  }

  function Digit(d: nat): char
    requires d < 16
  { "0123456789abcdef"[d] }

  /** strconv.Itoa. */
  function Itoa(n: nat): (s: string)
    ensures s != [] && forall c :: c in s ==> '0' <= c <= '9'
  {
    if n < 10 then [Digit(n)] else Itoa(n / 10) + [Digit(n % 10)]
  }

  /** The value of decimal digits. */
  function Decimal(s: string): int {
    if s == "" then 0 else Decimal(s[..|s| - 1]) * 10 + (s[|s| - 1] as int - 48)
  }

  /** Digits of the value, without a leading zero. */
  lemma {:induction false} ItoaIsDecimal(n: nat)
    ensures Decimal(Itoa(n)) == n && (n > 0 ==> Itoa(n)[0] != '0')
  {
    if n < 10 {
      assert Itoa(n) == [Digit(n)] && [Digit(n)][..0] == "";
    } else {
      ItoaIsDecimal(n / 10);
      assert Itoa(n)[..|Itoa(n)| - 1] == Itoa(n / 10);
    }
  }

  // ----- quotes -----

  /** Quotes come in pairs. */
  predicate Paired(s: string)
    decreases |s|
  {
    s == "" ||
    (if s[0] == '\'' then |s| >= 2 && s[1] == '\'' && Paired(s[2..]) else Paired(s[1..]))
  }
}
