/** Small vocabulary shared by every component: optional values, the error kinds of
    the store's transactions, and decimal text. */
module Base {

  datatype Option<+T> = None | Some(value: T)

  /** `Internal` stands for any failure the database itself raises (a violated
      constraint, an out-of-range integer); every failed transaction is rolled back. */
  datatype Error = NotFound | Forbidden | Conflict | IdempotencyConflict | Internal

  datatype Result<+T> = Ok(value: T) | Err(error: Error)

  const MAX_INT64: int := 0x7fff_ffff_ffff_ffff

  predicate IsDigit(c: char) {
    '0' <= c <= '9'
  }

  predicate IsHexDigit(c: char) {
    IsDigit(c) || 'a' <= c <= 'f'
  }

  /** The decimal digit character of d. */
  function DigitChar(d: nat): (c: char)
    requires d < 10
    ensures IsDigit(c) && DigitValue(c) == d
  {
    ('0' as int + d) as char
  }

  function DigitValue(c: char): (d: nat)
    requires IsDigit(c)
    ensures d < 10
  {
    (c as int) - ('0' as int)
  }

  predicate AllDigits(s: string) {
    forall i :: 0 <= i < |s| ==> IsDigit(s[i])
  }

  /** The number a digit string denotes in base ten; leading zeros count for nothing. */
  function DigitsValue(s: string): (n: nat)
    requires AllDigits(s)
  {
    if s == [] then 0 else 10 * DigitsValue(s[..|s| - 1]) + DigitValue(s[|s| - 1])
  }

  /** Shortest decimal text of n. */
  function Decimal(n: nat): (s: string)
    ensures |s| > 0 && AllDigits(s)
    ensures DigitsValue(s) == n
    ensures n > 0 ==> s[0] != '0'
  {
    if n < 10 then [DigitChar(n)] else
      var front := Decimal(n / 10);
      var s := front + [DigitChar(n % 10)];
      assert s[..|s| - 1] == front;
      s
  }

  lemma {:induction false} SubsetSize<T>(a: set<T>, b: set<T>)
    requires a <= b
    ensures |a| <= |b|
  {
    if a != {} {
      var x :| x in a;
      SubsetSize(a - {x}, b - {x});
    }
  }

  const NUL: char := '\U{0000}'

  /** Texts without NUL can be joined by one and taken apart again. */
  lemma JoinIsInjective(a: string, b: string, c: string, d: string)
    requires NUL !in a && NUL !in c && a + [NUL] + b == c + [NUL] + d
    ensures a == c && b == d
  {
    var s, t := a + [NUL] + b, c + [NUL] + d;
    assert s[|a|] == NUL && t[|c|] == NUL;
    if |a| < |c| { assert false; }
    if |c| < |a| { assert false; }
    assert s[..|a|] == a && t[..|c|] == c && s[|a| + 1..] == b && t[|c| + 1..] == d;
  }
}
