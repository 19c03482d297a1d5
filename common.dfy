/** Small shared vocabulary: optional values, bytes, and the string helpers
    (prefix test, substring test, ASCII lower-casing, decimal rendering) that
    several components of the monitor use. */
module Common {

  datatype Option<+T> = None | Some(value: T)

  /** An unsigned 8-bit value, the element type of every wire buffer. */
  type byte = b: int | 0 <= b < 256

  /** Low and high byte of the 16-bit field that holds `x`, as Python's
      `x & 0xFF` and `(x >> 8) & 0xFF` compute them. Dafny's `/` and `%` agree
      with Python's floor division for a positive divisor, so this is exact for
      negative `x` too (for instance -1 gives 0xFF, 0xFF). */
  function Lo(x: int): byte { x % 256 }
  function Hi(x: int): byte { (x / 256) % 256 }

  /** The two bytes, read back as an unsigned 16-bit number, are `x` modulo 2^16. */
  lemma HiLoValue(x: int)
    ensures Hi(x) * 256 + Lo(x) == x % 65536
  {
    var q := x / 256;
    var a := q / 256;
    assert x == 256 * q + x % 256;
    assert q == 256 * a + q % 256;
    assert x == 65536 * a + (256 * (q % 256) + x % 256);
    DivModUnique(x, 65536, a, 256 * (q % 256) + x % 256);
  }

  /** Euclidean division has one quotient and one remainder. */
  lemma DivModUnique(x: int, d: int, q: int, r: int)
    requires d > 0 && 0 <= r < d && x == d * q + r
    ensures x / d == q && x % d == r
  {
    var q', r' := x / d, x % d;
    assert x == d * q' + r';
    if q' > q {
      assert d * q' >= d * (q + 1) by { MulMonotone(d, q + 1, q'); }
      assert false;
    } else if q' < q {
      assert d * q >= d * (q' + 1) by { MulMonotone(d, q' + 1, q); }
      assert false;
    }
  }

  lemma MulMonotone(d: int, a: int, b: int)
    requires d >= 0 && a <= b
    ensures d * a <= d * b
  {
  }

  predicate StartsWith(s: string, prefix: string) {
    |prefix| <= |s| && s[..|prefix|] == prefix
  }

  /** Python's `sub in s` on strings. */
  predicate Contains(s: string, sub: string) {
    exists i | 0 <= i <= |s| - |sub| :: OccursAt(s, sub, i)
  }

  predicate OccursAt(s: string, sub: string, i: int) {
    0 <= i <= |s| - |sub| && s[i..i + |sub|] == sub
  }

  function LowerChar(c: char): char {
    if 'A' <= c <= 'Z' then (c as int + 32) as char else c
  }

  /** `str.lower()` restricted to ASCII letters. */
  function Lower(s: string): (r: string)
    ensures |r| == |s|
    ensures forall i | 0 <= i < |s| :: r[i] == LowerChar(s[i])
  {
    if s == [] then [] else [LowerChar(s[0])] + Lower(s[1..])
  }

  function DigitChar(d: int): char
    requires 0 <= d < 10
  {
    ('0' as int + d) as char
  }

  predicate IsDigit(c: char) { '0' <= c <= '9' }

  /** Decimal text of a natural number, without leading zeros (`str(n)`,
      `n.toString()`). */
  function NatToString(n: nat): (r: string)
    ensures |r| >= 1
    ensures forall i | 0 <= i < |r| :: IsDigit(r[i])
    decreases n
  {
    if n < 10 then [DigitChar(n)] else NatToString(n / 10) + [DigitChar(n % 10)]
  }

  /** Value of a string of decimal digits. */
  function DecimalValue(s: string): nat
    requires forall i | 0 <= i < |s| :: IsDigit(s[i])
  {
    if s == [] then 0
    else
      assert IsDigit(s[|s| - 1]);
      DecimalValue(s[..|s| - 1]) * 10 + (s[|s| - 1] as int - '0' as int)
  }

  /** Reading the decimal text back gives the number. */
  lemma {:induction false} NatToStringValue(n: nat)
    ensures DecimalValue(NatToString(n)) == n
    decreases n
  {
    if n >= 10 {
      var s := NatToString(n / 10);
      var r := s + [DigitChar(n % 10)];
      assert r[..|r| - 1] == s;
      NatToStringValue(n / 10);
    }
  }

  /** Signed decimal text (`str(i)` / `i.toString()`). */
  function IntToString(i: int): string {
    if i < 0 then "-" + NatToString(-i) else NatToString(i)
  }
}
