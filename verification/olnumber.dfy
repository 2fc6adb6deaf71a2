/** What `parseInt` computes: the positional value of its digit string,
    reduced modulo 2^64, and in particular the number a decimal numeral
    denotes. */
module OlNumbers {
  import opened Numeric
  import opened OlLexer

  function Pow(b: int, e: nat): int
    decreases e
  {
    if e == 0 then 1 else b * Pow(b, e - 1)
  }

  /** The positional value of a digit string: of `n` digits, digit `i`
      weighs `base^(n - 1 - i)`. */
  function Positional(s: seq<int>, base: int): int
    decreases s
  {
    if s == [] then 0 else DigitValue(s[0]) * Pow(base, |s| - 1) + Positional(s[1..], base)
  }

  lemma ModMultiple(a: int, j: int)
    ensures U64(a + j * TWO64) == U64(a)
  {
    var q := a / TWO64;
    assert a == q * TWO64 + a % TWO64;
    assert a + j * TWO64 == (q + j) * TWO64 + a % TWO64;
  }

  /** Values congruent modulo 2^64 stay congruent after `* c + e`. */
  lemma U64Congruent(x: int, y: int, c: int, e: int)
    requires (x - y) % TWO64 == 0
    ensures U64(x * c + e) == U64(y * c + e)
  {
    var k := (x - y) / TWO64;
    assert x == y + k * TWO64;
    assert x * c + e == (y * c + e) + (k * c) * TWO64;
    ModMultiple(y * c + e, k * c);
  }

  /** One round of the loop agrees with exact arithmetic modulo 2^64. */
  lemma StepCongruent(acc: int, base: int, d: int)
    ensures (U64(U64(acc * base) + d) - (acc * base + d)) % TWO64 == 0
  {
    var a := U64(acc * base);
    var ka := (a - acc * base) / TWO64;
    assert a == acc * base + ka * TWO64;
    var b := U64(a + d);
    var kb := (b - (a + d)) / TWO64;
    assert b == a + d + kb * TWO64;
    assert b - (acc * base + d) == (ka + kb) * TWO64;
  }

  /** Reducing after each round and reducing once at the end agree. */
  lemma StepThenScale(acc: int, base: int, d: int, p: int, pos: int)
    ensures U64(U64(U64(acc * base) + d) * p + pos) == U64((acc * base + d) * p + pos)
  {
    StepCongruent(acc, base, d);
    U64Congruent(U64(U64(acc * base) + d), acc * base + d, p, pos);
  }

  lemma Distrib(a: int, b: int, d: int, p: int, t: int)
    ensures (a * b + d) * p + t == a * (b * p) + (d * p + t)
  {
  }

  lemma {:induction false} ParseIntFromValue(acc: int, s: seq<int>, base: int)
    requires InU64(acc)
    ensures ParseIntFrom(acc, s, base) == U64(acc * Pow(base, |s|) + Positional(s, base))
    decreases s
  {
    if s == [] {
      assert acc * Pow(base, 0) + Positional(s, base) == acc;
    } else {
      var d, t := DigitValue(s[0]), s[1..];
      var acc' := U64(U64(acc * base) + d);
      var p, pos := Pow(base, |t|), Positional(t, base);
      assert ParseIntFrom(acc, s, base) == ParseIntFrom(acc', t, base);
      assert ParseIntFrom(acc', t, base) == U64(acc' * p + pos) by {
        ParseIntFromValue(acc', t, base);
      }
      assert U64(acc' * p + pos) == U64((acc * base + d) * p + pos) by {
        StepThenScale(acc, base, d, p, pos);
      }
      assert (acc * base + d) * p + pos == acc * Pow(base, |s|) + Positional(s, base) by {
        assert Pow(base, |s|) == base * p;
        assert Positional(s, base) == d * p + pos;
        Distrib(acc, base, d, p, pos);
      }
    }
  }

  /** `parseInt` computes the positional value of the digits modulo 2^64. */
  lemma ParseIntPositional(s: seq<int>, base: int)
    ensures ParseInt(s, base) == U64(Positional(s, base))
  {
    ParseIntFromValue(0, s, base);
  }

  // ---------------------------------------------------------------- decimal numerals

  /** The decimal numeral of `n`, most significant digit first. */
  function DecimalDigits(n: nat): (r: seq<int>)
    ensures |r| > 0
    ensures forall i :: 0 <= i < |r| ==> IsDigit(r[i])
    decreases n
  {
    if n < 10 then ['0' as int + n] else DecimalDigits(n / 10) + ['0' as int + n % 10]
  }

  lemma SnocAlgebra(c: int, b: int, p: int, x: int, e: int)
    ensures c * (b * p) + (x * b + e) == (c * p + x) * b + e
  {
  }

  lemma {:induction false} PositionalSnoc(s: seq<int>, d: int, base: int)
    ensures Positional(s + [d], base) == Positional(s, base) * base + DigitValue(d)
    decreases s
  {
    if s == [] {
      assert [] + [d] == [d];
    } else {
      var t, c := s[1..], DigitValue(s[0]);
      var p := Pow(base, |t|);
      assert (s + [d])[1..] == t + [d];
      assert (s + [d])[0] == s[0];
      assert Pow(base, |s|) == base * p;
      assert Positional(s + [d], base) == c * Pow(base, |s|) + Positional(t + [d], base);
      assert Positional(s, base) == c * p + Positional(t, base);
      PositionalSnoc(t, d, base);
      SnocAlgebra(c, base, p, Positional(t, base), DigitValue(d));
    }
  }

  /** A decimal numeral denotes its number. */
  lemma {:induction false} DecimalValue(n: nat)
    ensures Positional(DecimalDigits(n), 10) == n
    decreases n
  {
    if n >= 10 {
      DecimalValue(n / 10);
      PositionalSnoc(DecimalDigits(n / 10), '0' as int + n % 10, 10);
    }
  }

  /** Reading back the decimal numeral of a 64-bit value gives the value. */
  lemma DecimalRoundTrip(n: nat)
    requires n < TWO64
    ensures ParseInt(DecimalDigits(n), 10) == n
  {
    ParseIntPositional(DecimalDigits(n), 10);
    DecimalValue(n);
  }
}
