/** Decimal and binary positional notation. */
module Decimal {
  import opened Common

  function DigitValue(c: char): nat
    requires IsDigit(c)
  {
    c as int - '0' as int
  }

  /** The number a digit string denotes; leading zeros are allowed, the empty string denotes 0. */
  function Value(s: string): nat
    requires AllDigits(s)
  {
    if s == "" then 0
    else
      var last := s[|s| - 1];
      assert last in s && AllDigits(s[..|s| - 1]);
      10 * Value(s[..|s| - 1]) + DigitValue(last)
  }

  lemma {:induction false} PowSum(a: nat, b: nat)
    ensures Pow10(a + b) == Pow10(a) * Pow10(b)
  {
    if b > 0 {
      PowSum(a, b - 1);
      assert Pow10(a + b) == 10 * Pow10(a + b - 1);
      assert Pow10(a) * (10 * Pow10(b - 1)) == 10 * (Pow10(a) * Pow10(b - 1));
    }
  }

  lemma PowMonotone(a: nat, b: nat)
    requires a <= b
    ensures Pow10(a) <= Pow10(b)
  {
    PowSum(a, b - a);
    assert Pow10(a) * 1 <= Pow10(a) * Pow10(b - a);
  }

  lemma Parts(a: string, b: string)
    ensures AllDigits(a + b) <==> AllDigits(a) && AllDigits(b)
  {
    forall c | c in a || c in b
      ensures c in a + b
    {
    }
  }

  lemma {:induction false} ValueOfConcat(a: string, b: string)
    requires AllDigits(a) && AllDigits(b)
    ensures AllDigits(a + b) && Value(a + b) == Value(a) * Pow10(|b|) + Value(b)
  {
    Parts(a, b);
    if b == "" {
      assert a + b == a;
    } else {
      var init, last := b[..|b| - 1], b[|b| - 1];
      assert b == init + [last];
      Parts(init, [last]);
      ValueOfConcat(a, init);
      assert (a + b)[..|a + b| - 1] == a + init && (a + b)[|a + b| - 1] == last;
      Shift(Value(a), Pow10(|b| - 1));
      assert Value(a + b) == 10 * Value(a + init) + DigitValue(last) && Pow10(|b|) == 10 * Pow10(|b| - 1);
      hide Value, Pow10;
    }
  }

  lemma Shift(v: nat, p: nat)
    ensures v * (10 * p) == 10 * (v * p)
  {
  }

  lemma {:induction false} ValueBound(s: string)
    requires AllDigits(s)
    ensures Value(s) < Pow10(|s|)
  {
    if s != "" {
      var init, last := s[..|s| - 1], s[|s| - 1];
      assert last in s;
      ValueBound(init);
      assert Value(s) == 10 * Value(init) + DigitValue(last) && DigitValue(last) <= 9;
    }
  }

  predicate AllZeros(s: string) {
    forall c <- s :: c == '0'
  }

  lemma {:induction false} ZeroValue(s: string)
    requires AllDigits(s)
    ensures Value(s) == 0 <==> AllZeros(s)
  {
    if s != "" {
      var init, last := s[..|s| - 1], s[|s| - 1];
      assert last in s && forall c <- init :: c in s;
      assert forall c <- s :: c in init || c == last;
      ZeroValue(init);
    }
  }

  function Zeros(n: nat): string {
    seq(n, _ => '0')
  }

  /** Appending zeros multiplies by a power of ten. */
  lemma ValueShift(s: string, n: nat)
    requires AllDigits(s)
    ensures AllDigits(s + Zeros(n)) && Value(s + Zeros(n)) == Value(s) * Pow10(n)
  {
    ZeroValue(Zeros(n));
    ValueOfConcat(s, Zeros(n));
  }

  /** Rust's `trim_start_matches('0')`. */
  function TrimZeros(s: string): string {
    if s != "" && s[0] == '0' then TrimZeros(s[1..]) else s
  }

  lemma {:induction false} TrimValue(s: string)
    requires AllDigits(s)
    ensures AllDigits(TrimZeros(s)) && Value(TrimZeros(s)) == Value(s)
    ensures |TrimZeros(s)| <= |s|
    ensures TrimZeros(s) != "" ==> TrimZeros(s)[0] != '0'
    ensures TrimZeros(s) == "" <==> Value(s) == 0
  {
    if s != "" && s[0] == '0' {
      assert s == ['0'] + s[1..];
      Parts(['0'], s[1..]);
      TrimValue(s[1..]);
      ValueOfConcat(['0'], s[1..]);
      assert Value(['0']) == 0 by { ZeroValue(['0']); }
    } else if s != "" {
      ZeroValue(s);
      assert s[0] in s;
    }
  }

  lemma AtLeastOnce(d: nat, p: nat)
    requires d >= 1
    ensures d * p >= p
  {
    assert d * p == (d - 1) * p + p;
  }

  lemma LeadingDigit(s: string)
    requires AllDigits(s) && s != "" && s[0] != '0'
    ensures Value(s) >= Pow10(|s| - 1)
  {
    var head, rest := [s[0]], s[1..];
    assert s == head + rest && s[0] in s;
    Parts(head, rest);
    ValueOfConcat(head, rest);
    assert head[..0] == "" && Value(head) == DigitValue(s[0]);
    AtLeastOnce(DigitValue(s[0]), Pow10(|rest|));
  }

  /** Rust's `>` on strings. */
  predicate StringGreater(a: string, b: string)
    decreases |a|
  {
    if a == "" then false
    else if b == "" then true
    else a[0] > b[0] || (a[0] == b[0] && StringGreater(a[1..], b[1..]))
  }

  /** On digit strings of one length, string order is numeric order. */
  lemma {:induction false} StringOrder(a: string, b: string)
    requires AllDigits(a) && AllDigits(b) && |a| == |b|
    ensures StringGreater(a, b) <==> Value(a) > Value(b)
    decreases |a|
  {
    if a != "" {
      assert a == [a[0]] + a[1..] && b == [b[0]] + b[1..];
      Parts([a[0]], a[1..]);
      Parts([b[0]], b[1..]);
      StringOrder(a[1..], b[1..]);
      ValueOfConcat([a[0]], a[1..]);
      ValueOfConcat([b[0]], b[1..]);
      ValueBound(a[1..]);
      ValueBound(b[1..]);
      assert [a[0]][..0] == "" && [b[0]][..0] == "";
      LeadStep(DigitValue(a[0]), DigitValue(b[0]), Pow10(|a| - 1), Value(a[1..]), Value(b[1..]));
    }
  }

  lemma Multiply(y: nat, d: nat, p: nat)
    requires d >= 1
    ensures (y + d) * p >= y * p + p
  {
    assert (y + d) * p == y * p + d * p;
    assert d * p == (d - 1) * p + p;
  }

  lemma LeadStep(x: nat, y: nat, p: nat, r: nat, t: nat)
    requires r < p && t < p
    ensures x > y ==> x * p + r > y * p + t
    ensures x == y ==> (x * p + r > y * p + t <==> r > t)
    ensures x < y ==> x * p + r < y * p + t
  {
    if x > y { Multiply(y, x - y, p); }
    if x < y { Multiply(x, y - x, p); }
  }

  // ------------------------------------------------------------------ binary

  function Pow2(n: nat): (p: nat)
    ensures p >= 1
  {
    if n == 0 then 1 else 2 * Pow2(n - 1)
  }

  lemma {:induction false} Pow2Sum(a: nat, b: nat)
    ensures Pow2(a + b) == Pow2(a) * Pow2(b)
  {
    if b > 0 {
      Pow2Sum(a, b - 1);
      assert Pow2(a) * (2 * Pow2(b - 1)) == 2 * (Pow2(a) * Pow2(b - 1));
    }
  }

  lemma {:induction false} Pow2Monotone(a: nat, b: nat)
    requires a <= b
    ensures Pow2(a) <= Pow2(b)
    decreases b - a
  {
    if a < b { Pow2Monotone(a + 1, b); }
  }

  /** Number of significant bits. */
  function BitLength(n: nat): nat {
    if n == 0 then 0 else 1 + BitLength(n / 2)
  }

  lemma {:induction false} BitLengthBounds(n: nat)
    ensures n < Pow2(BitLength(n))
    ensures n > 0 ==> n >= Pow2(BitLength(n) - 1)
  {
    if n > 0 { BitLengthBounds(n / 2); }
  }

  lemma {:induction false} BitLengthAtMost(n: nat, bits: nat)
    requires n < Pow2(bits)
    ensures BitLength(n) <= bits
  {
    if n > 0 { BitLengthAtMost(n / 2, bits - 1); }
  }

  /** Trailing zero bits of a positive number. */
  function TrailingZeros(n: nat): nat
    requires n > 0
  {
    if n % 2 == 1 then 0 else 1 + TrailingZeros(n / 2)
  }

  lemma {:induction false} TrailingZerosMeaning(n: nat, d: nat)
    requires n > 0
    ensures TrailingZeros(n) >= d <==> n % Pow2(d) == 0
  {
    if d == 0 {
    } else if n % 2 == 1 {
      if n % Pow2(d) == 0 {
        assert n == 2 * (Pow2(d - 1) * (n / Pow2(d))) by {
          assert n == Pow2(d) * (n / Pow2(d));
        }
      }
    } else {
      TrailingZerosMeaning(n / 2, d - 1);
      HalfDivides(n, Pow2(d - 1));
    }
  }

  lemma HalfDivides(n: nat, p: nat)
    requires n % 2 == 0 && p > 0
    ensures n % (2 * p) == 0 <==> (n / 2) % p == 0
  {
    var h := n / 2;
    if h % p == 0 {
      assert n == (2 * p) * (h / p);
      MultipleRemainder(2 * p, h / p);
    }
    if n % (2 * p) == 0 {
      assert h == p * (n / (2 * p));
      MultipleRemainder(p, n / (2 * p));
    }
  }

  lemma MultipleRemainder(p: nat, k: nat)
    requires p > 0
    ensures (p * k) % p == 0
  {
    var r := (p * k) % p;
    var q := (p * k) / p;
    assert p * k == p * q + r;
    assert r == p * (k - q);
    assert k - q >= 1 ==> p * (k - q) >= p;
    assert k - q <= -1 ==> p * (q - k) >= p;
  }
}
