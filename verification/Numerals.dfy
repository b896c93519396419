/** Big-endian positional numbers: the arithmetic behind base conversion. */
module Numerals {

  function Pow(b: nat, e: nat): (r: nat)
    requires b >= 1
    ensures r >= 1
  {
    if e == 0 then 1 else b * Pow(b, e - 1)
  }

  lemma {:induction false} PowAdd(b: nat, m: nat, n: nat)
    requires b >= 1
    ensures Pow(b, m + n) == Pow(b, m) * Pow(b, n)
  {
    if m > 0 {
      PowAdd(b, m - 1, n);
      MulAssociative(b, Pow(b, m - 1), Pow(b, n));
    }
  }

  lemma MulAssociative(a: int, b: int, c: int)
    ensures a * (b * c) == (a * b) * c
  {}

  lemma {:induction false} PowMul(b: nat, m: nat, n: nat)
    requires b >= 1
    ensures Pow(b, m * n) == Pow(Pow(b, m), n)
  {
    if n > 0 {
      PowMul(b, m, n - 1);
      assert m * n == m + m * (n - 1);
      PowAdd(b, m, m * (n - 1));
    } else {
      assert m * n == 0;
    }
  }

  lemma {:induction false} PowMonotone(a: nat, b: nat, n: nat)
    requires 1 <= a <= b
    ensures Pow(a, n) <= Pow(b, n)
  {
    if n > 0 {
      PowMonotone(a, b, n - 1);
      MulMonotone(a, b, Pow(a, n - 1), Pow(b, n - 1));
    }
  }

  lemma {:induction false} PowStrict(a: nat, b: nat, n: nat)
    requires 1 <= a < b && n > 0
    ensures Pow(a, n) < Pow(b, n)
  {
    PowMonotone(a, b, n - 1);
    MulMonotone(a, a, Pow(a, n - 1), Pow(b, n - 1));
    assert a * Pow(b, n - 1) < b * Pow(b, n - 1);
  }

  lemma {:induction false} PowGrows(b: nat, m: nat, n: nat)
    requires b >= 1 && m <= n
    ensures Pow(b, m) <= Pow(b, n)
  {
    PowAdd(b, m, n - m);
    MulMonotone(Pow(b, m), Pow(b, m), 1, Pow(b, n - m));
  }

  lemma MulMonotone(a: nat, b: nat, x: nat, y: nat)
    requires a <= b && x <= y
    ensures a * x <= b * y
  {
    assert a * x <= a * y;
    assert a * y <= b * y;
  }

  lemma DivBounds(n: nat, d: nat)
    requires d >= 1
    ensures 0 <= n / d <= n
  {
    QuotientRange(n, d, n / d, n % d);
  }

  lemma QuotientRange(n: nat, d: int, q: int, r: int)
    requires n == d * q + r && 0 <= r < d
    ensures 0 <= q <= n
  {
    if q < 0 {
      MulLe(d, q, -1);
    } else {
      MulLe(q, 1, d);
    }
  }

  lemma MulLe(a: int, x: int, y: int)
    requires a >= 0 && x <= y
    ensures a * x <= a * y
  {}

  /** If `b^p <= c^q` then the ratio `p : q` bounds sizes: `b^n <= c^s` as soon as `q * n <= p * s`. */
  lemma {:induction false} PowRatio(b: nat, c: nat, p: nat, q: nat, n: nat, s: nat)
    requires b >= 1 && c >= 1 && p > 0
    requires Pow(b, p) <= Pow(c, q)
    requires q * n <= p * s
    ensures Pow(b, n) <= Pow(c, s)
  {
    PowMul(b, p, n);
    PowMul(c, q, n);
    PowMonotone(Pow(b, p), Pow(c, q), n);
    PowGrows(c, q * n, p * s);
    assert Pow(b, p * n) <= Pow(c, p * s);
    PowMul(b, n, p);
    PowMul(c, s, p);
    assert n * p == p * n && s * p == p * s;
    if Pow(b, n) > Pow(c, s) {
      PowStrict(Pow(c, s), Pow(b, n), p);
      assert false;
    }
  }

  predicate IsNumeral(s: seq<int>, base: nat) {
    forall i :: 0 <= i < |s| ==> 0 <= s[i] < base
  }

  /** The number a big-endian digit sequence denotes. */
  function Eval(s: seq<int>, base: nat): (r: nat)
    requires base >= 1 && IsNumeral(s, base)
  {
    if s == [] then 0 else Eval(s[..|s| - 1], base) * base + s[|s| - 1]
  }

  lemma EvalSnoc(s: seq<int>, k: nat, base: nat)
    requires base >= 1 && IsNumeral(s, base) && k < |s|
    ensures Eval(s[..k + 1], base) == Eval(s[..k], base) * base + s[k]
  {
    assert s[..k + 1][..k] == s[..k];
  }

  lemma {:induction false} EvalBound(s: seq<int>, base: nat)
    requires base >= 1 && IsNumeral(s, base)
    ensures Eval(s, base) < Pow(base, |s|)
  {
    if s != [] {
      EvalBound(s[..|s| - 1], base);
      var v, p := Eval(s[..|s| - 1], base), Pow(base, |s| - 1);
      MulMonotone(v + 1, p, base, base);
      assert (v + 1) * base == v * base + base;
      assert p * base == base * p;
    }
  }

  /** The most significant digit counts `base` to the number of digits after it. */
  lemma {:induction false} EvalHead(d: int, s: seq<int>, base: nat)
    requires base >= 1 && 0 <= d < base && IsNumeral(s, base)
    ensures Eval([d] + s, base) == d * Pow(base, |s|) + Eval(s, base)
  {
    if s == [] {
      assert [d] + s == [d];
      assert [d][..0] == [];
      assert Eval([d], base) == 0 * base + d;
    } else {
      var t := s[..|s| - 1];
      EvalHead(d, t, base);
      assert ([d] + s)[..|s|] == [d] + t;
      var p, v := Pow(base, |t|), Eval(t, base);
      Distribute(d, p, v, base);
      assert ([d] + s)[|s|] == s[|t|];
    }
  }

  lemma Distribute(d: int, p: int, v: int, base: int)
    ensures (d * p + v) * base == d * (base * p) + v * base
  {
    assert (d * p + v) * base == d * p * base + v * base;
    assert d * p * base == d * (base * p);
  }

  /** The digits of `n`, most significant first and without leading zeros. */
  function Digits(n: nat, base: nat): (s: seq<int>)
    requires base >= 2
    ensures IsNumeral(s, base)
    ensures s != [] ==> s[0] != 0
    ensures n > 0 <==> s != []
  {
    if n == 0 then [] else
      DivShrinks(n, base);
      Digits(n / base, base) + [n % base]
  }

  lemma DivShrinks(n: nat, base: nat)
    requires n > 0 && base >= 2
    ensures 0 <= n / base < n
    ensures n / base == 0 ==> n % base == n > 0
  {
    assert n == base * (n / base) + n % base;
    if n / base >= n {
      MulMonotone(2, base, n, n / base);
      assert false;
    }
    if n / base < 0 {
      MulMonotone(base, base, 1, -(n / base));
      assert false;
    }
  }

  lemma EvalAppend(t: seq<int>, d: int, base: nat)
    requires base >= 1 && IsNumeral(t, base) && 0 <= d < base
    ensures Eval(t + [d], base) == Eval(t, base) * base + d
  {
    assert (t + [d])[..|t|] == t;
  }

  lemma {:induction false} EvalDigits(n: nat, base: nat)
    requires base >= 2
    ensures Eval(Digits(n, base), base) == n
  {
    if n > 0 {
      hide Eval;
      DivShrinks(n, base);
      EvalDigits(n / base, base);
      EvalAppend(Digits(n / base, base), n % base, base);
      DivModSum(n, base);
    }
  }

  lemma DivModSum(n: nat, base: nat)
    requires base >= 1
    ensures n == n / base * base + n % base
  {
    assert n == base * (n / base) + n % base;
  }

  /** Splitting off the last digit is division by the base. */
  lemma DivModUnique(v: nat, d: nat, base: nat)
    requires base >= 1 && d < base
    ensures (v * base + d) / base == v && (v * base + d) % base == d
  {
    var n := v * base + d;
    var q, r := n / base, n % base;
    assert n == base * q + r;
    assert base * (q + 1) == base * q + base;
    assert base * (v + 1) == base * v + base;
    if q < v {
      MulMonotone(base, base, q + 1, v);
      assert false;
    }
    if q > v {
      MulMonotone(base, base, v + 1, q);
      assert false;
    }
  }

  /** A numeral without leading zeros is the one and only such numeral of its value. */
  lemma {:induction false} DigitsEval(s: seq<int>, base: nat)
    requires base >= 2 && IsNumeral(s, base)
    requires s != [] ==> s[0] != 0
    ensures Digits(Eval(s, base), base) == s
  {
    if s != [] {
      var t, d := s[..|s| - 1], s[|s| - 1];
      DigitsEval(t, base);
      DivModUnique(Eval(t, base), d, base);
      assert s == t + [d];
      if t != [] {
        assert Digits(Eval(t, base), base) != [];
        assert Eval(t, base) > 0;
        MulMonotone(1, Eval(t, base), 1, base);
      }
    }
  }

  /** The number of leading elements equal to `z`. */
  function Leading<T(==)>(s: seq<T>, z: T): (k: nat)
    ensures k <= |s|
    ensures forall i :: 0 <= i < k ==> s[i] == z
    ensures k < |s| ==> s[k] != z
  {
    if s == [] || s[0] != z then 0 else 1 + Leading(s[1..], z)
  }

  lemma {:induction false} LeadingUnique<T>(s: seq<T>, z: T, k: nat)
    requires k <= |s| && (forall i :: 0 <= i < k ==> s[i] == z) && (k < |s| ==> s[k] != z)
    ensures Leading(s, z) == k
  {
    if k > 0 {
      LeadingUnique(s[1..], z, k - 1);
    }
  }

  function Fill<T>(n: nat, z: T): (r: seq<T>)
    ensures |r| == n && forall i :: 0 <= i < n ==> r[i] == z
  {
    seq(n, _ => z)
  }

  lemma {:induction false} EvalLeadingZeros(s: seq<int>, k: nat, base: nat)
    requires base >= 1 && IsNumeral(s, base) && k <= |s| && forall i :: 0 <= i < k ==> s[i] == 0
    ensures Eval(s[k..], base) == Eval(s, base)
  {
    if k > 0 {
      EvalHead(0, s[1..], base);
      assert s == [0] + s[1..];
      EvalLeadingZeros(s[1..], k - 1, base);
      assert s[1..][k - 1..] == s[k..];
    } else {
      assert s[0..] == s;
    }
  }

  lemma EvalZeros(s: seq<int>, base: nat)
    requires base >= 1 && forall i :: 0 <= i < |s| ==> s[i] == 0
    ensures IsNumeral(s, base) && Eval(s, base) == 0
  {
    EvalLeadingZeros(s, |s|, base);
  }

  /** Dropping leading zeros gives the canonical digits. */
  lemma StripIsDigits(s: seq<int>, base: nat)
    requires base >= 2 && IsNumeral(s, base)
    ensures s[Leading(s, 0)..] == Digits(Eval(s, base), base)
  {
    var k := Leading(s, 0);
    EvalLeadingZeros(s, k, base);
    DigitsEval(s[k..], base);
  }
}
