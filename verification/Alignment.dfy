/** Greatest common divisors, least common multiples and rounding up, as archives use them. */
module Alignment {

  /** `n` is a multiple of `d`. */
  ghost predicate Divides(d: nat, n: int) { exists k: int :: n == d * k }

  lemma DividesBy(d: nat, n: int, k: int)
    requires n == d * k
    ensures Divides(d, n)
  {
  }

  lemma DividesSum(d: nat, a: int, b: int)
    requires Divides(d, a) && Divides(d, b)
    ensures Divides(d, a + b) && Divides(d, a - b)
  {
    var j: int :| a == d * j;
    var k: int :| b == d * k;
    DividesBy(d, a + b, j + k);
    DividesBy(d, a - b, j - k);
  }

  lemma DividesTimes(d: nat, a: int, c: int)
    requires Divides(d, a)
    ensures Divides(d, a * c)
  {
    var j: int :| a == d * j;
    assert a * c == d * (j * c);
  }

  lemma DividesThrough(a: nat, b: nat, n: int)
    requires Divides(a, b) && Divides(b, n)
    ensures Divides(a, n)
  {
    var j: int :| b == a * j;
    var k: int :| n == b * k;
    assert n == a * (j * k);
  }

  lemma RemainderOf(a: nat, b: nat)
    requires b > 0
    ensures a == b * (a / b) + a % b
  {
  }

  lemma DividesMod(d: nat, n: nat)
    requires d > 0
    ensures Divides(d, n) <==> n % d == 0
  {
    RemainderOf(n, d);
    if n % d == 0 {
      DividesBy(d, n, n / d);
    }
    if Divides(d, n) {
      var k: int :| n == d * k;
      NoRemainder(d, n / d - k, n % d);
    }
  }

  lemma NoRemainder(d: nat, q: int, r: nat)
    requires d > 0 && r < d && d * q + r == 0
    ensures r == 0
  {
    Times(d, q);
  }

  lemma Times(d: nat, q: int)
    requires d > 0
    ensures (q >= 1 ==> d * q >= d) && (q <= -1 ==> d * q <= 0 - d)
  {
  }

  // ---------- the greatest common divisor ----------

  function Gcd(a: nat, b: nat): nat
    decreases b
  {
    if b == 0 then a else Gcd(b, a % b)
  }

  /** The loop that finds it. */
  method FindGcd(a: nat, b: nat) returns (g: nat)
    ensures g == Gcd(a, b)
  {
    if a == 0 || b == 0 {
      return a + b;
    }
    var x, y := a, b;
    while y != 0
      invariant Gcd(x, y) == Gcd(a, b)
      decreases y
    {
      x, y := y, x % y;
    }
    g := x;
  }

  lemma {:induction false} GcdPositive(a: nat, b: nat)
    requires a > 0 || b > 0
    ensures Gcd(a, b) > 0
    decreases b
  {
    if b > 0 { GcdPositive(b, a % b); }
  }

  lemma {:induction false} GcdDivides(a: nat, b: nat)
    ensures Divides(Gcd(a, b), a) && Divides(Gcd(a, b), b)
    decreases b
  {
    var g := Gcd(a, b);
    if b == 0 {
      DividesBy(a, a, 1);
      DividesBy(a, 0, 0);
    } else {
      GcdDivides(b, a % b);
      RemainderOf(a, b);
      DividesTimes(g, b, a / b);
      DividesSum(g, b * (a / b), a % b);
    }
  }

  /** It is a sum of multiples of the two. */
  lemma {:induction false} Bezout(a: nat, b: nat) returns (u: int, v: int)
    ensures u * a + v * b == Gcd(a, b)
    decreases b
  {
    if b == 0 {
      u, v := 1, 0;
    } else {
      var s, t := Bezout(b, a % b);
      RemainderOf(a, b);
      u, v := t, s - t * (a / b);
      BezoutStep(a, b, a / b, a % b, s, t);
    }
  }

  lemma BezoutStep(a: int, b: int, q: int, r: int, s: int, t: int)
    requires a == b * q + r
    ensures t * a + (s - t * q) * b == s * b + t * r
  {
    assert t * a == t * (b * q) + t * r;
    assert (s - t * q) * b == s * b - t * q * b;
    assert t * (b * q) == t * q * b;
  }

  lemma GcdGreatest(a: nat, b: nat, d: nat)
    requires Divides(d, a) && Divides(d, b)
    ensures Divides(d, Gcd(a, b))
  {
    var u, v := Bezout(a, b);
    DividesTimes(d, a, u);
    DividesTimes(d, b, v);
    DividesSum(d, a * u, b * v);
  }

  // ---------- the least common multiple ----------

  function Lcm(a: nat, b: nat): nat
    requires a > 0
  {
    GcdPositive(a, b);
    a / Gcd(a, b) * b
  }

  lemma ExactQuotient(g: nat, a: nat)
    requires g > 0 && Divides(g, a)
    ensures a == g * (a / g)
  {
    DividesMod(g, a);
    RemainderOf(a, g);
  }

  lemma LcmIsMultiple(a: nat, b: nat)
    requires a > 0 && b > 0
    ensures Divides(a, Lcm(a, b)) && Divides(b, Lcm(a, b)) && Lcm(a, b) > 0
  {
    var g := Gcd(a, b);
    GcdPositive(a, b);
    GcdDivides(a, b);
    ExactQuotient(g, a);
    ExactQuotient(g, b);
    var x, y := a / g, b / g;
    DividesBy(b, x * b, x);
    assert x * b == x * (g * y) == (g * x) * y;
    DividesBy(a, x * b, y);
    assert x > 0;
    assert x * b > 0;
  }

  /** Every common multiple is a multiple of the least one. */
  lemma LcmLeast(a: nat, b: nat, n: int)
    requires a > 0 && b > 0 && Divides(a, n) && Divides(b, n)
    ensures Divides(Lcm(a, b), n)
  {
    var g := Gcd(a, b);
    GcdPositive(a, b);
    GcdDivides(a, b);
    ExactQuotient(g, a);
    ExactQuotient(g, b);
    var u, v := Bezout(a, b);
    var j: int :| n == a * j;
    var k: int :| n == b * k;
    var x, y := a / g, b / g;
    Coprime(g, x, y, u, v, a, b);
    CommonMultiple(x, y, u, v, j, k, g, a, b, n);
    DividesBy(x * b, n, u * k + v * j);
  }

  lemma Coprime(g: nat, x: nat, y: nat, u: int, v: int, a: nat, b: nat)
    requires g > 0 && a == g * x && b == g * y && u * a + v * b == g
    ensures u * x + v * y == 1
  {
    assert g * (u * x + v * y) == u * (g * x) + v * (g * y);
    Cancel(g, u * x + v * y);
  }

  lemma Cancel(g: nat, z: int)
    requires g > 0 && g * z == g
    ensures z == 1
  {
    assert g * (z - 1) == g * z - g;
    Times(g, z - 1);
  }

  lemma CommonMultiple(x: nat, y: nat, u: int, v: int, j: int, k: int, g: nat, a: nat, b: nat, n: int)
    requires a == g * x && b == g * y && u * x + v * y == 1 && n == a * j && n == b * k
    ensures n == x * b * (u * k + v * j)
  {
    calc {
      n;
      (u * x + v * y) * n;
      u * x * n + v * y * n;
      u * x * (b * k) + v * y * (g * x * j);
      { assert u * x * (b * k) == x * b * (u * k); assert v * y * (g * x * j) == x * (g * y) * (v * j); }
      x * b * (u * k) + x * b * (v * j);
      x * b * (u * k + v * j);
    }
  }

  // ---------- rounding up ----------

  function AlignUp(value: nat, alignment: nat): nat {
    var alignment' := if alignment < 1 then 1 else alignment;
    (value + alignment' - 1) / alignment' * alignment'
  }

  /** The smallest multiple that is not below. */
  lemma AlignUpIsLeast(value: nat, alignment: nat)
    requires alignment > 0
    ensures Divides(alignment, AlignUp(value, alignment)) && value <= AlignUp(value, alignment) < value + alignment
    ensures forall n: nat :: Divides(alignment, n) && value <= n ==> AlignUp(value, alignment) <= n
  {
    var a, q, r := alignment, (value + alignment - 1) / alignment, (value + alignment - 1) % alignment;
    RemainderOf(value + a - 1, a);
    assert AlignUp(value, a) == q * a == a * q;
    DividesBy(a, AlignUp(value, a), q);
    forall n: nat | Divides(a, n) && value <= n
      ensures a * q <= n
    {
      var k: int :| n == a * k;
      Between(a, k, q, n, value);
    }
  }

  lemma Between(a: nat, k: int, q: int, n: int, value: int)
    requires a > 0 && n == a * k && value <= n && a * q < value + a
    ensures a * q <= n
  {
    assert a * (q - k) == a * q - a * k;
    Times(a, q - k);
  }

  /** A coarser alignment that the result meets anyway gives the same result. */
  lemma SameRounding(value: nat, fine: nat, coarse: nat)
    requires fine > 0 && coarse > 0 && Divides(fine, coarse) && Divides(coarse, AlignUp(value, fine))
    ensures AlignUp(value, coarse) == AlignUp(value, fine)
  {
    AlignUpIsLeast(value, fine);
    AlignUpIsLeast(value, coarse);
    DividesThrough(fine, coarse, AlignUp(value, coarse));
  }
}
