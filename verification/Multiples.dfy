/** Multiples, rounding up to them, and the mask form of ceilToPowOf2Multiple. */
module Multiples {
  import opened Bits

  predicate Divides(a: nat, n: int)
    requires a > 0
  {
    n % a == 0
  }

  lemma ModIs(n: int, a: nat, q: int, r: nat)
    requires r < a && n == q * a + r
    ensures n % a == r && n / a == q
  {
    var d := n / a - q;
    assert n == n / a * a + n % a;
    assert d * a == r - n % a;
  }

  lemma MultipleOf(a: nat, q: int)
    requires a > 0
    ensures Divides(a, q * a)
  {
    ModIs(q * a, a, q, 0);
  }

  lemma DividesAdd(a: nat, x: int, y: int)
    requires a > 0 && Divides(a, x) && Divides(a, y)
    ensures Divides(a, x + y)
  {
    assert x + y == (x / a + y / a) * a;
    MultipleOf(a, x / a + y / a);
  }

  lemma DividesTimes(a: nat, k: int, x: int)
    requires a > 0 && Divides(a, x)
    ensures Divides(a, k * x)
  {
    assert x == x / a * a;
    assert k * x == (k * (x / a)) * a;
    MultipleOf(a, k * (x / a));
  }

  lemma DividesTrans(a: nat, b: nat, n: int)
    requires a > 0 && b > 0 && Divides(a, b) && Divides(b, n)
    ensures Divides(a, n)
  {
    DividesTimes(a, n / b, b);
  }

  /** The least multiple of a at or above n. */
  function RoundUp(n: nat, a: nat): nat
    requires a > 0
  {
    n + (if n % a == 0 then 0 else a - n % a)
  }

  lemma RoundUpBounds(n: nat, a: nat)
    requires a > 0
    ensures Divides(a, RoundUp(n, a)) && n <= RoundUp(n, a) < n + a
    ensures Divides(a, n) ==> RoundUp(n, a) == n
  {
    var q := n / a;
    assert n == q * a + n % a;
    if n % a != 0 {
      assert n + (a - n % a) == (q + 1) * a;
      MultipleOf(a, q + 1);
    }
  }

  lemma RoundUpLeast(n: nat, a: nat, s: int)
    requires a > 0 && Divides(a, s) && n <= s
    ensures RoundUp(n, a) <= s
  {
    RoundUpBounds(n, a);
    var r := RoundUp(n, a);
    var d := r / a - s / a;
    assert r - s == d * a;
  }

  // ---------- powers of two ----------

  ghost predicate IsPow2(x: nat) { exists k: nat :: x == Pow2(k) }

  lemma {:induction false} Pow2Divides(j: nat, k: nat)
    requires j <= k
    ensures Divides(Pow2(j), Pow2(k))
  {
    if j == k {
      MultipleOf(Pow2(j), 1);
    } else {
      Pow2Divides(j, k - 1);
      DividesTimes(Pow2(j), 2, Pow2(k - 1));
    }
  }

  /** Of two powers of two the smaller divides the larger. */
  lemma SmallerPow2Divides(x: nat, y: nat)
    requires IsPow2(x) && IsPow2(y) && x <= y
    ensures x > 0 && Divides(x, y)
  {
    var j: nat :| x == Pow2(j);
    var k: nat :| y == Pow2(k);
    if k < j {
      Pow2Grows(k, j);
    }
    Pow2Divides(j, k);
  }

  // ---------- which multiples of a size are aligned ----------

  /** How many steps of size s lead from one multiple of 2^k to the next. */
  function Period(k: nat, s: nat): (r: nat)
    ensures r > 0
  {
    if k == 0 || Divides(Pow2(k), s) then 1 else 2 * Period(k - 1, s)
  }

  lemma Cancel(x: int, y: int, a: nat)
    requires a > 0 && x * a == y * a
    ensures x == y
  {
    ModIs(x * a, a, x, 0);
    ModIs(y * a, a, y, 0);
  }

  /** A size not divisible by 2^(k+1) reaches an odd multiple of 2^k after that many steps. */
  lemma {:induction false} OddMultiple(k: nat, s: nat) returns (q: int)
    requires !Divides(Pow2(k + 1), s)
    ensures Period(k, s) * s == q * Pow2(k) && q % 2 == 1
  {
    if k == 0 || Divides(Pow2(k), s) {
      q := OddQuotient(Pow2(k), s);
    } else {
      q := OddMultiple(k - 1, s);
    }
  }

  lemma OddQuotient(a: nat, s: nat) returns (q: int)
    requires a > 0 && (a == 1 || Divides(a, s)) && !Divides(2 * a, s)
    ensures 1 * s == q * a && q % 2 == 1
  {
    q := s / a;
    assert s == q * a;
    if q % 2 == 0 {
      assert s == (q / 2) * (2 * a);
      MultipleOf(2 * a, q / 2);
    }
  }

  /** Step i of size s is a multiple of 2^k exactly when the period divides i. */
  lemma {:induction false} PeriodExact(k: nat, s: nat, i: nat)
    ensures Divides(Pow2(k), i * s) <==> Divides(Period(k, s), i)
  {
    if k == 0 {
      assert Pow2(0) == 1;
    } else if Divides(Pow2(k), s) {
      DividesTimes(Pow2(k), i, s);
    } else {
      PeriodExact(k - 1, s, i);
      var q := OddMultiple(k - 1, s);
      var r, a := Period(k - 1, s), Pow2(k - 1);
      PeriodDoubles(r, a, s, q, i);
    }
  }

  lemma PeriodDoubles(r: nat, a: nat, s: nat, q: int, i: nat)
    requires r > 0 && a > 0 && r * s == q * a && q % 2 == 1
    requires Divides(a, i * s) <==> Divides(r, i)
    ensures Divides(2 * a, i * s) <==> Divides(2 * r, i)
  {
    if Divides(2 * r, i) {
      var c := i / (2 * r);
      EvenSteps(r, a, s, q, i, c);
    }
    if Divides(2 * a, i * s) {
      HalfDivides(a, i * s);
      var c := i / r;
      OddSteps(r, a, s, q, i, c);
    }
  }

  lemma HalfDivides(a: nat, n: int)
    requires a > 0 && Divides(2 * a, n)
    ensures Divides(a, n)
  {
    MultipleOf(a, 2);
    DividesTrans(a, 2 * a, n);
  }

  lemma EvenSteps(r: nat, a: nat, s: nat, q: int, i: nat, c: int)
    requires a > 0 && r * s == q * a && i == c * (2 * r)
    ensures Divides(2 * a, i * s)
  {
    assert i * s == (2 * c) * (r * s);
    assert (2 * c) * (q * a) == (c * q) * (2 * a);
    MultipleOf(2 * a, c * q);
  }

  lemma OddSteps(r: nat, a: nat, s: nat, q: int, i: nat, c: int)
    requires r > 0 && a > 0 && r * s == q * a && q % 2 == 1 && i == c * r && Divides(2 * a, i * s)
    ensures Divides(2 * r, i)
  {
    var d := i * s / (2 * a);
    assert i * s == d * (2 * a);
    assert i * s == c * (r * s);
    assert c * (q * a) == (c * q) * a && d * (2 * a) == (2 * d) * a;
    Cancel(c * q, 2 * d, a);
    OddFactor(c, q, d);
    assert i == (c / 2) * (2 * r);
    MultipleOf(2 * r, c / 2);
  }

  lemma OddFactor(c: int, q: int, d: int)
    requires c * q == 2 * d && q % 2 == 1
    ensures c % 2 == 0
  {
    var h := q / 2;
    assert c * q == c * (2 * h + 1);
    assert c * (2 * h + 1) == 2 * (c * h) + c;
    assert c == 2 * (d - c * h);
  }

  /** std::bit_ceil. */
  function BitCeil(n: nat): nat {
    if n <= 1 then 1 else 2 * BitCeil((n + 1) / 2)
  }

  lemma {:induction false} BitCeilLeast(n: nat)
    ensures IsPow2(BitCeil(n)) && n <= BitCeil(n) && (n > 0 ==> BitCeil(n) < 2 * n)
  {
    if n <= 1 {
      assert BitCeil(n) == Pow2(0);
    } else {
      BitCeilLeast((n + 1) / 2);
      var k: nat :| BitCeil((n + 1) / 2) == Pow2(k);
      assert BitCeil(n) == Pow2(k + 1);
    }
  }

  // ---------- ceilToPowOf2Multiple ----------

  /** Bitwise and of two n-bit numbers. */
  function And(n: nat, x: nat, y: nat): nat {
    if n == 0 then 0 else 2 * And(n - 1, x / 2, y / 2) + (if x % 2 == 1 && y % 2 == 1 then 1 else 0)
  }

  /** Bitwise complement of an n-bit number. */
  function Not(n: nat, x: nat): nat
    requires x < Pow2(n)
  {
    Pow2(n) - 1 - x
  }

  /** The expression of math.hpp, on words of `bits` bits. */
  function CeilToPowOf2Multiple(bits: nat, num: nat, multiple: nat): nat
    requires 0 < multiple <= Pow2(bits)
  {
    And(bits, (num + (multiple - 1)) % Pow2(bits), Not(bits, multiple - 1))
  }

  /** The low k bits. */
  function Low(k: nat, x: nat): nat {
    if k == 0 then 0 else 2 * Low(k - 1, x / 2) + x % 2
  }

  lemma {:induction false} LowIsMod(k: nat, x: nat)
    ensures Low(k, x) == x % Pow2(k)
  {
    if k == 0 {
    } else {
      LowIsMod(k - 1, x / 2);
      HalfMod(x, Pow2(k - 1));
    }
  }

  lemma {:induction false} MaskClearsLow(n: nat, k: nat, x: nat)
    requires k <= n && x < Pow2(n)
    ensures Pow2(k) <= Pow2(n)
    ensures And(n, x, Pow2(n) - Pow2(k)) == x - Low(k, x)
  {
    if k < n {
      Pow2Grows(k, n);
    }
    if k == 0 {
      MaskAll(n, x);
    } else {
      var h := Pow2(n - 1) - Pow2(k - 1);
      assert Pow2(n) - Pow2(k) == 2 * h;
      MaskClearsLow(n - 1, k - 1, x / 2);
    }
  }

  lemma MaskRounds(n: nat, k: nat, x: nat)
    requires k <= n && x < Pow2(n)
    ensures Pow2(k) <= Pow2(n)
    ensures And(n, x, Pow2(n) - Pow2(k)) == x - x % Pow2(k)
  {
    MaskClearsLow(n, k, x);
    LowIsMod(k, x);
  }

  lemma {:induction false} MaskAll(n: nat, x: nat)
    requires x < Pow2(n)
    ensures And(n, x, Pow2(n) - 1) == x
  {
    if n == 0 {
    } else {
      MaskAll(n - 1, x / 2);
    }
  }

  lemma HalfMod(x: nat, p: nat)
    requires p > 0
    ensures x % (2 * p) == 2 * ((x / 2) % p) + x % 2
  {
    var h := x / 2;
    assert h == h / p * p + h % p;
    assert x == (h / p) * (2 * p) + (2 * (h % p) + x % 2);
    ModIs(x, 2 * p, h / p, 2 * (h % p) + x % 2);
  }

  /** r is the least multiple of a that is not below n. */
  ghost predicate LeastMultiple(r: nat, n: nat, a: nat)
    requires a > 0
  {
    Divides(a, r) && n <= r && forall s: nat :: Divides(a, s) && n <= s ==> r <= s
  }

  /** The mask trick gives the least multiple at or above its input exactly when the addition does not overflow. */
  lemma CeilIsLeast(bits: nat, num: nat, k: nat)
    requires k < bits && num < Pow2(bits)
    ensures Pow2(k) <= Pow2(bits)
    ensures LeastMultiple(CeilToPowOf2Multiple(bits, num, Pow2(k)), num, Pow2(k)) <==> num + (Pow2(k) - 1) < Pow2(bits)
  {
    var a, w := Pow2(k), Pow2(bits);
    Pow2Grows(k, bits);
    var x := (num + (a - 1)) % w;
    MaskRounds(bits, k, x);
    if num + (a - 1) < w {
      CeilIsRoundUp(bits, num, k);
      RoundUpBounds(num, a);
      forall s: nat | Divides(a, s) && num <= s
        ensures RoundUp(num, a) <= s
      {
        RoundUpLeast(num, a, s);
      }
    } else {
      ModIs(num + (a - 1), w, 1, num + (a - 1) - w);
    }
  }

  lemma CeilIsRoundUp(bits: nat, num: nat, k: nat)
    requires k < bits && num + (Pow2(k) - 1) < Pow2(bits)
    ensures Pow2(k) <= Pow2(bits)
    ensures CeilToPowOf2Multiple(bits, num, Pow2(k)) == RoundUp(num, Pow2(k))
  {
    var a, w := Pow2(k), Pow2(bits);
    Pow2Grows(k, bits);
    var x := num + (a - 1);
    ShiftedMod(num, a);
    ModIs(x, w, 0, x);
    assert Not(bits, a - 1) == w - a;
    MaskRounds(bits, k, x);
  }

  lemma ShiftedMod(num: nat, a: nat)
    requires a > 0
    ensures var x := num + (a - 1); x - x % a == RoundUp(num, a)
  {
    var x := num + (a - 1);
    var q, r := num / a, num % a;
    assert num == q * a + r;
    if r == 0 {
      ModIs(x, a, q, a - 1);
    } else {
      assert x == (q + 1) * a + (r - 1);
      ModIs(x, a, q + 1, r - 1);
    }
  }
}
