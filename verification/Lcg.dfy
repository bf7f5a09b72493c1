/** rand and srand: a 48-bit linear congruential generator, and why it has full period. */
module Lcg {
  import opened Basics

  const A := 0x5_DEEC_E66D
  const C := 0xB
  const M48 := 0x1_0000_0000_0000
  const RAND_MAX := 2147483647

  /** The multiplication wraps at 64 bits before the mask keeps 48 of them. */
  function Step(next: nat): (r: nat)
    ensures r < M48
  {
    (next * A + C) % M64 % M48
  }

  /** do_div(result, RAND_MAX + 1) expands to `result % (unsigned)RAND_MAX + 1`. */
  function Output(next: nat): (r: nat)
    ensures 1 <= r <= RAND_MAX
  {
    next / 4096 % RAND_MAX + 1
  }

  class Generator {
    var next: nat

    constructor ()
      ensures next == 1
    {
      next := 1;
    }

    method Srand(seed: nat)
      requires seed < 0x1_0000_0000
      modifies this
      ensures next == seed
    {
      next := seed;
    }

    method Rand() returns (r: nat)
      modifies this
      ensures next == Step(old(next)) && r == Output(next) && 1 <= r <= RAND_MAX
    {
      next := (next * A + C) % M64 % M48;
      var result := next / 4096;
      r := result % RAND_MAX + 1;
    }
  }

  /** The state after `n` calls. */
  function Iter(x: nat, n: nat): nat {
    if n == 0 then x else Step(Iter(x, n - 1))
  }

  /** The same without any reduction. */
  function Raw(x: nat, n: nat): nat {
    if n == 0 then x else A * Raw(x, n - 1) + C
  }

  /** 1 + A + ... + A^(n-1) */
  function Sum(n: nat): nat {
    if n == 0 then 0 else A * Sum(n - 1) + 1
  }

  function Power(n: nat): nat {
    if n == 0 then 1 else A * Power(n - 1)
  }

  lemma StepMod(x: nat)
    ensures Step(x % M48) == (A * x + C) % M48
  {
    var q, y := x / M48, x % M48;
    var v := y * A + C;
    assert x == M48 * q + y;
    assert A * x + C == v + M48 * (A * q);
    AddMultiple(v, A * q);
    assert v == M64 * (v / M64) + v % M64;
    assert v % M64 + M48 * (65536 * (v / M64)) == v;
    AddMultiple(v % M64, 65536 * (v / M64));
  }

  /** The recurrence, and the first values returned by a fresh generator. */
  lemma StepIs(x: nat)
    requires x < 0x1_0000_0000_0000
    ensures Step(x) == (25214903917 * x + 11) % 281474976710656
  {
    StepMod(x);
  }

  lemma FirstValues()
    ensures Output(Iter(1, 1)) == 6155983 && Output(Iter(1, 2)) == 907315447 && Output(Iter(1, 3)) == 1947276717
  {
    hide Step, Output;
    SecondState();
    ThirdState();
    FourthState();
    assert Iter(1, 1) == Step(Iter(1, 0)) && Iter(1, 2) == Step(Iter(1, 1)) && Iter(1, 3) == Step(Iter(1, 2));
  }

  lemma SecondState()
    ensures Step(1) == 25214903928 && Output(25214903928) == 6155983
  {
    StepIs(1);
    AddMultiple(25214903928, 0);
    assert 25214903917 * 1 + 11 == 25214903928 + M48 * 0;
    assert 25214903928 / 4096 == 6155982;
  }

  lemma ThirdState()
    ensures Step(25214903928) == 206026503483683 && Output(206026503483683) == 907315447
  {
    StepIs(25214903928);
    AddMultiple(206026503483683, 2258784);
    assert 25214903917 * 25214903928 + 11 == 206026503483683 + M48 * 2258784;
    assert 206026503483683 / 4096 == 50299439327;
  }

  lemma FourthState()
    ensures Step(206026503483683) == 245470556921330 && Output(245470556921330) == 1947276717
  {
    StepIs(206026503483683);
    AddMultiple(245470556921330, 18456129032);
    assert 25214903917 * 206026503483683 + 11 == 245470556921330 + M48 * 18456129032;
    assert 245470556921330 / 4096 == 59929335185;
  }

  lemma AddMultiple(v: nat, k: nat)
    ensures (v + M48 * k) % M48 == v % M48
  {
    assert v == M48 * (v / M48) + v % M48;
    assert v + M48 * k == M48 * (v / M48 + k) + v % M48;
  }

  lemma {:induction false} IterIsRaw(x: nat, n: nat)
    requires x < M48
    ensures Iter(x, n) == Raw(x, n) % M48
  {
    if n > 0 {
      IterIsRaw(x, n - 1);
      StepMod(Raw(x, n - 1));
    }
  }

  lemma {:induction false} RawIsSum(x: nat, n: nat)
    ensures Raw(x, n) == x + Sum(n) * ((A - 1) * x + C)
  {
    if n > 0 {
      RawIsSum(x, n - 1);
      var k, s := (A - 1) * x + C, Sum(n - 1);
      assert A * (x + s * k) + C == x + (A * s + 1) * k;
    }
  }

  // ----- divisibility by powers of two

  predicate Even(k: nat, n: nat) {
    k == 0 || (n % 2 == 0 && Even(k - 1, n / 2))
  }

  lemma OddTimes(n: nat, h: nat)
    ensures n * (2 * h + 1) == 2 * (n * h) + n
  {
  }

  lemma HalfTimes(m: nat, q: nat)
    ensures (2 * m) * q == 2 * (m * q)
  {
  }

  lemma {:induction false} OddFactor(k: nat, n: nat, h: nat)
    ensures Even(k, n * (2 * h + 1)) <==> Even(k, n)
  {
    if k > 0 {
      var m, nq, nh := n / 2, n * (2 * h + 1), n * h;
      OddTimes(n, h);
      assert nq % 2 == n % 2;
      if n % 2 == 0 {
        HalfTimes(m, 2 * h + 1);
        assert nq / 2 == m * (2 * h + 1);
        OddFactor(k - 1, m, h);
      }
    }
  }

  lemma {:induction false} PowerIsSum(n: nat)
    ensures Power(n) == (A - 1) * Sum(n) + 1
  {
    if n > 0 {
      PowerIsSum(n - 1);
    }
  }

  lemma Spread(p: nat, s: nat)
    ensures p * (A * s + 1) == A * (p * s) + p
  {
  }

  lemma {:induction false} SumSplits(i: nat, j: nat)
    ensures Sum(i + j) == Sum(j) + Power(j) * Sum(i)
  {
    if i > 0 {
      SumSplits(i - 1, j);
      PowerIsSum(j);
      Spread(Power(j), Sum(i - 1));
      assert Sum(i + j) == A * Sum(i - 1 + j) + 1;
    }
  }

  lemma Twice(s: nat, h: nat)
    ensures s + (4 * h + 1) * s == 2 * (s * (2 * h + 1))
  {
  }

  /** A is 1 modulo 4. */
  lemma SumDouble(m: nat) returns (h: nat)
    ensures Sum(m + m) == 2 * (Sum(m) * (2 * h + 1))
  {
    h := (A - 1) / 4 * Sum(m);
    SumSplits(m, m);
    PowerIsSum(m);
    assert Power(m) == 4 * h + 1;
    Twice(Sum(m), h);
  }

  /** A sum of n powers of A has exactly the factors of two that n has. */
  lemma {:induction false} SumEven(k: nat, n: nat)
    ensures Even(k, Sum(n)) <==> Even(k, n)
  {
    if k > 0 {
      var m := n / 2;
      var h := SumDouble(m);
      var z := Sum(m) * (2 * h + 1);
      if n % 2 == 0 {
        assert n == m + m && Sum(n) / 2 == z;
        OddFactor(k - 1, Sum(m), h);
        SumEven(k - 1, m);
      } else {
        assert n - 1 == m + m && Sum(n) == A * (2 * z) + 1;
        assert Sum(n) == 2 * (A * z) + 1;
      }
    }
  }

  lemma HalfMod(n: nat, p: nat)
    requires p > 0
    ensures n % (2 * p) == 0 <==> n % 2 == 0 && (n / 2) % p == 0
  {
    var q, r := n / (2 * p), n % (2 * p);
    assert n == 2 * p * q + r == 2 * (p * q) + r;
    if r == 0 {
      assert n / 2 == p * q + 0;
      Quotient(n / 2, p, q, 0);
    } else if n % 2 == 0 {
      assert n / 2 == p * q + r / 2;
      Quotient(n / 2, p, q, r / 2);
    }
  }

  lemma AtLeast(p: nat, d: nat)
    requires d >= 1
    ensures p * d >= p
  {
  }

  lemma Spaced(p: nat, i: nat, j: nat)
    requires i < j
    ensures p * i + p <= p * j
  {
    AtLeast(p, j - i);
    assert p * (j - i) == p * j - p * i;
  }

  lemma Quotient(n: nat, p: nat, q: nat, r: nat)
    requires r < p && n == p * q + r
    ensures n % p == r && n / p == q
  {
    var q', r' := n / p, n % p;
    assert n == p * q' + r' && r' < p;
    if q > q' {
      Spaced(p, q', q);
    } else if q < q' {
      Spaced(p, q, q');
    }
  }

  lemma {:induction false} EvenIsMultiple(k: nat, n: nat)
    ensures Even(k, n) <==> n % Pow2(k) == 0
  {
    if k > 0 {
      EvenIsMultiple(k - 1, n / 2);
      HalfMod(n, Pow2(k - 1));
    }
  }

  lemma Pow48()
    ensures Pow2(48) == M48
  {
    assert Pow2(8) == 0x100;
    assert Pow2(16) == 0x1_0000;
    assert Pow2(24) == 0x100_0000;
    assert Pow2(32) == 0x1_0000_0000;
    assert Pow2(40) == 0x100_0000_0000;
  }

  // ----- the period

  lemma Offset(x: nat, d: nat)
    requires x < M48
    ensures (x + d) % M48 == x <==> d % M48 == 0
  {
  }

  lemma Returns(x: nat, n: nat)
    requires x < M48
    ensures Iter(x, n) == x <==> n % M48 == 0
  {
    var h := (A - 1) / 2 * x + 5;
    var d := Sum(n) * (2 * h + 1);
    assert (A - 1) * x + C == 2 * h + 1;
    IterIsRaw(x, n);
    RawIsSum(x, n);
    assert Iter(x, n) == (x + d) % M48;
    Offset(x, d);
    hide Iter, Raw, Sum, Even, Pow2;
    EvenIsMultiple(48, d);
    OddFactor(48, Sum(n), h);
    SumEven(48, n);
    EvenIsMultiple(48, n);
    Pow48();
  }

  lemma {:induction false} IterAdds(x: nat, i: nat, n: nat)
    ensures Iter(x, i + n) == Iter(Iter(x, i), n)
  {
    if n > 0 {
      IterAdds(x, i, n - 1);
    }
  }

  lemma IterBound(x: nat, n: nat)
    requires x < M48
    ensures Iter(x, n) < M48
  {
  }

  /** From any seed two states are equal exactly when a multiple of 2^48 calls lies between them. */
  lemma FullPeriod(x: nat, i: nat, j: nat)
    requires x < 0x1_0000_0000_0000 && i <= j
    ensures Iter(x, i) == Iter(x, j) <==> (j - i) % 0x1_0000_0000_0000 == 0
  {
    IterAdds(x, i, j - i);
    IterBound(x, i);
    Returns(Iter(x, i), j - i);
  }

  ghost function Seen(x: nat, n: nat): set<nat> {
    if n == 0 then {} else Seen(x, n - 1) + {Iter(x, n)}
  }

  ghost function Below(n: nat): set<nat> {
    if n == 0 then {} else Below(n - 1) + {n - 1}
  }

  lemma {:induction false} BelowOk(n: nat)
    ensures |Below(n)| == n && forall y: nat :: y in Below(n) <==> y < n
  {
    if n > 0 {
      BelowOk(n - 1);
    }
  }

  lemma {:induction false} SeenMembers(x: nat, n: nat, y: nat)
    requires x < M48 && y in Seen(x, n)
    ensures y < M48 && exists k: nat :: 1 <= k <= n && Iter(x, k) == y
  {
    if y in Seen(x, n - 1) {
      SeenMembers(x, n - 1, y);
    } else {
      IterBound(x, n);
    }
  }

  lemma Differ(x: nat, i: nat, j: nat)
    requires x < M48 && i < j < i + M48
    ensures Iter(x, i) != Iter(x, j)
  {
    FullPeriod(x, i, j);
  }

  lemma NotSeen(x: nat, n: nat)
    requires x < M48 && 1 <= n <= M48
    ensures Iter(x, n) !in Seen(x, n - 1)
  {
    var y := Iter(x, n);
    hide Iter, Seen;
    if y in Seen(x, n - 1) {
      SeenMembers(x, n - 1, y);
      var k: nat :| 1 <= k <= n - 1 && Iter(x, k) == y;
      Differ(x, k, n);
    }
  }

  lemma {:induction false} SeenSize(x: nat, n: nat)
    requires x < M48 && n <= M48
    ensures |Seen(x, n)| == n
  {
    if n > 0 {
      SeenSize(x, n - 1);
      NotSeen(x, n);
    }
  }

  lemma Full(s: set<nat>, t: set<nat>, y: nat)
    requires s <= t && |s| == |t| && y in t
    ensures y in s
  {
    if y !in s {
      Subset(s, t - {y});
    }
  }

  lemma {:induction false} Subset(s: set<nat>, t: set<nat>)
    requires s <= t
    ensures |s| <= |t|
    decreases s
  {
    if s != {} {
      var y :| y in s;
      Subset(s - {y}, t - {y});
    }
  }

  /** Every seed runs through all states, so all seeds lie on one cycle. */
  lemma EveryState(x: nat, y: nat) returns (n: nat)
    requires x < M48 && y < M48
    ensures 1 <= n <= M48 && Iter(x, n) == y
  {
    SeenSize(x, M48);
    BelowOk(M48);
    forall z | z in Seen(x, M48) ensures z in Below(M48) {
      SeenMembers(x, M48, z);
    }
    Full(Seen(x, M48), Below(M48), y);
    SeenMembers(x, M48, y);
    n :| 1 <= n <= M48 && Iter(x, n) == y;
  }

  /** Every value from 1 to RAND_MAX is returned within a period, and nothing else, 0 included, ever is. */
  lemma ExactlyTheRange(x: nat, r: nat)
    requires x < M48
    ensures (exists n: nat :: 1 <= n <= M48 && Output(Iter(x, n)) == r) <==> 1 <= r <= 2147483647
  {
    if 1 <= r <= RAND_MAX {
      var n := EveryState(x, (r - 1) * 4096);
      assert Output(Iter(x, n)) == r;
    }
  }
}
