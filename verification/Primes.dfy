/** The first sixty-four prime numbers, and that they are these. */
module Primes {
  /** The first sixty-four prime numbers, in rows of eight. */
  function PrimeRow(i: nat): (row: seq<nat>)
    requires i < 8
    ensures |row| == 8
  {
    match i
    case 0 => [2, 3, 5, 7, 11, 13, 17, 19]
    case 1 => [23, 29, 31, 37, 41, 43, 47, 53]
    case 2 => [59, 61, 67, 71, 73, 79, 83, 89]
    case 3 => [97, 101, 103, 107, 109, 113, 127, 131]
    case 4 => [137, 139, 149, 151, 157, 163, 167, 173]
    case 5 => [179, 181, 191, 193, 197, 199, 211, 223]
    case 6 => [227, 229, 233, 239, 241, 251, 257, 263]
    case _ => [269, 271, 277, 281, 283, 293, 307, 311]
  }

  function PrimeAt(t: nat): nat
    requires t < 64
  {
    PrimeRow(t / 8)[t % 8]
  }

  predicate IsPrime(n: nat) {
    n >= 2 && forall d :: 2 <= d < n ==> n % d != 0
  }

  /** No prime up to seventeen divides `n`, unless it is `n`. */
  predicate Sieved(n: nat) {
    && n >= 2
    && (n % 2 == 0 ==> n == 2) && (n % 3 == 0 ==> n == 3) && (n % 5 == 0 ==> n == 5) && (n % 7 == 0 ==> n == 7)
    && (n % 11 == 0 ==> n == 11) && (n % 13 == 0 ==> n == 13) && (n % 17 == 0 ==> n == 17)
  }

  lemma DividesOn(n: nat, f: nat, p: nat)
    requires p > 0 && f > 0 && n % f == 0 && f % p == 0
    ensures n % p == 0
  {
    var e, k := n / f, f / p;
    assert n == p * (k * e);
    ModZero(n, p, k * e);
  }

  lemma ModZero(n: nat, p: nat, k: nat)
    requires p > 0 && n == p * k
    ensures n % p == 0
  {
    var q, r := n / p, n % p;
    assert r == p * (k - q);
    if k - q >= 1 {
      Larger(p, k - q);
    } else if k - q <= -1 {
      Larger(p, q - k);
    }
  }

  lemma Larger(p: nat, m: nat)
    requires m >= 1
    ensures p * m >= p
  {}

  lemma SieveRefutes(n: nat, p: nat)
    requires p == 2 || p == 3 || p == 5 || p == 7 || p == 11 || p == 13 || p == 17
    requires p < n && n % p == 0
    ensures !Sieved(n)
  {}

  lemma SmallPrime(f: nat) returns (p: nat)
    requires 2 <= f <= 17
    ensures p == 2 || p == 3 || p == 5 || p == 7 || p == 11 || p == 13 || p == 17
    ensures p <= f && f % p == 0
  {
    p := if f % 2 == 0 then 2 else if f % 3 == 0 then 3 else f;
  }

  lemma SmallFactor(n: nat, f: nat)
    requires 2 <= f <= 17 && f < n && n % f == 0
    ensures !Sieved(n)
  {
    hide Sieved;
    var p := SmallPrime(f);
    DividesOn(n, f, p);
    SieveRefutes(n, p);
  }

  lemma Factored(n: nat, d: nat)
    requires 2 <= d < n < 324 && n % d == 0
    ensures !Sieved(n)
  {
    hide Sieved;
    var e := n / d;
    assert n == d * e;
    if d <= 17 {
      SmallFactor(n, d);
    } else {
      assert 2 <= e <= 17 by { Cofactor(n, d, e); }
      assert n == e * d && e < n;
      ModZero(n, e, d);
      SmallFactor(n, e);
    }
  }

  lemma Cofactor(n: nat, d: nat, e: nat)
    requires 18 <= d < n < 324 && n == d * e
    ensures 2 <= e <= 17
  {
    assert e >= 18 ==> d * e >= 18 * e;
  }

  /** Below the square of eighteen the sieve leaves the primes. */
  lemma SieveIsExact(n: nat)
    requires n < 324
    ensures Sieved(n) <==> IsPrime(n)
  {
    if Sieved(n) {
      hide Sieved;
      SievedIsPrime(n);
    }
  }

  lemma SievedIsPrime(n: nat)
    requires Sieved(n) && n < 324
    ensures IsPrime(n)
  {
    assert n >= 2;
    hide Sieved;
    forall d | 2 <= d < n ensures n % d != 0 {
      if n % d == 0 {
        Factored(n, d);
      }
    }
  }

  /** Among the odd numbers from `lo` to `hi` the sieve leaves just the members of `row`. */
  predicate Lists(row: seq<nat>, lo: nat, hi: nat)
    decreases hi + 2 - lo
  {
    lo > hi || ((Sieved(lo) <==> lo in row) && Lists(row, lo + 2, hi))
  }

  lemma {:induction false} ListsAll(row: seq<nat>, lo: nat, hi: nat)
    requires lo % 2 == 1 && Lists(row, lo, hi)
    ensures forall n: nat :: lo <= n <= hi && n % 2 == 1 ==> (Sieved(n) <==> n in row)
    decreases hi + 2 - lo
  {
    hide Sieved;
    if lo <= hi {
      ListsAll(row, lo + 2, hi);
    }
  }

  function RowStart(i: nat): nat
    requires i < 8
  {
    if i == 0 then 0 else PrimeRow(i - 1)[7] + 1
  }

  predicate RowSieved(i: nat)
    requires i < 8
  {
    forall n: nat :: RowStart(i) <= n <= PrimeRow(i)[7] ==> (Sieved(n) <==> n in PrimeRow(i))
  }

  lemma Row0Part0()
    ensures Lists([2, 3, 5, 7, 11, 13, 17, 19], 1, 19)
  {}

  lemma Row1Part0()
    ensures Lists([23, 29, 31], 21, 35)
  {}

  lemma Row1Part1()
    ensures Lists([37, 41, 43, 47, 53], 37, 53)
  {}

  lemma Row2Part0()
    ensures Lists([59, 61, 67, 71], 55, 71)
  {}

  lemma Row2Part1()
    ensures Lists([73, 79, 83, 89], 73, 89)
  {}

  lemma Row3Part0()
    ensures Lists([97, 101, 103, 107, 109], 91, 109)
  {}

  lemma Row3Part1()
    ensures Lists([113, 127, 131], 111, 131)
  {}

  lemma Row4Part0()
    ensures Lists([137, 139, 149, 151], 133, 151)
  {}

  lemma Row4Part1()
    ensures Lists([157, 163, 167, 173], 153, 173)
  {}

  lemma Row5Part0()
    ensures Lists([179, 181], 175, 189)
  {}

  lemma Row5Part1()
    ensures Lists([191, 193, 197, 199], 191, 205)
  {}

  lemma Row5Part2()
    ensures Lists([211, 223], 207, 223)
  {}

  lemma Row6Part0()
    ensures Lists([227, 229, 233, 239, 241], 225, 243)
  {}

  lemma Row6Part1()
    ensures Lists([251, 257, 263], 245, 263)
  {}

  lemma Row7Part0()
    ensures Lists([269, 271, 277, 281, 283], 265, 287)
  {}

  lemma Row7Part1()
    ensures Lists([293, 307, 311], 289, 311)
  {}

  lemma Row0Sieved()
    ensures RowSieved(0)
  {
    hide Sieved, Lists;
    EvensSieved();
    Row0Part0();
    ListsAll([2, 3, 5, 7, 11, 13, 17, 19], 1, 19);
  }

  lemma Row1Sieved()
    ensures RowSieved(1)
  {
    hide Sieved, Lists;
    EvensSieved();
    Row1Part0();
    ListsAll([23, 29, 31], 21, 35);
    Row1Part1();
    ListsAll([37, 41, 43, 47, 53], 37, 53);
  }

  lemma Row2Sieved()
    ensures RowSieved(2)
  {
    hide Sieved, Lists;
    EvensSieved();
    Row2Part0();
    ListsAll([59, 61, 67, 71], 55, 71);
    Row2Part1();
    ListsAll([73, 79, 83, 89], 73, 89);
  }

  lemma Row3Sieved()
    ensures RowSieved(3)
  {
    hide Sieved, Lists;
    EvensSieved();
    Row3Part0();
    ListsAll([97, 101, 103, 107, 109], 91, 109);
    Row3Part1();
    ListsAll([113, 127, 131], 111, 131);
  }

  lemma Row4Sieved()
    ensures RowSieved(4)
  {
    hide Sieved, Lists;
    EvensSieved();
    Row4Part0();
    ListsAll([137, 139, 149, 151], 133, 151);
    Row4Part1();
    ListsAll([157, 163, 167, 173], 153, 173);
  }

  lemma Row5Sieved()
    ensures RowSieved(5)
  {
    hide Sieved, Lists;
    EvensSieved();
    Row5Part0();
    ListsAll([179, 181], 175, 189);
    Row5Part1();
    ListsAll([191, 193, 197, 199], 191, 205);
    Row5Part2();
    ListsAll([211, 223], 207, 223);
  }

  lemma Row6Sieved()
    ensures RowSieved(6)
  {
    hide Sieved, Lists;
    EvensSieved();
    Row6Part0();
    ListsAll([227, 229, 233, 239, 241], 225, 243);
    Row6Part1();
    ListsAll([251, 257, 263], 245, 263);
  }

  lemma Row7Sieved()
    ensures RowSieved(7)
  {
    hide Sieved, Lists;
    EvensSieved();
    Row7Part0();
    ListsAll([269, 271, 277, 281, 283], 265, 287);
    Row7Part1();
    ListsAll([293, 307, 311], 289, 311);
  }

  lemma EvensSieved()
    ensures forall n: nat :: n % 2 == 0 ==> (Sieved(n) <==> n == 2)
    ensures !Sieved(1)
  {}

  lemma RowsSieved(i: nat)
    requires i < 8
    ensures RowSieved(i)
  {
    hide RowSieved;
    Row0Sieved();
    Row1Sieved();
    Row2Sieved();
    Row3Sieved();
    Row4Sieved();
    Row5Sieved();
    Row6Sieved();
    Row7Sieved();
  }

  lemma InRow(t: nat)
    requires t < 64
    ensures RowStart(t / 8) <= PrimeAt(t) <= PrimeRow(t / 8)[7]
  {}

  lemma RowFor(n: nat) returns (i: nat)
    requires n <= 311
    ensures i < 8 && RowStart(i) <= n <= PrimeRow(i)[7]
  {
    i := 0;
    while i < 7 && n > PrimeRow(i)[7]
      invariant i <= 7 && RowStart(i) <= n
    {
      i := i + 1;
    }
  }

  /** The table holds exactly the primes up to 311. */
  lemma PrimesExactly(n: nat)
    requires n <= 311
    ensures IsPrime(n) <==> exists t: nat :: t < 64 && PrimeAt(t) == n
  {
    hide IsPrime, Sieved, PrimeRow, RowStart;
    SieveIsExact(n);
    var i := RowFor(n);
    RowsSieved(i);
    if Sieved(n) {
      var k :| 0 <= k < 8 && PrimeRow(i)[k] == n;
      assert (8 * i + k) / 8 == i && PrimeAt(8 * i + k) == n;
    }
    if t: nat :| t < 64 && PrimeAt(t) == n {
      InRow(t);
      RowsSieved(t / 8);
      assert n in PrimeRow(t / 8);
    }
  }

  /** In ascending order, so it lists the first sixty-four primes. */
  lemma PrimesAscend(t: nat)
    requires t < 63
    ensures PrimeAt(t) < PrimeAt(t + 1)
  {}
}
