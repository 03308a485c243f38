/**
 The constants as FIPS 180-4 characterises them (sections 4.2.2 and 5.3.3): the first 32 bits of the fractional
 parts of the cube roots of the first sixty-four primes, and of the square roots of the first eight.
 */
module Sha256Constants {
  import opened Sha256Spec
  import opened Sha256Example

  // ---------------------------------------------------------------- the first sixty-four primes

  ghost predicate Prime(n: nat) {
    2 <= n && forall d :: 2 <= d < n ==> n % d != 0
  }

  predicate NoSmallFactor(n: nat) {
    n % 2 != 0 && n % 3 != 0 && n % 5 != 0 && n % 7 != 0 && n % 11 != 0 && n % 13 != 0 && n % 17 != 0
  }

  lemma MultipleOf2(n: nat, x: nat)
    requires n == 2 * x
    ensures !NoSmallFactor(n)
  {
    assert n % 2 == 0;
  }

  lemma MultipleOf3(n: nat, x: nat)
    requires n == 3 * x
    ensures !NoSmallFactor(n)
  {
    assert n % 3 == 0;
  }

  lemma MultipleOf5(n: nat, x: nat)
    requires n == 5 * x
    ensures !NoSmallFactor(n)
  {
    assert n % 5 == 0;
  }

  lemma MultipleOf7(n: nat, x: nat)
    requires n == 7 * x
    ensures !NoSmallFactor(n)
  {
    assert n % 7 == 0;
  }

  lemma MultipleOf11(n: nat, x: nat)
    requires n == 11 * x
    ensures !NoSmallFactor(n)
  {
    assert n % 11 == 0;
  }

  lemma MultipleOf13(n: nat, x: nat)
    requires n == 13 * x
    ensures !NoSmallFactor(n)
  {
    assert n % 13 == 0;
  }

  lemma MultipleOf17(n: nat, x: nat)
    requires n == 17 * x
    ensures !NoSmallFactor(n)
  {
    assert n % 17 == 0;
  }

  lemma SmallDivisor(n: nat, k: nat, q: nat)
    requires 2 <= q <= 18 && n == k * q
    ensures !NoSmallFactor(n)
  {
    hide NoSmallFactor;
    if q % 2 == 0 {
      assert n == 2 * (k * (q / 2));
      MultipleOf2(n, k * (q / 2));
    } else if q % 3 == 0 {
      assert n == 3 * (k * (q / 3));
      MultipleOf3(n, k * (q / 3));
    } else if q % 5 == 0 {
      assert n == 5 * (k * (q / 5));
      MultipleOf5(n, k * (q / 5));
    } else if q % 7 == 0 {
      assert n == 7 * (k * (q / 7));
      MultipleOf7(n, k * (q / 7));
    } else {
      assert q == 11 || q == 13 || q == 17;
      if q == 11 {
        MultipleOf11(n, k);
      } else if q == 13 {
        MultipleOf13(n, k);
      } else {
        MultipleOf17(n, k);
      }
    }
  }

  lemma Divisor(n: nat, d: nat)
    requires 2 <= d < n < 361 && n % d == 0
    ensures !NoSmallFactor(n)
  {
    var q := n / d;
    assert n == d * q;
    if d <= 18 {
      SmallDivisor(n, q, d);
    } else {
      assert 2 <= q <= 18;
      SmallDivisor(n, d, q);
    }
  }

  /** Below 361 trial division by the primes to 17 decides. */
  lemma TrialDivision(n: nat)
    requires 2 <= n < 361
    ensures Prime(n) <==> NoSmallFactor(n) || n in {2, 3, 5, 7, 11, 13, 17}
  {
    if NoSmallFactor(n) {
      forall d | 2 <= d < n ensures n % d != 0 {
        if n % d == 0 {
          Divisor(n, d);
        }
      }
    }
  }

  const P0: seq<nat> := [2, 3, 5, 7, 11, 13, 17, 19]
  const P8: seq<nat> := [23, 29, 31, 37, 41, 43, 47, 53]
  const P16: seq<nat> := [59, 61, 67, 71, 73, 79, 83, 89]
  const P24: seq<nat> := [97, 101, 103, 107, 109, 113, 127, 131]
  const P32: seq<nat> := [137, 139, 149, 151, 157, 163, 167, 173]
  const P40: seq<nat> := [179, 181, 191, 193, 197, 199, 211, 223]
  const P48: seq<nat> := [227, 229, 233, 239, 241, 251, 257, 263]
  const P56: seq<nat> := [269, 271, 277, 281, 283, 293, 307, 311]

  const PRIMES: seq<nat> := P0 + P8 + P16 + P24 + P32 + P40 + P48 + P56

  lemma Sieve2()
    ensures forall n :: 2 <= n <= 5 ==> (NoSmallFactor(n) || n in {2, 3, 5, 7, 11, 13, 17} <==> n in {2, 3, 5})
  {
  }

  lemma Sieve6()
    ensures forall n :: 6 <= n <= 10 ==> (NoSmallFactor(n) || n in {2, 3, 5, 7, 11, 13, 17} <==> n in {7})
  {
  }

  lemma Sieve11()
    ensures forall n :: 11 <= n <= 14 ==> (NoSmallFactor(n) || n in {2, 3, 5, 7, 11, 13, 17} <==> n in {11, 13})
  {
  }

  lemma Sieve15()
    ensures forall n :: 15 <= n <= 19 ==> (NoSmallFactor(n) || n in {2, 3, 5, 7, 11, 13, 17} <==> n in {17, 19})
  {
  }

  lemma Primes0()
    ensures forall n :: 2 <= n <= 19 ==> (Prime(n) <==> n in P0)
    ensures forall n :: n in P0 ==> 2 <= n <= 19
    ensures |P0| == 8 && forall i, k :: 0 <= i < k < 8 ==> P0[i] < P0[k]
  {
    hide Prime, NoSmallFactor;
    Sieve2();
    Sieve6();
    Sieve11();
    Sieve15();
    forall n | 2 <= n <= 19 ensures Prime(n) <==> n in P0 {
      TrialDivision(n);
    }
  }

  lemma Sieve20()
    ensures forall n :: 20 <= n <= 27 ==> (NoSmallFactor(n) || n in {2, 3, 5, 7, 11, 13, 17} <==> n in {23})
  {
  }

  lemma Sieve28()
    ensures forall n :: 28 <= n <= 36 ==> (NoSmallFactor(n) || n in {2, 3, 5, 7, 11, 13, 17} <==> n in {29, 31})
  {
  }

  lemma Sieve37()
    ensures forall n :: 37 <= n <= 44 ==> (NoSmallFactor(n) || n in {2, 3, 5, 7, 11, 13, 17} <==> n in {37, 41, 43})
  {
  }

  lemma Sieve45()
    ensures forall n :: 45 <= n <= 53 ==> (NoSmallFactor(n) || n in {2, 3, 5, 7, 11, 13, 17} <==> n in {47, 53})
  {
  }

  lemma Primes8()
    ensures forall n :: 20 <= n <= 53 ==> (Prime(n) <==> n in P8)
    ensures forall n :: n in P8 ==> 20 <= n <= 53
    ensures |P8| == 8 && forall i, k :: 0 <= i < k < 8 ==> P8[i] < P8[k]
  {
    hide Prime, NoSmallFactor;
    Sieve20();
    Sieve28();
    Sieve37();
    Sieve45();
    forall n | 20 <= n <= 53 ensures Prime(n) <==> n in P8 {
      TrialDivision(n);
    }
  }

  lemma Sieve54()
    ensures forall n :: 54 <= n <= 62 ==> (NoSmallFactor(n) || n in {2, 3, 5, 7, 11, 13, 17} <==> n in {59, 61})
  {
  }

  lemma Sieve63()
    ensures forall n :: 63 <= n <= 71 ==> (NoSmallFactor(n) || n in {2, 3, 5, 7, 11, 13, 17} <==> n in {67, 71})
  {
  }

  lemma Sieve72()
    ensures forall n :: 72 <= n <= 80 ==> (NoSmallFactor(n) || n in {2, 3, 5, 7, 11, 13, 17} <==> n in {73, 79})
  {
  }

  lemma Sieve81()
    ensures forall n :: 81 <= n <= 89 ==> (NoSmallFactor(n) || n in {2, 3, 5, 7, 11, 13, 17} <==> n in {83, 89})
  {
  }

  lemma Primes16()
    ensures forall n :: 54 <= n <= 89 ==> (Prime(n) <==> n in P16)
    ensures forall n :: n in P16 ==> 54 <= n <= 89
    ensures |P16| == 8 && forall i, k :: 0 <= i < k < 8 ==> P16[i] < P16[k]
  {
    hide Prime, NoSmallFactor;
    Sieve54();
    Sieve63();
    Sieve72();
    Sieve81();
    forall n | 54 <= n <= 89 ensures Prime(n) <==> n in P16 {
      TrialDivision(n);
    }
  }

  lemma Sieve90()
    ensures forall n :: 90 <= n <= 99 ==> (NoSmallFactor(n) || n in {2, 3, 5, 7, 11, 13, 17} <==> n in {97})
  {
  }

  lemma Sieve100()
    ensures forall n :: 100 <= n <= 110 ==> (NoSmallFactor(n) || n in {2, 3, 5, 7, 11, 13, 17} <==> n in {101, 103, 107, 109})
  {
  }

  lemma Sieve111()
    ensures forall n :: 111 <= n <= 120 ==> (NoSmallFactor(n) || n in {2, 3, 5, 7, 11, 13, 17} <==> n in {113})
  {
  }

  lemma Sieve121()
    ensures forall n :: 121 <= n <= 131 ==> (NoSmallFactor(n) || n in {2, 3, 5, 7, 11, 13, 17} <==> n in {127, 131})
  {
  }

  lemma Primes24()
    ensures forall n :: 90 <= n <= 131 ==> (Prime(n) <==> n in P24)
    ensures forall n :: n in P24 ==> 90 <= n <= 131
    ensures |P24| == 8 && forall i, k :: 0 <= i < k < 8 ==> P24[i] < P24[k]
  {
    hide Prime, NoSmallFactor;
    Sieve90();
    Sieve100();
    Sieve111();
    Sieve121();
    forall n | 90 <= n <= 131 ensures Prime(n) <==> n in P24 {
      TrialDivision(n);
    }
  }

  lemma Sieve132()
    ensures forall n :: 132 <= n <= 141 ==> (NoSmallFactor(n) || n in {2, 3, 5, 7, 11, 13, 17} <==> n in {137, 139})
  {
  }

  lemma Sieve142()
    ensures forall n :: 142 <= n <= 152 ==> (NoSmallFactor(n) || n in {2, 3, 5, 7, 11, 13, 17} <==> n in {149, 151})
  {
  }

  lemma Sieve153()
    ensures forall n :: 153 <= n <= 162 ==> (NoSmallFactor(n) || n in {2, 3, 5, 7, 11, 13, 17} <==> n in {157})
  {
  }

  lemma Sieve163()
    ensures forall n :: 163 <= n <= 173 ==> (NoSmallFactor(n) || n in {2, 3, 5, 7, 11, 13, 17} <==> n in {163, 167, 173})
  {
  }

  lemma Primes32()
    ensures forall n :: 132 <= n <= 173 ==> (Prime(n) <==> n in P32)
    ensures forall n :: n in P32 ==> 132 <= n <= 173
    ensures |P32| == 8 && forall i, k :: 0 <= i < k < 8 ==> P32[i] < P32[k]
  {
    hide Prime, NoSmallFactor;
    Sieve132();
    Sieve142();
    Sieve153();
    Sieve163();
    forall n | 132 <= n <= 173 ensures Prime(n) <==> n in P32 {
      TrialDivision(n);
    }
  }

  lemma Sieve174()
    ensures forall n :: 174 <= n <= 185 ==> (NoSmallFactor(n) || n in {2, 3, 5, 7, 11, 13, 17} <==> n in {179, 181})
  {
  }

  lemma Sieve186()
    ensures forall n :: 186 <= n <= 198 ==> (NoSmallFactor(n) || n in {2, 3, 5, 7, 11, 13, 17} <==> n in {191, 193, 197})
  {
  }

  lemma Sieve199()
    ensures forall n :: 199 <= n <= 210 ==> (NoSmallFactor(n) || n in {2, 3, 5, 7, 11, 13, 17} <==> n in {199})
  {
  }

  lemma Sieve211()
    ensures forall n :: 211 <= n <= 223 ==> (NoSmallFactor(n) || n in {2, 3, 5, 7, 11, 13, 17} <==> n in {211, 223})
  {
  }

  lemma Primes40()
    ensures forall n :: 174 <= n <= 223 ==> (Prime(n) <==> n in P40)
    ensures forall n :: n in P40 ==> 174 <= n <= 223
    ensures |P40| == 8 && forall i, k :: 0 <= i < k < 8 ==> P40[i] < P40[k]
  {
    hide Prime, NoSmallFactor;
    Sieve174();
    Sieve186();
    Sieve199();
    Sieve211();
    forall n | 174 <= n <= 223 ensures Prime(n) <==> n in P40 {
      TrialDivision(n);
    }
  }

  lemma Sieve224()
    ensures forall n :: 224 <= n <= 233 ==> (NoSmallFactor(n) || n in {2, 3, 5, 7, 11, 13, 17} <==> n in {227, 229, 233})
  {
  }

  lemma Sieve234()
    ensures forall n :: 234 <= n <= 243 ==> (NoSmallFactor(n) || n in {2, 3, 5, 7, 11, 13, 17} <==> n in {239, 241})
  {
  }

  lemma Sieve244()
    ensures forall n :: 244 <= n <= 253 ==> (NoSmallFactor(n) || n in {2, 3, 5, 7, 11, 13, 17} <==> n in {251})
  {
  }

  lemma Sieve254()
    ensures forall n :: 254 <= n <= 263 ==> (NoSmallFactor(n) || n in {2, 3, 5, 7, 11, 13, 17} <==> n in {257, 263})
  {
  }

  lemma Primes48()
    ensures forall n :: 224 <= n <= 263 ==> (Prime(n) <==> n in P48)
    ensures forall n :: n in P48 ==> 224 <= n <= 263
    ensures |P48| == 8 && forall i, k :: 0 <= i < k < 8 ==> P48[i] < P48[k]
  {
    hide Prime, NoSmallFactor;
    Sieve224();
    Sieve234();
    Sieve244();
    Sieve254();
    forall n | 224 <= n <= 263 ensures Prime(n) <==> n in P48 {
      TrialDivision(n);
    }
  }

  lemma Sieve264()
    ensures forall n :: 264 <= n <= 275 ==> (NoSmallFactor(n) || n in {2, 3, 5, 7, 11, 13, 17} <==> n in {269, 271})
  {
  }

  lemma Sieve276()
    ensures forall n :: 276 <= n <= 287 ==> (NoSmallFactor(n) || n in {2, 3, 5, 7, 11, 13, 17} <==> n in {277, 281, 283})
  {
  }

  lemma Sieve288()
    ensures forall n :: 288 <= n <= 299 ==> (NoSmallFactor(n) || n in {2, 3, 5, 7, 11, 13, 17} <==> n in {293})
  {
  }

  lemma Sieve300()
    ensures forall n :: 300 <= n <= 311 ==> (NoSmallFactor(n) || n in {2, 3, 5, 7, 11, 13, 17} <==> n in {307, 311})
  {
  }

  lemma Primes56()
    ensures forall n :: 264 <= n <= 311 ==> (Prime(n) <==> n in P56)
    ensures forall n :: n in P56 ==> 264 <= n <= 311
    ensures |P56| == 8 && forall i, k :: 0 <= i < k < 8 ==> P56[i] < P56[k]
  {
    hide Prime, NoSmallFactor;
    Sieve264();
    Sieve276();
    Sieve288();
    Sieve300();
    forall n | 264 <= n <= 311 ensures Prime(n) <==> n in P56 {
      TrialDivision(n);
    }
  }

  /** The table lists the primes up to 311, all of them and in increasing order. */
  lemma FirstPrimes()
    ensures |PRIMES| == 64
    ensures forall n :: n <= 311 ==> (Prime(n) <==> n in PRIMES)
    ensures forall i, k :: 0 <= i < k < 64 ==> PRIMES[i] < PRIMES[k]
  {
    Primes0();
    Primes8();
    Primes16();
    Primes24();
    Primes32();
    Primes40();
    Primes48();
    Primes56();
    hide Prime, P0, P8, P16, P24, P32, P40, P48, P56;
    NoPrimeBelowTwo();
    forall i, k | 0 <= i < k < 64 ensures PRIMES[i] < PRIMES[k] {
      RowOf(i);
      RowOf(k);
      RowsGrow(i / 8, k / 8, i % 8, k % 8);
    }
  }

  lemma NoPrimeBelowTwo()
    ensures !Prime(0) && !Prime(1)
  {
  }

  lemma RowsGrow(a: nat, b: nat, i: nat, k: nat)
    requires a <= b < 8 && i < 8 && k < 8 && (a < b || i < k)
    ensures |Row(a)| == |Row(b)| == 8 && Row(a)[i] < Row(b)[k]
  {
    Primes0();
    Primes8();
    Primes16();
    Primes24();
    Primes32();
    Primes40();
    Primes48();
    Primes56();
    hide P0, P8, P16, P24, P32, P40, P48, P56, Prime;
    assert Row(a)[i] in Row(a) && Row(b)[k] in Row(b);
  }

  function Row(j: nat): seq<nat>
    requires j < 8
  {
    if j == 0 then P0 else if j == 1 then P8 else if j == 2 then P16 else if j == 3 then P24
    else if j == 4 then P32 else if j == 5 then P40 else if j == 6 then P48 else P56
  }

  lemma RowOf(i: nat)
    requires i < 64
    ensures |PRIMES| == 64 && |Row(i / 8)| == 8 && PRIMES[i] == Row(i / 8)[i % 8]
  {
    assert |P0| == |P8| == |P16| == |P24| == |P32| == |P40| == |P48| == |P56| == 8;
    hide P0, P8, P16, P24, P32, P40, P48, P56;
  }

  // ---------------------------------------------------------------- roots

  const TWO_32: nat := 0x1_0000_0000

  /** `k` is the first 32 bits after the point of the cube root of `p`, whose integer part is `c`. */
  predicate CubeRoot(p: nat, c: nat, k: word) {
    var x := c * TWO_32 + k as nat;
    x * x * x <= p * TWO_32 * TWO_32 * TWO_32 < (x + 1) * (x + 1) * (x + 1)
  }

  predicate SquareRoot(p: nat, c: nat, k: word) {
    var x := c * TWO_32 + k as nat;
    x * x <= p * TWO_32 * TWO_32 < (x + 1) * (x + 1)
  }

  ghost predicate FromCubeRoot(p: nat, k: word) {
    exists c: nat :: CubeRoot(p, c, k)
  }

  ghost predicate FromSquareRoot(p: nat, h: word) {
    exists c: nat :: SquareRoot(p, c, h)
  }

  lemma Roots0()
    ensures FromCubeRoot(2, 0x428a2f98)
    ensures FromCubeRoot(3, 0x71374491)
    ensures FromCubeRoot(5, 0xb5c0fbcf)
    ensures FromCubeRoot(7, 0xe9b5dba5)
  {
    assert CubeRoot(2, 1, 0x428a2f98);
    assert CubeRoot(3, 1, 0x71374491);
    assert CubeRoot(5, 1, 0xb5c0fbcf);
    assert CubeRoot(7, 1, 0xe9b5dba5);
    hide CubeRoot;
  }

  lemma Roots4()
    ensures FromCubeRoot(11, 0x3956c25b)
    ensures FromCubeRoot(13, 0x59f111f1)
    ensures FromCubeRoot(17, 0x923f82a4)
    ensures FromCubeRoot(19, 0xab1c5ed5)
  {
    assert CubeRoot(11, 2, 0x3956c25b);
    assert CubeRoot(13, 2, 0x59f111f1);
    assert CubeRoot(17, 2, 0x923f82a4);
    assert CubeRoot(19, 2, 0xab1c5ed5);
    hide CubeRoot;
  }

  lemma RootsOfRow0()
    ensures |P0| == |K0| == 8 && forall i :: 0 <= i < 8 ==> FromCubeRoot(P0[i], K0[i])
  {
    hide FromCubeRoot;
    Roots0();
    Roots4();
  }

  lemma Roots8()
    ensures FromCubeRoot(23, 0xd807aa98)
    ensures FromCubeRoot(29, 0x12835b01)
    ensures FromCubeRoot(31, 0x243185be)
    ensures FromCubeRoot(37, 0x550c7dc3)
  {
    assert CubeRoot(23, 2, 0xd807aa98);
    assert CubeRoot(29, 3, 0x12835b01);
    assert CubeRoot(31, 3, 0x243185be);
    assert CubeRoot(37, 3, 0x550c7dc3);
    hide CubeRoot;
  }

  lemma Roots12()
    ensures FromCubeRoot(41, 0x72be5d74)
    ensures FromCubeRoot(43, 0x80deb1fe)
    ensures FromCubeRoot(47, 0x9bdc06a7)
    ensures FromCubeRoot(53, 0xc19bf174)
  {
    assert CubeRoot(41, 3, 0x72be5d74);
    assert CubeRoot(43, 3, 0x80deb1fe);
    assert CubeRoot(47, 3, 0x9bdc06a7);
    assert CubeRoot(53, 3, 0xc19bf174);
    hide CubeRoot;
  }

  lemma RootsOfRow8()
    ensures |P8| == |K8| == 8 && forall i :: 0 <= i < 8 ==> FromCubeRoot(P8[i], K8[i])
  {
    hide FromCubeRoot;
    Roots8();
    Roots12();
  }

  lemma Roots16()
    ensures FromCubeRoot(59, 0xe49b69c1)
    ensures FromCubeRoot(61, 0xefbe4786)
    ensures FromCubeRoot(67, 0x0fc19dc6)
    ensures FromCubeRoot(71, 0x240ca1cc)
  {
    assert CubeRoot(59, 3, 0xe49b69c1);
    assert CubeRoot(61, 3, 0xefbe4786);
    assert CubeRoot(67, 4, 0x0fc19dc6);
    assert CubeRoot(71, 4, 0x240ca1cc);
    hide CubeRoot;
  }

  lemma Roots20()
    ensures FromCubeRoot(73, 0x2de92c6f)
    ensures FromCubeRoot(79, 0x4a7484aa)
    ensures FromCubeRoot(83, 0x5cb0a9dc)
    ensures FromCubeRoot(89, 0x76f988da)
  {
    assert CubeRoot(73, 4, 0x2de92c6f);
    assert CubeRoot(79, 4, 0x4a7484aa);
    assert CubeRoot(83, 4, 0x5cb0a9dc);
    assert CubeRoot(89, 4, 0x76f988da);
    hide CubeRoot;
  }

  lemma RootsOfRow16()
    ensures |P16| == |K16| == 8 && forall i :: 0 <= i < 8 ==> FromCubeRoot(P16[i], K16[i])
  {
    hide FromCubeRoot;
    Roots16();
    Roots20();
  }

  lemma Roots24()
    ensures FromCubeRoot(97, 0x983e5152)
    ensures FromCubeRoot(101, 0xa831c66d)
    ensures FromCubeRoot(103, 0xb00327c8)
    ensures FromCubeRoot(107, 0xbf597fc7)
  {
    assert CubeRoot(97, 4, 0x983e5152);
    assert CubeRoot(101, 4, 0xa831c66d);
    assert CubeRoot(103, 4, 0xb00327c8);
    assert CubeRoot(107, 4, 0xbf597fc7);
    hide CubeRoot;
  }

  lemma Roots28()
    ensures FromCubeRoot(109, 0xc6e00bf3)
    ensures FromCubeRoot(113, 0xd5a79147)
    ensures FromCubeRoot(127, 0x06ca6351)
    ensures FromCubeRoot(131, 0x14292967)
  {
    assert CubeRoot(109, 4, 0xc6e00bf3);
    assert CubeRoot(113, 4, 0xd5a79147);
    assert CubeRoot(127, 5, 0x06ca6351);
    assert CubeRoot(131, 5, 0x14292967);
    hide CubeRoot;
  }

  lemma RootsOfRow24()
    ensures |P24| == |K24| == 8 && forall i :: 0 <= i < 8 ==> FromCubeRoot(P24[i], K24[i])
  {
    hide FromCubeRoot;
    Roots24();
    Roots28();
  }

  lemma Roots32()
    ensures FromCubeRoot(137, 0x27b70a85)
    ensures FromCubeRoot(139, 0x2e1b2138)
    ensures FromCubeRoot(149, 0x4d2c6dfc)
    ensures FromCubeRoot(151, 0x53380d13)
  {
    assert CubeRoot(137, 5, 0x27b70a85);
    assert CubeRoot(139, 5, 0x2e1b2138);
    assert CubeRoot(149, 5, 0x4d2c6dfc);
    assert CubeRoot(151, 5, 0x53380d13);
    hide CubeRoot;
  }

  lemma Roots36()
    ensures FromCubeRoot(157, 0x650a7354)
    ensures FromCubeRoot(163, 0x766a0abb)
    ensures FromCubeRoot(167, 0x81c2c92e)
    ensures FromCubeRoot(173, 0x92722c85)
  {
    assert CubeRoot(157, 5, 0x650a7354);
    assert CubeRoot(163, 5, 0x766a0abb);
    assert CubeRoot(167, 5, 0x81c2c92e);
    assert CubeRoot(173, 5, 0x92722c85);
    hide CubeRoot;
  }

  lemma RootsOfRow32()
    ensures |P32| == |K32| == 8 && forall i :: 0 <= i < 8 ==> FromCubeRoot(P32[i], K32[i])
  {
    hide FromCubeRoot;
    Roots32();
    Roots36();
  }

  lemma Roots40()
    ensures FromCubeRoot(179, 0xa2bfe8a1)
    ensures FromCubeRoot(181, 0xa81a664b)
    ensures FromCubeRoot(191, 0xc24b8b70)
    ensures FromCubeRoot(193, 0xc76c51a3)
  {
    assert CubeRoot(179, 5, 0xa2bfe8a1);
    assert CubeRoot(181, 5, 0xa81a664b);
    assert CubeRoot(191, 5, 0xc24b8b70);
    assert CubeRoot(193, 5, 0xc76c51a3);
    hide CubeRoot;
  }

  lemma Roots44()
    ensures FromCubeRoot(197, 0xd192e819)
    ensures FromCubeRoot(199, 0xd6990624)
    ensures FromCubeRoot(211, 0xf40e3585)
    ensures FromCubeRoot(223, 0x106aa070)
  {
    assert CubeRoot(197, 5, 0xd192e819);
    assert CubeRoot(199, 5, 0xd6990624);
    assert CubeRoot(211, 5, 0xf40e3585);
    assert CubeRoot(223, 6, 0x106aa070);
    hide CubeRoot;
  }

  lemma RootsOfRow40()
    ensures |P40| == |K40| == 8 && forall i :: 0 <= i < 8 ==> FromCubeRoot(P40[i], K40[i])
  {
    hide FromCubeRoot;
    Roots40();
    Roots44();
  }

  lemma Roots48()
    ensures FromCubeRoot(227, 0x19a4c116)
    ensures FromCubeRoot(229, 0x1e376c08)
    ensures FromCubeRoot(233, 0x2748774c)
    ensures FromCubeRoot(239, 0x34b0bcb5)
  {
    assert CubeRoot(227, 6, 0x19a4c116);
    assert CubeRoot(229, 6, 0x1e376c08);
    assert CubeRoot(233, 6, 0x2748774c);
    assert CubeRoot(239, 6, 0x34b0bcb5);
    hide CubeRoot;
  }

  lemma Roots52()
    ensures FromCubeRoot(241, 0x391c0cb3)
    ensures FromCubeRoot(251, 0x4ed8aa4a)
    ensures FromCubeRoot(257, 0x5b9cca4f)
    ensures FromCubeRoot(263, 0x682e6ff3)
  {
    assert CubeRoot(241, 6, 0x391c0cb3);
    assert CubeRoot(251, 6, 0x4ed8aa4a);
    assert CubeRoot(257, 6, 0x5b9cca4f);
    assert CubeRoot(263, 6, 0x682e6ff3);
    hide CubeRoot;
  }

  lemma RootsOfRow48()
    ensures |P48| == |K48| == 8 && forall i :: 0 <= i < 8 ==> FromCubeRoot(P48[i], K48[i])
  {
    hide FromCubeRoot;
    Roots48();
    Roots52();
  }

  lemma Roots56()
    ensures FromCubeRoot(269, 0x748f82ee)
    ensures FromCubeRoot(271, 0x78a5636f)
    ensures FromCubeRoot(277, 0x84c87814)
    ensures FromCubeRoot(281, 0x8cc70208)
  {
    assert CubeRoot(269, 6, 0x748f82ee);
    assert CubeRoot(271, 6, 0x78a5636f);
    assert CubeRoot(277, 6, 0x84c87814);
    assert CubeRoot(281, 6, 0x8cc70208);
    hide CubeRoot;
  }

  lemma Roots60()
    ensures FromCubeRoot(283, 0x90befffa)
    ensures FromCubeRoot(293, 0xa4506ceb)
    ensures FromCubeRoot(307, 0xbef9a3f7)
    ensures FromCubeRoot(311, 0xc67178f2)
  {
    assert CubeRoot(283, 6, 0x90befffa);
    assert CubeRoot(293, 6, 0xa4506ceb);
    assert CubeRoot(307, 6, 0xbef9a3f7);
    assert CubeRoot(311, 6, 0xc67178f2);
    hide CubeRoot;
  }

  lemma RootsOfRow56()
    ensures |P56| == |K56| == 8 && forall i :: 0 <= i < 8 ==> FromCubeRoot(P56[i], K56[i])
  {
    hide FromCubeRoot;
    Roots56();
    Roots60();
  }

  function KeyRow(j: nat): seq<word>
    requires j < 8
  {
    if j == 0 then K0 else if j == 1 then K8 else if j == 2 then K16 else if j == 3 then K24
    else if j == 4 then K32 else if j == 5 then K40 else if j == 6 then K48 else K56
  }

  lemma KeyOf(i: nat)
    requires i < 64
    ensures |K| == 64 && |KeyRow(i / 8)| == 8 && K[i] == KeyRow(i / 8)[i % 8]
  {
    KeyLengths();
    hide K0, K8, K16, K24, K32, K40, K48, K56;
  }

  lemma KeyLengths()
    ensures |K0| == |K8| == |K16| == |K24| == |K32| == |K40| == |K48| == |K56| == 8
  {
  }

  lemma RootsOfRow(j: nat, i: nat)
    requires j < 8 && i < 8
    ensures |Row(j)| == |KeyRow(j)| == 8 && FromCubeRoot(Row(j)[i], KeyRow(j)[i])
  {
    RootsOfRow0();
    RootsOfRow8();
    RootsOfRow16();
    RootsOfRow24();
    RootsOfRow32();
    RootsOfRow40();
    RootsOfRow48();
    RootsOfRow56();
    hide FromCubeRoot, P0, P8, P16, P24, P32, P40, P48, P56, K0, K8, K16, K24, K32, K40, K48, K56;
  }

  /** Each constant of the table comes from the cube root of the prime in its place. */
  lemma KeysAreCubeRoots()
    ensures |K| == |PRIMES| == 64 && forall i :: 0 <= i < 64 ==> FromCubeRoot(PRIMES[i], K[i])
  {
    FirstPrimes();
    KeyOf(0);
    forall i | 0 <= i < 64 ensures FromCubeRoot(PRIMES[i], K[i]) {
      RowOf(i);
      KeyOf(i);
      RootsOfRow(i / 8, i % 8);
    }
    hide FromCubeRoot, PRIMES, K, Row, KeyRow;
  }

  /** Each initial hash word comes from the square root of the prime in its place. */
  lemma InitialHashIsSquareRoots()
    ensures FromSquareRoot(2, H0.a)
    ensures FromSquareRoot(3, H0.b)
    ensures FromSquareRoot(5, H0.c)
    ensures FromSquareRoot(7, H0.d)
    ensures FromSquareRoot(11, H0.e)
    ensures FromSquareRoot(13, H0.f)
    ensures FromSquareRoot(17, H0.g)
    ensures FromSquareRoot(19, H0.h)
  {
    assert SquareRoot(2, 1, 0x6a09e667);
    assert SquareRoot(3, 1, 0xbb67ae85);
    assert SquareRoot(5, 2, 0x3c6ef372);
    assert SquareRoot(7, 2, 0xa54ff53a);
    assert SquareRoot(11, 3, 0x510e527f);
    assert SquareRoot(13, 3, 0x9b05688c);
    assert SquareRoot(17, 4, 0x1f83d9ab);
    assert SquareRoot(19, 4, 0x5be0cd19);
    hide SquareRoot;
  }
}
