/** Where the constants of `Fips180` come from: sections 4.2.2 and 5.3.3 of FIPS 180-4. */
module Fips180Constants {
  import opened Basics
  import opened Fips180

  // ----- prime numbers -----

  predicate Divides(d: nat, n: nat)
    requires d > 0
  {
    n % d == 0
  }

  predicate Prime(n: nat) {
    n >= 2 && forall d :: 2 <= d < n ==> !Divides(d, n)
  }

  function PrimesBelow(n: nat): nat {
    if n == 0 then 0 else PrimesBelow(n - 1) + if Prime(n - 1) then 1 else 0
  }

  /** `p` is a prime number, and there are `t` smaller ones. */
  predicate NthPrime(t: nat, p: nat) {
    Prime(p) && PrimesBelow(p) == t
  }

  /** No prime number up to 17 divides `n`, except for `n` itself. */
  predicate Sieved(n: nat) {
    && (n % 2 != 0 || n == 2) && (n % 3 != 0 || n == 3) && (n % 5 != 0 || n == 5) && (n % 7 != 0 || n == 7)
    && (n % 11 != 0 || n == 11) && (n % 13 != 0 || n == 13) && (n % 17 != 0 || n == 17)
  }

  lemma Multiple(d: nat, c: nat, n: nat)
    requires d > 0 && n == c * d
    ensures Divides(d, n)
  {
    Quotient(n, d, c);
    assert n == d * (n / d) + n % d;
  }

  /** Of two factors one is at most the root. */
  lemma SmallFactor(n: nat, c: nat) returns (f: nat)
    requires 2 <= c < n < 361 && Divides(c, n)
    ensures 2 <= f <= 18 && f < n && Divides(f, n)
  {
    if c <= 18 { return c; }
    f := n / c;
    assert n == c * f;
    assert f != 0 && f != 1;
    if f >= 19 { Multiples(c, 19, f); assert false; }
    Multiple(f, c, n);
  }

  /** A divisor up to 18 has a prime divisor up to 17. */
  lemma SmallPrimeFactor(n: nat, f: nat)
    requires 2 <= f <= 18 && f < n && Divides(f, n)
    ensures !Sieved(n)
  {
    var k := n / f;
    assert n == f * k;
    if f % 2 == 0 { assert n == 2 * (f / 2 * k); Multiple(2, f / 2 * k, n); }
    else if f % 3 == 0 { assert n == 3 * (f / 3 * k); Multiple(3, f / 3 * k, n); }
    else { assert f in {5, 7, 11, 13, 17}; }
  }

  /** Below 19 * 19 the sieve finds exactly the prime numbers. */
  lemma SievedIsPrime(n: nat)
    requires 2 <= n < 361
    ensures Sieved(n) <==> Prime(n)
  {
    if c :| 2 <= c < n && Divides(c, n) {
      var f := SmallFactor(n, c);
      SmallPrimeFactor(n, f);
    } else if !Sieved(n) {
      var p :| p in {2, 3, 5, 7, 11, 13, 17} && n % p == 0 && n != p;
      ProperDivisor(p, n);
    }
  }

  lemma ProperDivisor(p: nat, n: nat)
    requires 2 <= p && 2 <= n && n % p == 0 && n != p
    ensures p < n && Divides(p, n)
  {}

  predicate NoPrimes(low: nat, high: nat)
    decreases high - low
  {
    low >= high || (!Sieved(low) && NoPrimes(low + 1, high))
  }

  lemma {:induction false} NoPrimesCount(low: nat, high: nat)
    requires 2 <= low <= high < 361 && NoPrimes(low, high)
    ensures PrimesBelow(high) == PrimesBelow(low)
    decreases high - low
  {
    if low < high {
      SievedIsPrime(low);
      NoPrimesCount(low + 1, high);
    }
  }

  lemma NextPrime(t: nat, p: nat, q: nat)
    requires NthPrime(t, p) && p < q < 361 && NoPrimes(p + 1, q) && Sieved(q)
    ensures NthPrime(t + 1, q)
  {
    NoPrimesCount(p + 1, q);
    SievedIsPrime(q);
  }

  function PrimeNumber(t: nat): nat
    requires t < 64
  {
    if t < 8 then [ 2, 3, 5, 7, 11, 13, 17, 19 ][t]
    else if t < 16 then [ 23, 29, 31, 37, 41, 43, 47, 53 ][t - 8]
    else if t < 24 then [ 59, 61, 67, 71, 73, 79, 83, 89 ][t - 16]
    else if t < 32 then [ 97, 101, 103, 107, 109, 113, 127, 131 ][t - 24]
    else if t < 40 then [ 137, 139, 149, 151, 157, 163, 167, 173 ][t - 32]
    else if t < 48 then [ 179, 181, 191, 193, 197, 199, 211, 223 ][t - 40]
    else if t < 56 then [ 227, 229, 233, 239, 241, 251, 257, 263 ][t - 48]
    else [ 269, 271, 277, 281, 283, 293, 307, 311 ][t - 56]
  }

  /** `p` and `q` are neighbours in the table, and no other prime number is between them. */
  predicate AreNeighbours(t: nat, p: nat, q: nat)
    requires 1 <= t < 64
  {
    p == PrimeNumber(t - 1) && q == PrimeNumber(t) && p < q < 361 && NoPrimes(p + 1, q) && Sieved(q)
  }

  lemma Listed8()
    ensures AreNeighbours(1, 2, 3)
    ensures AreNeighbours(2, 3, 5)
    ensures AreNeighbours(3, 5, 7)
    ensures AreNeighbours(4, 7, 11)
    ensures AreNeighbours(5, 11, 13)
    ensures AreNeighbours(6, 13, 17)
    ensures AreNeighbours(7, 17, 19)
  {}

  lemma Listed16()
    ensures AreNeighbours(8, 19, 23)
    ensures AreNeighbours(9, 23, 29)
    ensures AreNeighbours(10, 29, 31)
    ensures AreNeighbours(11, 31, 37)
    ensures AreNeighbours(12, 37, 41)
    ensures AreNeighbours(13, 41, 43)
    ensures AreNeighbours(14, 43, 47)
    ensures AreNeighbours(15, 47, 53)
  {}

  lemma Listed24()
    ensures AreNeighbours(16, 53, 59)
    ensures AreNeighbours(17, 59, 61)
    ensures AreNeighbours(18, 61, 67)
    ensures AreNeighbours(19, 67, 71)
    ensures AreNeighbours(20, 71, 73)
    ensures AreNeighbours(21, 73, 79)
    ensures AreNeighbours(22, 79, 83)
    ensures AreNeighbours(23, 83, 89)
  {}

  lemma Listed32()
    ensures AreNeighbours(24, 89, 97)
    ensures AreNeighbours(25, 97, 101)
    ensures AreNeighbours(26, 101, 103)
    ensures AreNeighbours(27, 103, 107)
    ensures AreNeighbours(28, 107, 109)
    ensures AreNeighbours(29, 109, 113)
    ensures AreNeighbours(30, 113, 127)
    ensures AreNeighbours(31, 127, 131)
  {}

  lemma Listed40()
    ensures AreNeighbours(32, 131, 137)
    ensures AreNeighbours(33, 137, 139)
    ensures AreNeighbours(34, 139, 149)
    ensures AreNeighbours(35, 149, 151)
    ensures AreNeighbours(36, 151, 157)
    ensures AreNeighbours(37, 157, 163)
    ensures AreNeighbours(38, 163, 167)
    ensures AreNeighbours(39, 167, 173)
  {}

  lemma Listed48()
    ensures AreNeighbours(40, 173, 179)
    ensures AreNeighbours(41, 179, 181)
    ensures AreNeighbours(42, 181, 191)
    ensures AreNeighbours(43, 191, 193)
    ensures AreNeighbours(44, 193, 197)
    ensures AreNeighbours(45, 197, 199)
    ensures AreNeighbours(46, 199, 211)
    ensures AreNeighbours(47, 211, 223)
  {}

  lemma Listed56()
    ensures AreNeighbours(48, 223, 227)
    ensures AreNeighbours(49, 227, 229)
    ensures AreNeighbours(50, 229, 233)
    ensures AreNeighbours(51, 233, 239)
    ensures AreNeighbours(52, 239, 241)
    ensures AreNeighbours(53, 241, 251)
    ensures AreNeighbours(54, 251, 257)
    ensures AreNeighbours(55, 257, 263)
  {}

  lemma Listed64()
    ensures AreNeighbours(56, 263, 269)
    ensures AreNeighbours(57, 269, 271)
    ensures AreNeighbours(58, 271, 277)
    ensures AreNeighbours(59, 277, 281)
    ensures AreNeighbours(60, 281, 283)
    ensures AreNeighbours(61, 283, 293)
    ensures AreNeighbours(62, 293, 307)
    ensures AreNeighbours(63, 307, 311)
  {}

  lemma Neighbours8(t: nat)
    requires 1 <= t < 8
    ensures exists p, q :: AreNeighbours(t, p, q)
  {
    Listed8();
  }

  lemma Neighbours16(t: nat)
    requires 8 <= t < 16
    ensures exists p, q :: AreNeighbours(t, p, q)
  {
    Listed16();
  }

  lemma Neighbours24(t: nat)
    requires 16 <= t < 24
    ensures exists p, q :: AreNeighbours(t, p, q)
  {
    Listed24();
  }

  lemma Neighbours32(t: nat)
    requires 24 <= t < 32
    ensures exists p, q :: AreNeighbours(t, p, q)
  {
    Listed32();
  }

  lemma Neighbours40(t: nat)
    requires 32 <= t < 40
    ensures exists p, q :: AreNeighbours(t, p, q)
  {
    Listed40();
  }

  lemma Neighbours48(t: nat)
    requires 40 <= t < 48
    ensures exists p, q :: AreNeighbours(t, p, q)
  {
    Listed48();
  }

  lemma Neighbours56(t: nat)
    requires 48 <= t < 56
    ensures exists p, q :: AreNeighbours(t, p, q)
  {
    Listed56();
  }

  lemma Neighbours64(t: nat)
    requires 56 <= t < 64
    ensures exists p, q :: AreNeighbours(t, p, q)
  {
    Listed64();
  }

  lemma Neighbours(t: nat)
    requires 1 <= t < 64
    ensures exists p, q :: AreNeighbours(t, p, q)
  {
    if t < 8 { Neighbours8(t); }
    else if t < 16 { Neighbours16(t); }
    else if t < 24 { Neighbours24(t); }
    else if t < 32 { Neighbours32(t); }
    else if t < 40 { Neighbours40(t); }
    else if t < 48 { Neighbours48(t); }
    else if t < 56 { Neighbours56(t); }
    else if t < 64 { Neighbours64(t); }
  }

  lemma {:induction false} PrimeNumbers(t: nat)
    requires t < 64
    ensures NthPrime(t, PrimeNumber(t))
  {
    if t == 0 {
      assert PrimesBelow(1) == 0;
    } else {
      PrimeNumbers(t - 1);
      Neighbours(t);
      var p, q :| AreNeighbours(t, p, q);
      NextPrime(t - 1, p, q);
    }
  }

  // ----- fractional parts of roots -----

  /** `n` is the cube root of `p` times 2^32, rounded down. */
  predicate CubeRoot(n: nat, p: nat) {
    n * n * n <= p * 0x1_0000_0000_0000_0000_0000_0000 < (n + 1) * (n + 1) * (n + 1)
  }

  /** `n` is the square root of `p` times 2^32, rounded down. */
  predicate SquareRoot(n: nat, p: nat) {
    n * n <= p * 0x1_0000_0000_0000_0000 < (n + 1) * (n + 1)
  }

  /** The word is the part of the root behind the point. */
  predicate Fraction(w: Word, n: nat) { n % 0x1_0000_0000 == w as nat }

  /** Section 4.2.2: the first 32 bits of the fractional part of the cube root of the prime number behind `t` others. */
  ghost predicate IsRoundConstant(t: nat, w: Word) {
    exists p, n :: NthPrime(t, p) && CubeRoot(n, p) && Fraction(w, n)
  }

  /** Section 5.3.3: the same of its square root. */
  ghost predicate IsInitialWord(t: nat, w: Word) {
    exists p, n :: NthPrime(t, p) && SquareRoot(n, p) && Fraction(w, n)
  }

  predicate FractionAt(t: nat, n: nat) { t < 64 && Fraction(RoundConstant(t), n) }

  predicate IsCube(t: nat, n: nat)
    requires t < 64
  {
    CubeRoot(n, PrimeNumber(t)) && Fraction(RoundConstant(t), n)
  }

  predicate IsSquare(t: nat, n: nat)
    requires t < 8
  {
    SquareRoot(n, PrimeNumber(t)) && Fraction(InitialHash()[t], n)
  }

  lemma Fractions4()
    ensures FractionAt(0, 0x1_428a_2f98)
    ensures FractionAt(1, 0x1_7137_4491)
    ensures FractionAt(2, 0x1_b5c0_fbcf)
    ensures FractionAt(3, 0x1_e9b5_dba5)
  {}

  lemma Fractions8()
    ensures FractionAt(4, 0x2_3956_c25b)
    ensures FractionAt(5, 0x2_59f1_11f1)
    ensures FractionAt(6, 0x2_923f_82a4)
    ensures FractionAt(7, 0x2_ab1c_5ed5)
  {}

  lemma Fractions12()
    ensures FractionAt(8, 0x2_d807_aa98)
    ensures FractionAt(9, 0x3_1283_5b01)
    ensures FractionAt(10, 0x3_2431_85be)
    ensures FractionAt(11, 0x3_550c_7dc3)
  {}

  lemma Fractions16()
    ensures FractionAt(12, 0x3_72be_5d74)
    ensures FractionAt(13, 0x3_80de_b1fe)
    ensures FractionAt(14, 0x3_9bdc_06a7)
    ensures FractionAt(15, 0x3_c19b_f174)
  {}

  lemma Fractions20()
    ensures FractionAt(16, 0x3_e49b_69c1)
    ensures FractionAt(17, 0x3_efbe_4786)
    ensures FractionAt(18, 0x4_0fc1_9dc6)
    ensures FractionAt(19, 0x4_240c_a1cc)
  {}

  lemma Fractions24()
    ensures FractionAt(20, 0x4_2de9_2c6f)
    ensures FractionAt(21, 0x4_4a74_84aa)
    ensures FractionAt(22, 0x4_5cb0_a9dc)
    ensures FractionAt(23, 0x4_76f9_88da)
  {}

  lemma Fractions28()
    ensures FractionAt(24, 0x4_983e_5152)
    ensures FractionAt(25, 0x4_a831_c66d)
    ensures FractionAt(26, 0x4_b003_27c8)
    ensures FractionAt(27, 0x4_bf59_7fc7)
  {}

  lemma Fractions32()
    ensures FractionAt(28, 0x4_c6e0_0bf3)
    ensures FractionAt(29, 0x4_d5a7_9147)
    ensures FractionAt(30, 0x5_06ca_6351)
    ensures FractionAt(31, 0x5_1429_2967)
  {}

  lemma Fractions36()
    ensures FractionAt(32, 0x5_27b7_0a85)
    ensures FractionAt(33, 0x5_2e1b_2138)
    ensures FractionAt(34, 0x5_4d2c_6dfc)
    ensures FractionAt(35, 0x5_5338_0d13)
  {}

  lemma Fractions40()
    ensures FractionAt(36, 0x5_650a_7354)
    ensures FractionAt(37, 0x5_766a_0abb)
    ensures FractionAt(38, 0x5_81c2_c92e)
    ensures FractionAt(39, 0x5_9272_2c85)
  {}

  lemma Fractions44()
    ensures FractionAt(40, 0x5_a2bf_e8a1)
    ensures FractionAt(41, 0x5_a81a_664b)
    ensures FractionAt(42, 0x5_c24b_8b70)
    ensures FractionAt(43, 0x5_c76c_51a3)
  {}

  lemma Fractions48()
    ensures FractionAt(44, 0x5_d192_e819)
    ensures FractionAt(45, 0x5_d699_0624)
    ensures FractionAt(46, 0x5_f40e_3585)
    ensures FractionAt(47, 0x6_106a_a070)
  {}

  lemma Fractions52()
    ensures FractionAt(48, 0x6_19a4_c116)
    ensures FractionAt(49, 0x6_1e37_6c08)
    ensures FractionAt(50, 0x6_2748_774c)
    ensures FractionAt(51, 0x6_34b0_bcb5)
  {}

  lemma Fractions56()
    ensures FractionAt(52, 0x6_391c_0cb3)
    ensures FractionAt(53, 0x6_4ed8_aa4a)
    ensures FractionAt(54, 0x6_5b9c_ca4f)
    ensures FractionAt(55, 0x6_682e_6ff3)
  {}

  lemma Fractions60()
    ensures FractionAt(56, 0x6_748f_82ee)
    ensures FractionAt(57, 0x6_78a5_636f)
    ensures FractionAt(58, 0x6_84c8_7814)
    ensures FractionAt(59, 0x6_8cc7_0208)
  {}

  lemma Fractions64()
    ensures FractionAt(60, 0x6_90be_fffa)
    ensures FractionAt(61, 0x6_a450_6ceb)
    ensures FractionAt(62, 0x6_bef9_a3f7)
    ensures FractionAt(63, 0x6_c671_78f2)
  {}

  lemma Cubes8()
    ensures IsCube(0, 0x1_428a_2f98)
    ensures IsCube(1, 0x1_7137_4491)
    ensures IsCube(2, 0x1_b5c0_fbcf)
    ensures IsCube(3, 0x1_e9b5_dba5)
    ensures IsCube(4, 0x2_3956_c25b)
    ensures IsCube(5, 0x2_59f1_11f1)
    ensures IsCube(6, 0x2_923f_82a4)
    ensures IsCube(7, 0x2_ab1c_5ed5)
  {
    Fractions4();
    Fractions8();
  }

  lemma Cubes16()
    ensures IsCube(8, 0x2_d807_aa98)
    ensures IsCube(9, 0x3_1283_5b01)
    ensures IsCube(10, 0x3_2431_85be)
    ensures IsCube(11, 0x3_550c_7dc3)
    ensures IsCube(12, 0x3_72be_5d74)
    ensures IsCube(13, 0x3_80de_b1fe)
    ensures IsCube(14, 0x3_9bdc_06a7)
    ensures IsCube(15, 0x3_c19b_f174)
  {
    Fractions12();
    Fractions16();
  }

  lemma Cubes24()
    ensures IsCube(16, 0x3_e49b_69c1)
    ensures IsCube(17, 0x3_efbe_4786)
    ensures IsCube(18, 0x4_0fc1_9dc6)
    ensures IsCube(19, 0x4_240c_a1cc)
    ensures IsCube(20, 0x4_2de9_2c6f)
    ensures IsCube(21, 0x4_4a74_84aa)
    ensures IsCube(22, 0x4_5cb0_a9dc)
    ensures IsCube(23, 0x4_76f9_88da)
  {
    Fractions20();
    Fractions24();
  }

  lemma Cubes32()
    ensures IsCube(24, 0x4_983e_5152)
    ensures IsCube(25, 0x4_a831_c66d)
    ensures IsCube(26, 0x4_b003_27c8)
    ensures IsCube(27, 0x4_bf59_7fc7)
    ensures IsCube(28, 0x4_c6e0_0bf3)
    ensures IsCube(29, 0x4_d5a7_9147)
    ensures IsCube(30, 0x5_06ca_6351)
    ensures IsCube(31, 0x5_1429_2967)
  {
    Fractions28();
    Fractions32();
  }

  lemma Cubes40()
    ensures IsCube(32, 0x5_27b7_0a85)
    ensures IsCube(33, 0x5_2e1b_2138)
    ensures IsCube(34, 0x5_4d2c_6dfc)
    ensures IsCube(35, 0x5_5338_0d13)
    ensures IsCube(36, 0x5_650a_7354)
    ensures IsCube(37, 0x5_766a_0abb)
    ensures IsCube(38, 0x5_81c2_c92e)
    ensures IsCube(39, 0x5_9272_2c85)
  {
    Fractions36();
    Fractions40();
  }

  lemma Cubes48()
    ensures IsCube(40, 0x5_a2bf_e8a1)
    ensures IsCube(41, 0x5_a81a_664b)
    ensures IsCube(42, 0x5_c24b_8b70)
    ensures IsCube(43, 0x5_c76c_51a3)
    ensures IsCube(44, 0x5_d192_e819)
    ensures IsCube(45, 0x5_d699_0624)
    ensures IsCube(46, 0x5_f40e_3585)
    ensures IsCube(47, 0x6_106a_a070)
  {
    Fractions44();
    Fractions48();
  }

  lemma Cubes56()
    ensures IsCube(48, 0x6_19a4_c116)
    ensures IsCube(49, 0x6_1e37_6c08)
    ensures IsCube(50, 0x6_2748_774c)
    ensures IsCube(51, 0x6_34b0_bcb5)
    ensures IsCube(52, 0x6_391c_0cb3)
    ensures IsCube(53, 0x6_4ed8_aa4a)
    ensures IsCube(54, 0x6_5b9c_ca4f)
    ensures IsCube(55, 0x6_682e_6ff3)
  {
    Fractions52();
    Fractions56();
  }

  lemma Cubes64()
    ensures IsCube(56, 0x6_748f_82ee)
    ensures IsCube(57, 0x6_78a5_636f)
    ensures IsCube(58, 0x6_84c8_7814)
    ensures IsCube(59, 0x6_8cc7_0208)
    ensures IsCube(60, 0x6_90be_fffa)
    ensures IsCube(61, 0x6_a450_6ceb)
    ensures IsCube(62, 0x6_bef9_a3f7)
    ensures IsCube(63, 0x6_c671_78f2)
  {
    Fractions60();
    Fractions64();
  }

  lemma InitialFractions()
    ensures Fraction(0x6a09e667, 0x1_6a09_e667)
    ensures Fraction(0xbb67ae85, 0x1_bb67_ae85)
    ensures Fraction(0x3c6ef372, 0x2_3c6e_f372)
    ensures Fraction(0xa54ff53a, 0x2_a54f_f53a)
    ensures Fraction(0x510e527f, 0x3_510e_527f)
    ensures Fraction(0x9b05688c, 0x3_9b05_688c)
    ensures Fraction(0x1f83d9ab, 0x4_1f83_d9ab)
    ensures Fraction(0x5be0cd19, 0x4_5be0_cd19)
  {}

  lemma Squares()
    ensures IsSquare(0, 0x1_6a09_e667)
    ensures IsSquare(1, 0x1_bb67_ae85)
    ensures IsSquare(2, 0x2_3c6e_f372)
    ensures IsSquare(3, 0x2_a54f_f53a)
    ensures IsSquare(4, 0x3_510e_527f)
    ensures IsSquare(5, 0x3_9b05_688c)
    ensures IsSquare(6, 0x4_1f83_d9ab)
    ensures IsSquare(7, 0x4_5be0_cd19)
  {
    InitialFractions();
  }

  lemma Cube(t: nat)
    requires t < 64
    ensures exists n :: IsCube(t, n)
  {
    if t < 8 { Cubes8(); }
    else if t < 16 { Cubes16(); }
    else if t < 24 { Cubes24(); }
    else if t < 32 { Cubes32(); }
    else if t < 40 { Cubes40(); }
    else if t < 48 { Cubes48(); }
    else if t < 56 { Cubes56(); }
    else if t < 64 { Cubes64(); }
  }

  /** The constants of the 64 rounds are what the standard says they are. */
  lemma RoundConstantsAreRoots(t: nat)
    requires t < 64
    ensures IsRoundConstant(t, RoundConstant(t))
  {
    PrimeNumbers(t);
    Cube(t);
    var n :| IsCube(t, n);
  }

  lemma Square(t: nat)
    requires t < 8
    ensures exists n :: IsSquare(t, n)
  {
    Squares();
  }

  /** So are the eight words that every hash starts with. */
  lemma InitialHashIsRoots(t: nat)
    requires t < 8
    ensures IsInitialWord(t, InitialHash()[t])
  {
    PrimeNumbers(t);
    Square(t);
    var n :| IsSquare(t, n);
  }
}
