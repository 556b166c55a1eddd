/**
 Base58 addresses (`bitcoin_address` in `src/detection/observables.rs`): the big number is kept as
 bytes, most significant first, and grows by one digit of the address at a time.
 */
module Base58 {
  import opened Basics

  // ----- numbers as digits, most significant first -----

  predicate Digits(base: nat, s: seq<u8>) {
    forall i :: 0 <= i < |s| ==> s[i] < base
  }

  /** The number that is left when the digits `s` are written behind the number `v`. */
  function Extend(base: nat, v: nat, s: seq<u8>): nat
    decreases |s|
  {
    if s == [] then v else Extend(base, v * base + s[0], s[1..])
  }

  function Value(base: nat, s: seq<u8>): nat { Extend(base, 0, s) }

  /** The shortest digits of a number; none for zero. */
  function Shortest(base: nat, n: nat): (s: seq<u8>)
    requires 2 <= base <= 256
    ensures Digits(base, s) && (s != [] ==> s[0] != 0) && (s == [] <==> n == 0)
    decreases n
  {
    if n == 0 then []
    else
      DividedIsSmaller(n, base);
      Shortest(base, n / base) + [n % base]
  }

  lemma ShortestSplit(base: nat, n: nat) returns (q: nat, d: nat)
    requires 2 <= base <= 256 && n > 0
    ensures q < n && d < base && n == q * base + d && Shortest(base, n) == Shortest(base, q) + [d]
  {
    DividedIsSmaller(n, base);
    q, d := n / base, n % base;
  }

  lemma {:induction false} ShortestValue(base: nat, n: nat)
    requires 2 <= base <= 256
    ensures Value(base, Shortest(base, n)) == n
    decreases n
  {
    if n > 0 {
      var q, d := ShortestSplit(base, n);
      ShortestValue(base, q);
      ExtendLast(base, 0, Shortest(base, q), d);
    }
  }

  lemma {:induction false} ExtendLast(base: nat, v: nat, s: seq<u8>, d: u8)
    ensures Extend(base, v, s + [d]) == Extend(base, v, s) * base + d
    decreases |s|
  {
    if s == [] {
      assert (s + [d])[1..] == [];
    } else {
      assert (s + [d])[1..] == s[1..] + [d];
      ExtendLast(base, v * base + s[0], s[1..], d);
    }
  }

  lemma ValueLast(base: nat, s: seq<u8>)
    requires s != []
    ensures Value(base, s) == Value(base, s[..|s| - 1]) * base + s[|s| - 1]
  {
    ExtendLast(base, 0, s[..|s| - 1], s[|s| - 1]);
    assert s[..|s| - 1] + [s[|s| - 1]] == s;
  }

  lemma DivideLast(base: nat, v: nat, d: nat)
    requires d < base
    ensures (v * base + d) / base == v && (v * base + d) % base == d
  {
    Quotient(v * base + d, base, v);
    assert v * base + d == base * ((v * base + d) / base) + (v * base + d) % base;
  }

  /** A number has only one spelling without leading zeros. */
  lemma {:induction false} ShortestIsUnique(base: nat, s: seq<u8>)
    requires 2 <= base <= 256 && Digits(base, s) && (s != [] ==> s[0] != 0)
    ensures s == Shortest(base, Value(base, s))
    decreases |s|
  {
    if s != [] {
      var start, last := s[..|s| - 1], s[|s| - 1];
      ValueLast(base, s);
      DivideLast(base, Value(base, start), last);
      if start != [] { assert start[0] == s[0]; }
      ShortestIsUnique(base, start);
      assert s == start + [last];
      if start == [] {
        assert s[0] == last;
      }
    }
  }

  function Zeros(n: nat): (s: seq<u8>)
    ensures |s| == n && forall i :: 0 <= i < n ==> s[i] == 0
  {
    if n == 0 then [] else [0] + Zeros(n - 1)
  }

  function LeadingZeros(s: seq<u8>): (n: nat)
    ensures n <= |s|
  {
    if s != [] && s[0] == 0 then 1 + LeadingZeros(s[1..]) else 0
  }

  /** Digits are zeros in front of digits that do not start with zero. */
  lemma {:induction false} SplitZeros(s: seq<u8>)
    ensures s == Zeros(LeadingZeros(s)) + s[LeadingZeros(s)..]
    ensures LeadingZeros(s) < |s| ==> s[LeadingZeros(s)] != 0
  {
    if s != [] && s[0] == 0 {
      SplitZeros(s[1..]);
      assert s == [0] + s[1..];
    }
  }

  lemma {:induction false} ZerosInFront(base: nat, n: nat, s: seq<u8>)
    requires s != [] ==> s[0] != 0
    ensures Value(base, Zeros(n) + s) == Value(base, s)
    ensures LeadingZeros(Zeros(n) + s) == n
  {
    if n == 0 {
      assert Zeros(0) + s == s;
    } else {
      ZerosInFront(base, n - 1, s);
      assert (Zeros(n) + s)[1..] == Zeros(n - 1) + s;
    }
  }

  /** Every digit string is some zeros and the shortest spelling of its value. */
  lemma Decompose(base: nat, s: seq<u8>)
    requires 2 <= base <= 256 && Digits(base, s)
    ensures s == Zeros(LeadingZeros(s)) + Shortest(base, Value(base, s))
  {
    var n := LeadingZeros(s);
    SplitZeros(s);
    ZerosInFront(base, n, s[n..]);
    ShortestIsUnique(base, s[n..]);
  }

  // ----- one more digit, in place -----

  /** `*byte = carry as u8; carry >>= 8` on `carry + byte * 58`, for each byte from the last to the first. */
  method MultiplyAdd(decoded: seq<u8>, digit: nat) returns (r: seq<u8>, carry: nat)
    requires digit < 58
    ensures |r| == |decoded| && carry < 58
    ensures Extend(256, carry, r) == Value(256, decoded) * 58 + digit
    ensures r != [] ==> r[0] + 256 * carry >= 58 * (decoded[0] as int)
  {
    r := decoded;
    carry := digit;
    var i := |r|;
    assert decoded[..i] == decoded && r[i..] == [];
    while i > 0
      invariant 0 <= i <= |r| == |decoded| && carry < 58
      invariant r[..i] == decoded[..i] && (i == 0 && r != [] ==> r[0] + 256 * carry >= 58 * (decoded[0] as int))
      invariant Extend(256, 58 * Value(256, decoded[..i]) + carry, r[i..]) == Value(256, decoded) * 58 + digit
    {
      i := i - 1;
      var sum: nat := carry + r[i] as int * 58;
      ghost var after := r[i + 1..];
      ghost var ahead := Value(256, decoded[..i]);
      ValueLast(256, decoded[..i + 1]);
      assert decoded[..i + 1][..i] == decoded[..i];
      assert 58 * Value(256, decoded[..i + 1]) + carry == (58 * ahead + sum / 256) * 256 + sum % 256;
      r := r[i := sum % 256];
      carry := sum / 256;
      assert r[i..][1..] == after;
      assert r[..i] == decoded[..i];
    }
    assert decoded[..0] == [] && r[0..] == r;
  }

  /** The bytes that the loop holds: the shortest ones, or a single zero. */
  function Held(n: nat): (s: seq<u8>) {
    if n == 0 then [0] else Shortest(256, n)
  }

  lemma HeldValue(n: nat)
    ensures Value(256, Held(n)) == n && Digits(256, Held(n))
  {
    assert [0 as u8][1..] == [];
    ShortestValue(256, n);
  }

  lemma {:induction false} ExtendIsLarge(v: nat, s: seq<u8>)
    ensures Extend(256, v, s) >= v
    decreases |s|
  {
    if s != [] { ExtendIsLarge(v * 256 + s[0], s[1..]); }
  }

  /** What is held before a digit, with the carry in front of it where there is one, is held after it. */
  lemma HeldStep(n: nat, digit: nat, r: seq<u8>, carry: nat)
    requires digit < 58 && carry < 58 && |r| == |Held(n)|
    requires Extend(256, carry, r) == n * 58 + digit && r[0] + 256 * carry >= 58 * (Held(n)[0] as int)
    ensures (if carry > 0 then [carry] + r else r) == Held(n * 58 + digit)
  {
    if carry > 0 {
      assert ([carry] + r)[1..] == r;
      ExtendIsLarge(carry, r);
      ShortestIsUnique(256, [carry] + r);
    } else if n == 0 {
      assert r[1..] == [];
      assert Extend(256, 0, r) == r[0];
      if r[0] != 0 { ShortestIsUnique(256, r); }
    } else {
      ShortestIsUnique(256, r);
    }
  }

  // ----- the alphabet -----

  /** The alphabet, cut at the gaps in the order of the character codes: `0`, `I`, `O` and `l` are missing. */
  const ALPHABET: string := "123456789" + "ABCDEFGH" + "JKLMN" + "PQRSTUVWXYZ" + "abcdefghijk" + "mnopqrstuvwxyz"

  /** `iter().position`. */
  function Position(alphabet: string, c: char): Option<nat> {
    if alphabet == "" then None
    else if alphabet[0] == c then Some(0)
    else match Position(alphabet[1..], c) { case None => None case Some(i) => Some(i + 1) }
  }

  function Letter(d: nat): char
    requires d < 58
  {
    AlphabetInOrder();
    ALPHABET[d]
  }

  predicate Consecutive(s: string) {
    forall i :: 0 <= i < |s| ==> s[i] as int == s[0] as int + i
  }

  lemma Runs()
    ensures Consecutive("123456789") && Consecutive("ABCDEFGH") && Consecutive("JKLMN")
    ensures Consecutive("PQRSTUVWXYZ") && Consecutive("abcdefghijk") && Consecutive("mnopqrstuvwxyz")
  {}

  lemma AlphabetInOrder()
    ensures |ALPHABET| == 58
    ensures forall i, j :: 0 <= i < j < 58 ==> ALPHABET[i] < ALPHABET[j]
  {
    Runs();
  }

  lemma {:induction false} PositionIsExact(alphabet: string, c: char)
    requires forall i, j :: 0 <= i < j < |alphabet| ==> alphabet[i] < alphabet[j]
    ensures Position(alphabet, c).None? ==> c !in alphabet
    ensures Position(alphabet, c).Some? ==> Position(alphabet, c).value < |alphabet| && alphabet[Position(alphabet, c).value] == c
    ensures forall i :: 0 <= i < |alphabet| && alphabet[i] == c ==> Position(alphabet, c) == Some(i)
  {
    if alphabet != "" && alphabet[0] != c {
      PositionIsExact(alphabet[1..], c);
    }
  }

  lemma AlphabetPosition(c: char)
    ensures Position(ALPHABET, c).Some? ==> Position(ALPHABET, c).value < 58 && Letter(Position(ALPHABET, c).value) == c
    ensures forall d :: 0 <= d < 58 && Letter(d) == c ==> Position(ALPHABET, c) == Some(d)
  {
    AlphabetInOrder();
    PositionIsExact(ALPHABET, c);
  }

  predicate Spelled(value: string) {
    forall i :: 0 <= i < |value| ==> Position(ALPHABET, value[i]).Some?
  }

  function DigitOf(c: char): (d: u8)
    requires Position(ALPHABET, c).Some?
    ensures d < 58 && Letter(d) == c
  {
    AlphabetPosition(c);
    Position(ALPHABET, c).value
  }

  function DigitsOf(value: string): (s: seq<u8>)
    requires Spelled(value)
    ensures |s| == |value| && Digits(58, s)
    ensures forall i :: 0 <= i < |s| ==> s[i] == DigitOf(value[i])
  {
    if value == "" then [] else [DigitOf(value[0])] + DigitsOf(value[1..])
  }

  function Spell(s: seq<u8>): (value: string)
    requires Digits(58, s)
    ensures |value| == |s|
    ensures forall i :: 0 <= i < |s| ==> value[i] == Letter(s[i])
  {
    if s == [] then "" else [Letter(s[0])] + Spell(s[1..])
  }

  lemma SpellRoundTrip(s: seq<u8>)
    requires Digits(58, s)
    ensures Spelled(Spell(s)) && DigitsOf(Spell(s)) == s
  {
    forall i | 0 <= i < |s|
      ensures Position(ALPHABET, Spell(s)[i]) == Some(s[i])
    {
      AlphabetPosition(Spell(s)[i]);
    }
  }

  lemma DigitsRoundTrip(value: string)
    requires Spelled(value)
    ensures Spell(DigitsOf(value)) == value
  {}

  // ----- decoding -----

  /** What the two loops make of the digits of an address. */
  function Decoded(digits: seq<u8>): seq<u8> {
    Zeros(LeadingZeros(digits)) + Held(Value(58, digits))
  }

  /** One character: the carry, where there is one, goes in front. */
  method DecodeDigit(held: seq<u8>, digit: nat, ghost n: nat) returns (next: seq<u8>)
    requires digit < 58 && held == Held(n)
    ensures next == Held(n * 58 + digit)
  {
    var carry;
    HeldValue(n);
    next, carry := MultiplyAdd(held, digit);
    HeldStep(n, digit, next, carry);
    if carry > 0 {
      next := [carry] + next;
    }
  }

  /** `digits` are those of the first `n` characters. */
  ghost predicate Reads(value: string, n: nat, digits: seq<u8>) {
    && n <= |value| && |digits| == n && Digits(58, digits)
    && forall i :: 0 <= i < n ==> Position(ALPHABET, value[i]) == Some(digits[i])
  }

  lemma ReadsMore(value: string, n: nat, digits: seq<u8>, index: nat)
    requires Reads(value, n, digits) && n < |value| && Position(ALPHABET, value[n]) == Some(index)
    ensures index < 58 && Reads(value, n + 1, digits + [index])
    ensures Value(58, digits + [index]) == Value(58, digits) * 58 + index
  {
    AlphabetPosition(value[n]);
    ExtendLast(58, 0, digits, index);
  }

  lemma ReadsAll(value: string, digits: seq<u8>)
    requires Reads(value, |value|, digits)
    ensures Spelled(value) && digits == DigitsOf(value)
  {}

  method DecodeBase58(value: string) returns (r: Option<seq<u8>>)
    ensures r.Some? <==> Spelled(value)
    ensures r.Some? ==> r.value == Decoded(DigitsOf(value))
  {
    var decoded: seq<u8> := [0];
    ghost var digits: seq<u8> := [];
    for n := 0 to |value|
      invariant Reads(value, n, digits) && decoded == Held(Value(58, digits))
    {
      var index := Position(ALPHABET, value[n]);
      if index == None {
        return None;
      }
      ReadsMore(value, n, digits, index.value);
      decoded := DecodeDigit(decoded, index.value, Value(58, digits));
      digits := digits + [index.value];
    }
    ReadsAll(value, digits);
    decoded := WithLeadingZeros(value, decoded);
    return Some(decoded);
  }

  lemma {:induction false} CountLeading(s: seq<u8>, n: nat)
    requires n <= |s| && (forall i :: 0 <= i < n ==> s[i] == 0) && (n < |s| ==> s[n] != 0)
    ensures LeadingZeros(s) == n
  {
    if n > 0 { CountLeading(s[1..], n - 1); }
  }

  /** The loop over the leading `1`s of the address. */
  method WithLeadingZeros(value: string, decoded: seq<u8>) returns (bytes: seq<u8>)
    requires Spelled(value)
    ensures bytes == Zeros(LeadingZeros(DigitsOf(value))) + decoded
  {
    bytes := decoded;
    var n := 0;
    AlphabetPosition('1');
    assert Letter(0) == '1';
    while n < |value| && value[n] == '1'
      invariant 0 <= n <= |value| && forall i :: 0 <= i < n ==> value[i] == '1'
      invariant bytes == Zeros(n) + decoded
    {
      bytes := [0] + bytes;
      n := n + 1;
    }
    CountLeading(DigitsOf(value), n);
  }

  // ----- the canonical encoding -----

  function EncodedDigits(bytes: seq<u8>): (digits: seq<u8>)
    ensures Digits(58, digits)
  {
    Zeros(LeadingZeros(bytes)) + Shortest(58, Value(256, bytes))
  }

  function Encode(bytes: seq<u8>): string { Spell(EncodedDigits(bytes)) }

  /** Decoding undoes encoding for exactly the byte strings whose number is not zero. */
  lemma DecodeOfEncode(bytes: seq<u8>)
    ensures Decoded(EncodedDigits(bytes)) == bytes <==> Value(256, bytes) != 0
  {
    var zeros, n := LeadingZeros(bytes), Value(256, bytes);
    Decompose(256, bytes);
    ZerosInFront(58, zeros, Shortest(58, n));
    ShortestValue(58, n);
    assert |Zeros(zeros) + [0]| == zeros + 1;
  }

  /** Encoding undoes decoding for exactly the addresses that are not all `1`s. */
  lemma EncodeOfDecode(digits: seq<u8>)
    requires Digits(58, digits)
    ensures EncodedDigits(Decoded(digits)) == digits <==> Value(58, digits) != 0
  {
    var zeros, n := LeadingZeros(digits), Value(58, digits);
    Decompose(58, digits);
    if n != 0 {
      ShortestValue(256, n);
      ZerosInFront(256, zeros, Shortest(256, n));
    } else {
      AllZeros(zeros);
      assert Decoded(digits) == Zeros(zeros + 1);
      ZerosInFront(256, zeros + 1, []);
      assert Zeros(zeros + 1) + [] == Zeros(zeros + 1);
      assert |EncodedDigits(Decoded(digits))| == zeros + 1;
    }
  }

  lemma {:induction false} AllZeros(n: nat)
    ensures Zeros(n) + [0] == Zeros(n + 1)
  {
    if n > 0 { AllZeros(n - 1); }
  }

  /** The text form of the round trip: the decoder reads back what the encoder writes. */
  lemma TextRoundTrip(bytes: seq<u8>)
    ensures Spelled(Encode(bytes))
    ensures Decoded(DigitsOf(Encode(bytes))) == bytes <==> Value(256, bytes) != 0
  {
    SpellRoundTrip(EncodedDigits(bytes));
    DecodeOfEncode(bytes);
  }

  /** Every text of as many `1`s as an address may be long stands for zero bytes, and gives one more. */
  lemma ZeroExample(n: nat)
    requires 26 <= n <= 35
    ensures Spelled(Encode(Zeros(n))) && |Encode(Zeros(n))| == n
    ensures Decoded(DigitsOf(Encode(Zeros(n)))) == Zeros(n + 1)
  {
    var digits := EncodedDigits(Zeros(n));
    ZeroDigits(n);
    SpellRoundTrip(digits);
    AllZeros(n);
    ZerosInFront(58, n, []);
  }

  lemma ZeroDigits(n: nat)
    ensures EncodedDigits(Zeros(n)) == Zeros(n) && |Zeros(n)| == n && Zeros(n) + [] == Zeros(n)
  {
    ZerosInFront(256, n, []);
    assert Zeros(n) + [] == Zeros(n);
  }

  // ----- addresses -----

  type Digest = seq<u8> -> seq<u8>

  /** A version byte, twenty more bytes, and four bytes of the twice hashed payload. */
  predicate Checked(decoded: seq<u8>, sha256: Digest)
    requires forall m :: |sha256(m)| == 32
  {
    && |decoded| == 25 && (decoded[0] == 0 || decoded[0] == 5)
    && sha256(sha256(decoded[..21]))[..4] == decoded[21..]
  }

  method BitcoinAddress(value: string, sha256: Digest) returns (r: bool)
    requires forall m :: |sha256(m)| == 32
    ensures r <==> 26 <= |value| <= 35 && exists bytes :: Checked(bytes, sha256) && value == Encode(bytes)
  {
    if !(26 <= |value| <= 35) {
      return false;
    }
    var decoded := DecodeBase58(value);
    AddressesAreEncodings(value, sha256);
    match decoded {
      case None => return false;
      case Some(bytes) => return |bytes| == 25 && bytes[0] in [0, 5] && sha256(sha256(bytes[..21]))[..4] == bytes[21..];
    }
  }

  /**
   An address of the right length decodes to a checked payload exactly when it is the canonical
   encoding of one: the zero payload, which would not survive, is too short to write.
   */
  lemma AddressesAreEncodings(value: string, sha256: Digest)
    requires (forall m :: |sha256(m)| == 32) && 26 <= |value|
    ensures (exists bytes :: Checked(bytes, sha256) && value == Encode(bytes))
       <==> Spelled(value) && Checked(Decoded(DigitsOf(value)), sha256)
  {
    forall bytes | Checked(bytes, sha256) && value == Encode(bytes)
      ensures Spelled(value) && Decoded(DigitsOf(value)) == bytes
    {
      TextRoundTrip(bytes);
      ZeroLengths(bytes);
    }
    if Spelled(value) && Checked(Decoded(DigitsOf(value)), sha256) {
      var digits := DigitsOf(value);
      ZeroDecodedLength(digits);
      EncodeOfDecode(digits);
      DigitsRoundTrip(value);
      assert value == Encode(Decoded(digits));
    }
  }

  lemma ZeroLengths(bytes: seq<u8>)
    ensures Value(256, bytes) == 0 ==> |Encode(bytes)| == |bytes|
  {
    Decompose(256, bytes);
  }

  lemma ZeroDecodedLength(digits: seq<u8>)
    requires Digits(58, digits)
    ensures Value(58, digits) == 0 ==> |Decoded(digits)| == |digits| + 1
  {
    Decompose(58, digits);
  }

  /** The alphabet has all digits and letters but `0`, `O`, `I` and `l`. */
  lemma AlphabetIsExact(c: char)
    ensures c in ALPHABET <==>
              ('0' <= c <= '9' || 'A' <= c <= 'Z' || 'a' <= c <= 'z') && c !in {'0', 'O', 'I', 'l'}
  {
    Runs();
    InRun("123456789", c);
    InRun("ABCDEFGH", c);
    InRun("JKLMN", c);
    InRun("PQRSTUVWXYZ", c);
    InRun("abcdefghijk", c);
    InRun("mnopqrstuvwxyz", c);
  }

  lemma InRun(run: string, c: char)
    requires run != "" && Consecutive(run)
    ensures c in run <==> run[0] <= c && c as int < run[0] as int + |run|
  {
    if run[0] <= c && c as int < run[0] as int + |run| {
      assert run[c as int - run[0] as int] == c;
    }
  }
}
