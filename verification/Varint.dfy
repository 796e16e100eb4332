/** The base-128 varint decoder of the Cursor blob reader, on 64-bit words with explicit wrap-around,
    and the encoder of the Protocol Buffers Encoding specification, section "Base 128 Varints". */
module Varint {

  type byte = b: int | 0 <= b < 256

  const TWO_TO_63: nat := 0x8000_0000_0000_0000
  const TWO_TO_64: nat := 0x1_0000_0000_0000_0000
  const MAX_VARINT_BYTES: nat := 10

  type uint64 = n: int | 0 <= n < TWO_TO_64

  // ---- Machine words ----

  function Pow2(n: nat): (p: nat)
    ensures p >= 1
  {
    if n == 0 then 1 else 2 * Pow2(n - 1)
  }

  /** Bitwise or and bitwise and of two words, one bit at a time. */
  function BitOr(a: nat, b: nat): nat {
    if a == 0 && b == 0 then 0
    else 2 * BitOr(a / 2, b / 2) + (if a % 2 == 1 || b % 2 == 1 then 1 else 0)
  }

  function BitAnd(a: nat, b: nat): nat {
    if a == 0 || b == 0 then 0
    else 2 * BitAnd(a / 2, b / 2) + (if a % 2 == 1 && b % 2 == 1 then 1 else 0)
  }

  /** A left shift of a 64-bit word drops the bits pushed past the top. */
  function ShiftLeft(a: nat, shift: nat): uint64 {
    a * Pow2(shift) % TWO_TO_64
  }

  // ---- Decoding ----

  /** The sum of the seven-bit groups, least significant first, before any truncation. */
  function Base128(data: seq<byte>): nat {
    if data == [] then 0 else data[0] % 128 + 128 * Base128(data[1..])
  }

  /** `data[k]` is the first byte without a continuation bit, and among the first ten. */
  predicate TerminatesAt(data: seq<byte>, k: int) {
    && 0 <= k < |data| && k < MAX_VARINT_BYTES
    && data[k] < 128
    && forall j :: 0 <= j < k ==> data[j] >= 128
  }

  function VarintLength(data: seq<byte>, from: nat := 0): (n: nat)
    requires from <= |data| && forall j :: 0 <= j < from ==> data[j] >= 128
    ensures n <= |data|
    ensures n == 0 <==> forall k :: 0 <= k < |data| && k < MAX_VARINT_BYTES ==> data[k] >= 128
    ensures n > 0 ==> TerminatesAt(data, n - 1)
    decreases |data| - from
  {
    if from == |data| || from >= MAX_VARINT_BYTES then 0
    else if data[from] < 128 then from + 1
    else VarintLength(data, from + 1)
  }

  datatype Decoded = Decoded(value: uint64, length: nat)

  /** What decoding must return: the base-128 sum modulo 2^64 and the number of bytes used,
      or zero and zero when no terminator is within reach. */
  function Decode(data: seq<byte>): Decoded {
    var n := VarintLength(data);
    Decoded(Base128(data[..n]) % TWO_TO_64, n)
  }

  method DecodeVarint(data: seq<byte>) returns (value: uint64, n: nat)
    ensures Decoded(value, n) == Decode(data)
    ensures n == 0 <==> forall k :: 0 <= k < |data| && k < MAX_VARINT_BYTES ==> data[k] >= 128
    ensures n == 0 ==> value == 0
    ensures n > 0 ==> TerminatesAt(data, n - 1) && value == Base128(data[..n]) % TWO_TO_64
  {
    var result: uint64 := 0;
    var shift := 0;
    var i := 0;
    while i < |data| && i < 10
      invariant 0 <= i <= |data| && i <= 10
      invariant shift == 7 * i
      invariant forall j :: 0 <= j < i ==> data[j] >= 128
      invariant result == Base128(data[..i]) % TWO_TO_64
      invariant result < Pow2(shift)
    {
      var b := data[i];
      DecodeRound(data, i, result);
      result := BitOr(result, ShiftLeft(BitAnd(b, 0x7F), shift));
      if BitAnd(b, 0x80) == 0 {
        LengthUnique(data, VarintLength(data), i + 1);
        return result, i + 1;
      }
      shift := shift + 7;
      i := i + 1;
    }
    assert data[..0] == [];
    return 0, 0;
  }

  // ---- Why the or-accumulation is a sum ----

  lemma LengthUnique(data: seq<byte>, m: nat, n: nat)
    requires m > 0 ==> TerminatesAt(data, m - 1)
    requires m == 0 ==> forall k :: 0 <= k < |data| && k < MAX_VARINT_BYTES ==> data[k] >= 128
    requires n > 0 && TerminatesAt(data, n - 1)
    ensures m == n
  {
  }

  /** Masking with 2^k - 1 keeps the low k bits. */
  lemma {:induction false} MaskLow(b: nat, k: nat)
    ensures BitAnd(b, Pow2(k) - 1) == b % Pow2(k)
  {
    if k > 0 {
      var p := Pow2(k - 1);
      MaskLow(b / 2, k - 1);
      HalfQuotient(b, p);
      AndUnfold(b, 2 * p - 1);
    }
  }

  /** Masking with 2^k tests bit k. */
  lemma {:induction false} MaskBit(b: nat, k: nat)
    ensures BitAnd(b, Pow2(k)) == if b / Pow2(k) % 2 == 1 then Pow2(k) else 0
  {
    if k == 0 {
      AndUnfold(b, 1);
    } else {
      var p := Pow2(k - 1);
      MaskBit(b / 2, k - 1);
      HalfQuotient(b, p);
      AndUnfold(b, 2 * p);
    }
  }

  lemma AndUnfold(b: nat, mask: nat)
    requires mask > 0
    ensures BitAnd(b, mask) == 2 * BitAnd(b / 2, mask / 2) + (if b % 2 == 1 && mask % 2 == 1 then 1 else 0)
  {
  }

  lemma HalfQuotient(b: nat, p: nat)
    requires p > 0
    ensures b / (2 * p) == b / 2 / p && b % (2 * p) == 2 * (b / 2 % p) + b % 2
  {
    var q, r := b / 2 / p, b / 2 % p;
    assert b / 2 == q * p + r;
    assert b == q * (2 * p) + (2 * r + b % 2);
    DivModUnique(b, 2 * p, q, 2 * r + b % 2);
  }

  lemma DivModUnique(a: nat, d: nat, q: nat, r: nat)
    requires a == q * d + r && r < d
    ensures a / d == q && a % d == r
  {
    var q', r' := a / d, a % d;
    assert a == q' * d + r';
    if q > q' { MulGap(q', q, d); }
    if q < q' { MulGap(q, q', d); }
  }

  lemma {:induction false} MulGap(x: nat, y: nat, d: nat)
    requires x < y
    ensures x * d + d <= y * d
  {
    assert y * d == (y - 1) * d + d;
    if x < y - 1 { MulGap(x, y - 1, d); }
  }

  lemma LowSevenBits(b: byte, low: nat, high: nat)
    requires low == 0x7F && high == 0x80
    ensures BitAnd(b, low) == b % 128
    ensures BitAnd(b, high) == 0 <==> b < 128
  {
    PowSeven(0);
    MaskLow(b, 7);
    MaskBit(b, 7);
  }

  lemma {:induction false} BitOrZero(b: nat)
    ensures BitOr(0, b) == b
  {
    if b > 0 { BitOrZero(b / 2); }
  }

  /** Or-ing in bits that all lie above `a` adds them. */
  lemma {:induction false} BitOrDisjoint(a: nat, c: nat, shift: nat)
    requires a < Pow2(shift)
    ensures BitOr(a, c * Pow2(shift)) == a + c * Pow2(shift)
  {
    if shift == 0 {
      BitOrZero(c);
    } else {
      var half := c * Pow2(shift - 1);
      assert c * Pow2(shift) == 2 * half;
      BitOrDisjoint(a / 2, c, shift - 1);
    }
  }

  lemma {:induction false} Base128Append(data: seq<byte>, b: byte)
    ensures Base128(data + [b]) == Base128(data) + b % 128 * Pow2(7 * |data|)
  {
    if data == [] {
      assert data + [b] == [b];
    } else {
      assert (data + [b])[1..] == data[1..] + [b];
      Base128Append(data[1..], b);
      var p := Pow2(7 * |data[1..]|);
      PowSeven(7 * |data[1..]|);
      assert 128 * (b % 128 * p) == b % 128 * (128 * p);
    }
  }

  lemma PowSeven(n: nat)
    ensures Pow2(n + 7) == 128 * Pow2(n)
  {
    assert Pow2(n + 7) == 2 * Pow2(n + 6) && Pow2(n + 6) == 2 * Pow2(n + 5) && Pow2(n + 5) == 2 * Pow2(n + 4);
    assert Pow2(n + 4) == 2 * Pow2(n + 3) && Pow2(n + 3) == 2 * Pow2(n + 2) && Pow2(n + 2) == 2 * Pow2(n + 1);
  }

  /** The powers of two that the ten shifts use. */
  lemma ShiftPowers(i: nat)
    requires i < 10
    ensures Pow2(7 * i) == [0x1, 0x80, 0x4000, 0x20_0000, 0x1000_0000, 0x8_0000_0000, 0x400_0000_0000,
                            0x2_0000_0000_0000, 0x100_0000_0000_0000, 0x8000_0000_0000_0000][i]
  {
    hide Pow2;
    LowShiftPowers();
    PowSeven(28); PowSeven(35); PowSeven(42); PowSeven(49); PowSeven(56);
  }

  lemma LowShiftPowers()
    ensures Pow2(0) == 1 && Pow2(7) == 0x80 && Pow2(14) == 0x4000 && Pow2(21) == 0x20_0000 && Pow2(28) == 0x1000_0000
  {
    PowSeven(0); PowSeven(7); PowSeven(14); PowSeven(21);
  }

  /** What is left of a group after the shift: all of it, except that the tenth keeps only its lowest bit. */
  lemma ShiftedGroup(digit: nat, i: nat) returns (kept: nat, lost: nat)
    requires i < 10 && digit < 128
    ensures ShiftLeft(digit, 7 * i) == kept * Pow2(7 * i)
    ensures digit * Pow2(7 * i) == lost * TWO_TO_64 + kept * Pow2(7 * i)
    ensures kept * Pow2(7 * i) + Pow2(7 * i) <= TWO_TO_64
    ensures kept * Pow2(7 * i) + Pow2(7 * i) <= Pow2(7 * i + 7)
  {
    ShiftPowers(i);
    PowSeven(7 * i);
    var p := Pow2(7 * i);
    if i < 9 {
      kept, lost := digit, 0;
      MulGap(digit, 128, p);
    } else {
      kept, lost := digit % 2, digit / 2;
    }
    WordRemainder(digit * p, lost, kept * p);
  }

  lemma WordRemainder(a: nat, q: nat, r: nat)
    requires a == q * TWO_TO_64 + r && r < TWO_TO_64
    ensures a % TWO_TO_64 == r
  {
  }

  /** One round of the loop: or-ing in the shifted group adds it modulo 2^64. */
  lemma AccumulateGroup(result: uint64, sum: nat, digit: nat, i: nat)
    requires i < 10 && digit < 128
    requires result == sum % TWO_TO_64 && result < Pow2(7 * i)
    ensures BitOr(result, ShiftLeft(digit, 7 * i)) == (sum + digit * Pow2(7 * i)) % TWO_TO_64
    ensures BitOr(result, ShiftLeft(digit, 7 * i)) < Pow2(7 * i + 7)
  {
    var kept, lost := ShiftedGroup(digit, i);
    BitOrDisjoint(result, kept, 7 * i);
    AddWords(sum, digit * Pow2(7 * i), lost, kept * Pow2(7 * i));
  }

  lemma AddWords(sum: nat, addend: nat, lost: nat, kept: nat)
    requires addend == lost * TWO_TO_64 + kept && sum % TWO_TO_64 + kept < TWO_TO_64
    ensures (sum + addend) % TWO_TO_64 == sum % TWO_TO_64 + kept
  {
    WordRemainder(sum + addend, sum / TWO_TO_64 + lost, sum % TWO_TO_64 + kept);
  }

  lemma DecodeRound(data: seq<byte>, i: nat, result: uint64)
    requires i < |data| && i < 10
    requires result == Base128(data[..i]) % TWO_TO_64 && result < Pow2(7 * i)
    ensures var next := BitOr(result, ShiftLeft(BitAnd(data[i], 0x7F), 7 * i));
            next == Base128(data[..i + 1]) % TWO_TO_64 && next < Pow2(7 * (i + 1))
    ensures BitAnd(data[i], 0x80) == 0 <==> data[i] < 128
  {
    assert data[..i + 1] == data[..i] + [data[i]];
    LowSevenBits(data[i], 0x7F, 0x80);
    Base128Append(data[..i], data[i]);
    AccumulateGroup(result, Base128(data[..i]), data[i] % 128, i);
  }

  // ---- Encoding ----

  /** The encoder of the specification: seven bits a byte, low groups first, the high bit set on all but the last. */
  function EncodeVarint(v: nat): (data: seq<byte>)
    ensures |data| >= 1
  {
    if v < 128 then [v] else [v % 128 + 128] + EncodeVarint(v / 128)
  }

  lemma {:induction false} EncodedShape(v: nat, k: nat)
    requires 1 <= k <= MAX_VARINT_BYTES && v < Pow2(7 * k)
    ensures |EncodeVarint(v)| <= k
    ensures Base128(EncodeVarint(v)) == v
    ensures TerminatesAt(EncodeVarint(v), |EncodeVarint(v)| - 1)
  {
    if v >= 128 {
      PowSeven(7 * (k - 1));
      assert Pow2(0) == 1;
      EncodedShape(v / 128, k - 1);
      var tail := EncodeVarint(v / 128);
      assert EncodeVarint(v)[1..] == tail;
      assert forall j :: 1 <= j < |EncodeVarint(v)| ==> EncodeVarint(v)[j] == tail[j - 1];
    } else {
      assert EncodeVarint(v)[1..] == [];
    }
  }

  lemma WordFitsTenGroups(v: uint64, k: nat)
    requires k == MAX_VARINT_BYTES
    ensures v < Pow2(7 * k)
  {
    ShiftPowers(k - 1);
    PowSeven(7 * (k - 1));
  }

  lemma DecodeAt(data: seq<byte>, n: nat)
    requires n > 0 && TerminatesAt(data, n - 1)
    ensures Decode(data) == Decoded(Base128(data[..n]) % TWO_TO_64, n)
  {
    LengthUnique(data, VarintLength(data), n);
  }

  /** Decoding the encoding of any 64-bit value, whatever bytes follow, returns the value and its exact length. */
  lemma VarintRoundTrip(v: uint64, rest: seq<byte>)
    ensures Decode(EncodeVarint(v) + rest) == Decoded(v, |EncodeVarint(v)|)
    ensures |EncodeVarint(v)| <= MAX_VARINT_BYTES
  {
    hide Decode;
    hide Base128;
    hide Pow2;
    hide EncodeVarint;
    var code := EncodeVarint(v);
    WordFitsTenGroups(v, MAX_VARINT_BYTES);
    EncodedShape(v, MAX_VARINT_BYTES);
    assert TerminatesAt(code + rest, |code| - 1);
    DecodeAt(code + rest, |code|);
    assert (code + rest)[..|code|] == code;
  }

  /** A value of 2^63 or more needs all ten bytes, so nothing shorter can decode to one. */
  lemma ShortVarintsAreSmall(data: seq<byte>)
    requires |data| < 10
    ensures Decode(data).value < TWO_TO_63
  {
    var n := VarintLength(data);
    Base128Bound(data[..n], 9);
    ShiftPowers(9);
  }

  lemma {:induction false} Base128Bound(data: seq<byte>, k: nat)
    requires |data| <= k
    ensures Base128(data) < Pow2(7 * k)
  {
    if data != [] {
      Base128Bound(data[1..], k - 1);
      PowSeven(7 * (k - 1));
    }
  }
}
