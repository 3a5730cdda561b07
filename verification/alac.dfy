/**
 The verbatim stereo ALAC element (internal/airplay/audio.go): bits written most significant
 first into a buffer of bytes that start as zero.
 */
module Alac {
  import opened ByteOrder

  const FRAMES: nat := 352

  const PCM_BYTES: nat := 1408

  const BITS: nat := 11290

  const BUFFER: nat := 1412

  /******* Bits of a byte *******/

  /** The bit at place k of a byte, counted from the most significant. */
  function Mask(k: nat): bv8
    requires k < 8
  {
    match k case 0 => 128 case 1 => 64 case 2 => 32 case 3 => 16 case 4 => 8 case 5 => 4 case 6 => 2 case _ => 1
  }

  predicate IsSet(b: bv8, k: nat)
    requires k < 8
  {
    b & Mask(k) != 0
  }

  lemma SetOne(b: bv8, k: nat, j: nat)
    requires k < 8 && j < 8
    ensures IsSet(b | Mask(k), j) <==> j == k || IsSet(b, j)
  {}

  lemma NoneSet(k: nat)
    requires k < 8
    ensures !IsSet(0, k)
  {}

  /** The bit at place i of a run of bytes. */
  predicate BitAt(out: seq<bv8>, i: nat)
    requires i < 8 * |out|
  {
    IsSet(out[i / 8], i % 8)
  }

  /******* Numbers as bits *******/

  function Power2(n: nat): nat { if n == 0 then 1 else 2 * Power2(n - 1) }

  /** The low n bits of a value, most significant first. */
  function Bits(value: nat, n: nat): (b: seq<bool>)
    ensures |b| == n
  {
    if n == 0 then [] else Bits(value / 2, n - 1) + [value % 2 == 1]
  }

  function FromBits(b: seq<bool>): nat {
    if b == [] then 0 else 2 * FromBits(b[..|b| - 1]) + if b[|b| - 1] then 1 else 0
  }

  lemma {:induction false} BitsRoundTrip(value: nat, n: nat)
    requires value < Power2(n)
    ensures FromBits(Bits(value, n)) == value
  {
    if n > 0 {
      BitsRoundTrip(value / 2, n - 1);
      assert Bits(value, n)[..n - 1] == Bits(value / 2, n - 1);
    }
  }

  /** Bit j of a value, j counted from the least significant. */
  predicate Bit(value: nat, j: nat) { if j == 0 then value % 2 == 1 else Bit(value / 2, j - 1) }

  lemma {:induction false} BitOfBits(value: nat, n: nat, k: nat)
    requires k < n
    ensures Bits(value, n)[k] == Bit(value, n - 1 - k)
  {
    if k < n - 1 { BitOfBits(value / 2, n - 1, k); }
  }

  /******* The element *******/

  function Sample(pcm: seq<Byte>, i: nat): nat
    requires 2 * i + 1 < |pcm|
  {
    LittleNumber(pcm[2 * i..2 * i + 2])
  }

  function SampleBits(pcm: seq<Byte>, n: nat): seq<bool>
    requires 2 * n <= |pcm|
  {
    if n == 0 then [] else SampleBits(pcm, n - 1) + Bits(Sample(pcm, n - 1), 16)
  }

  /** Element type 1, instance 0, 12 unused bits, no partial frame, no shift, verbatim. */
  const HEADER: seq<bool> := Bits(1, 3) + Bits(0, 4) + Bits(0, 12) + Bits(0, 1) + Bits(0, 2) + Bits(1, 1)

  /** The whole element: header, samples, end marker. */
  function Element(pcm: seq<Byte>): seq<bool>
    requires |pcm| == PCM_BYTES
  {
    HEADER + SampleBits(pcm, 704) + Bits(7, 3)
  }

  lemma HeaderSize()
    ensures |HEADER| == 23
  {}

  lemma {:induction false} SampleBitsSize(pcm: seq<Byte>, n: nat)
    requires 2 * n <= |pcm|
    ensures |SampleBits(pcm, n)| == 16 * n
  {
    if n > 0 { SampleBitsSize(pcm, n - 1); }
  }

  lemma {:induction false} SampleIsThere(pcm: seq<Byte>, n: nat, i: nat)
    requires i < n && 2 * n <= |pcm|
    ensures |SampleBits(pcm, n)| == 16 * n && SampleBits(pcm, n)[16 * i..16 * i + 16] == Bits(Sample(pcm, i), 16)
  {
    hide Bits, Sample;
    SampleBitsSize(pcm, n);
    SampleBitsSize(pcm, n - 1);
    if i < n - 1 {
      SampleIsThere(pcm, n - 1, i);
      assert SampleBits(pcm, n)[16 * i..16 * i + 16] == SampleBits(pcm, n - 1)[16 * i..16 * i + 16];
    }
  }

  /** Reading `n` bits from place `at` as a number. */
  function ReadBits(out: seq<bv8>, at: nat, n: nat): nat
    requires at + n <= 8 * |out|
  {
    FromBits(seq(n, k requires 0 <= k < n => BitAt(out, at + k)))
  }

  /** The buffer holds exactly these bits, and zeros behind them. */
  ghost predicate Holds(out: seq<bv8>, bits: seq<bool>) {
    && |bits| <= 8 * |out|
    && (forall i: nat | i < |bits| :: BitAt(out, i) == bits[i])
    && (forall i: nat | |bits| <= i < 8 * |out| :: !BitAt(out, i))
  }

  lemma ReadHeld(out: seq<bv8>, bits: seq<bool>, at: nat, value: nat, n: nat)
    requires Holds(out, bits) && at + n <= |bits| && bits[at..at + n] == Bits(value, n) && value < Power2(n)
    ensures ReadBits(out, at, n) == value
  {
    assert seq(n, k requires 0 <= k < n => BitAt(out, at + k)) == bits[at..at + n];
    BitsRoundTrip(value, n);
  }

  /******* Writing *******/

  function WithBit(out: seq<bv8>, at: nat, b: bool): seq<bv8>
    requires at < 8 * |out|
  {
    out[at / 8 := out[at / 8] | if b then Mask(at % 8) else 0]
  }

  lemma BitWritten(before: seq<bv8>, after: seq<bv8>, at: nat, b: bool)
    requires at < 8 * |before|
    requires after == before[at / 8 := before[at / 8] | if b then Mask(at % 8) else 0]
    ensures after == WithBit(before, at, b)
  {}

  lemma SetAt(out: seq<bv8>, at: nat, b: bool, i: nat)
    requires at < 8 * |out| && i < 8 * |out|
    ensures BitAt(WithBit(out, at, b), i) <==> (i == at && b) || BitAt(out, i)
  {
    var byte := out[at / 8];
    if i / 8 == at / 8 {
      assert i == 8 * (i / 8) + i % 8 && at == 8 * (at / 8) + at % 8;
      if b { SetOne(byte, at % 8, i % 8); } else { OrZero(byte); }
    }
  }

  lemma OrZero(b: bv8)
    ensures b | 0 == b
  {}

  lemma HoldsMore(out: seq<bv8>, bits: seq<bool>, b: bool)
    requires Holds(out, bits) && |bits| < 8 * |out|
    ensures Holds(WithBit(out, |bits|, b), bits + [b])
  {
    forall i: nat | i < 8 * |out|
      ensures BitAt(WithBit(out, |bits|, b), i) <==> (i == |bits| && b) || BitAt(out, i)
    {
      SetAt(out, |bits|, b, i);
    }
    hide BitAt, WithBit;
  }

  class Writer {
    const out: array<bv8>
    var bit: nat
    ghost var written: seq<bool>

    ghost predicate Valid()
      reads this, out
    {
      bit == |written| && Holds(out[..], written)
    }

    constructor (size: nat)
      ensures Valid() && fresh(out) && out.Length == size && written == []
    {
      var zeros := new bv8[size](_ => 0);
      out, bit, written := zeros, 0, [];
      new;
      forall i: nat | i < 8 * size ensures !BitAt(out[..], i) { NoneSet(i % 8); }
    }

    /** The low n bits of a value, most significant first; nothing already written changes. */
    method Put(value: nat, n: nat)
      requires Valid() && bit + n <= 8 * out.Length
      modifies this, out
      ensures Valid() && written == old(written) + Bits(value, n)
    {
      hide Holds, Bits, Mask, WithBit;
      ghost var start := written;
      assert start + Bits(value, n)[..0] == start;
      var j: nat := n;
      while j > 0
        invariant j <= n && bit + j <= 8 * out.Length && Valid() && written == start + Bits(value, n)[..n - j]
      {
        j := j - 1;
        var b := Bit(value, j);
        BitOfBits(value, n, n - 1 - j);
        HoldsMore(out[..], written, b);
        ghost var expected := WithBit(out[..], bit, b);
        label before:
        out[bit / 8] := out[bit / 8] | if b then Mask(bit % 8) else 0;
        assert out[..] == expected by { BitWritten(old@before(out[..]), out[..], bit, b); }
        bit := bit + 1;
        written := written + [b];
        assert Bits(value, n)[..n - j] == Bits(value, n)[..n - 1 - j] + [b];
      }
      assert Bits(value, n)[..n] == Bits(value, n);
    }
  }

  /** alac: the bits fill all but the last six of the buffer, which stay zero. */
  method Encode(pcm: seq<Byte>) returns (out: array<bv8>)
    requires |pcm| == PCM_BYTES
    ensures fresh(out) && out.Length == 1412 && Holds(out[..], Element(pcm)) && |Element(pcm)| == 11290
  {
    hide Bits, Holds, SampleBits, Sample;
    HeaderSize();
    SampleBitsSize(pcm, 704);
    var w := new Writer(BUFFER);
    w.Put(1, 3);
    w.Put(0, 4);
    w.Put(0, 12);
    w.Put(0, 1);
    w.Put(0, 2);
    w.Put(1, 1);
    assert w.written == HEADER;
    NoSamples(pcm);
    for i := 0 to 704
      invariant w.Valid() && fresh(w) && fresh(w.out) && w.out.Length == BUFFER
      invariant w.written == HEADER + SampleBits(pcm, i)
    {
      SampleBitsSize(pcm, i);
      w.Put(Sample(pcm, i), 16);
      OneMoreSample(pcm, i);
    }
    w.Put(7, 3);
    out := w.out;
  }

  lemma NoSamples(pcm: seq<Byte>)
    ensures SampleBits(pcm, 0) == []
  {}

  lemma OneMoreSample(pcm: seq<Byte>, i: nat)
    requires 2 * (i + 1) <= |pcm|
    ensures SampleBits(pcm, i + 1) == SampleBits(pcm, i) + Bits(Sample(pcm, i), 16)
  {}

  lemma {:induction false} ZeroBits(n: nat, k: nat)
    requires k < n
    ensures !Bits(0, n)[k]
  {
    if k < n - 1 { ZeroBits(n - 1, k); }
  }

  lemma {:induction false} NoBits(b: seq<bool>)
    requires forall k | 0 <= k < |b| :: !b[k]
    ensures FromBits(b) == 0
  {
    if b != [] { NoBits(b[..|b| - 1]); }
  }

  lemma Sample16(pcm: seq<Byte>, i: nat)
    requires 2 * i + 1 < |pcm|
    ensures Sample(pcm, i) < Power2(16)
  {
    var s := pcm[2 * i..2 * i + 2];
    assert LittleNumber(s) == s[0] + 256 * LittleNumber(s[1..])
        && LittleNumber(s[1..]) == s[1] + 256 * LittleNumber(s[1..][1..]);
    assert s[1..][1..] == [];
    assert Power2(8) == 256;
  }

  lemma HeaderParts()
    ensures |HEADER| == 23 && HEADER[0..3] == Bits(1, 3) && HEADER[22..23] == Bits(1, 1)
    ensures forall k | 3 <= k < 22 :: !HEADER[k]
  {
    hide Bits;
    HeaderSize();
    var a, b, c, d, e, f := Bits(1, 3), Bits(0, 4), Bits(0, 12), Bits(0, 1), Bits(0, 2), Bits(1, 1);
    assert HEADER == a + b + c + d + e + f;
    forall k: nat | k < 4 ensures !b[k] { ZeroBits(4, k); }
    forall k: nat | k < 12 ensures !c[k] { ZeroBits(12, k); }
    forall k: nat | k < 1 ensures !d[k] { ZeroBits(1, k); }
    forall k: nat | k < 2 ensures !e[k] { ZeroBits(2, k); }
  }

  lemma ReadZeros(out: seq<bv8>, at: nat, n: nat)
    requires at + n <= 8 * |out| && forall i: nat | at <= i < at + n :: !BitAt(out, i)
    ensures ReadBits(out, at, n) == 0
  {
    NoBits(seq(n, k requires 0 <= k < n => BitAt(out, at + k)));
  }

  lemma HeaderReadsBack(out: seq<bv8>, pcm: seq<Byte>)
    requires |pcm| == PCM_BYTES && |out| == BUFFER && Holds(out, Element(pcm))
    ensures ReadBits(out, 0, 3) == 1 && ReadBits(out, 3, 19) == 0 && ReadBits(out, 22, 1) == 1
  {
    hide Bits, SampleBits, BitAt, ReadBits;
    var bits := Element(pcm);
    HeaderParts();
    Powers();
    assert bits[0..3] == HEADER[0..3] && bits[22..23] == HEADER[22..23];
    ReadHeld(out, bits, 0, 1, 3);
    ReadHeld(out, bits, 22, 1, 1);
    forall i: nat | 3 <= i < 3 + 19 ensures !BitAt(out, i) { assert bits[i] == HEADER[i]; }
    ReadZeros(out, 3, 19);
  }

  lemma Powers()
    ensures Power2(1) == 2 && Power2(3) == 8
  {}

  lemma SampleReadsBack(out: seq<bv8>, pcm: seq<Byte>, i: nat)
    requires |pcm| == PCM_BYTES && |out| == BUFFER && Holds(out, Element(pcm)) && i < 704
    ensures ReadBits(out, 23 + 16 * i, 16) == Sample(pcm, i)
  {
    hide Bits, SampleBits, BitAt, ReadBits, Sample, Power2;
    var bits := Element(pcm);
    HeaderSize();
    SampleIsThere(pcm, 704, i);
    Sample16(pcm, i);
    assert bits[23 + 16 * i..23 + 16 * i + 16] == SampleBits(pcm, 704)[16 * i..16 * i + 16];
    ReadHeld(out, bits, 23 + 16 * i, Sample(pcm, i), 16);
  }

  lemma EndReadsBack(out: seq<bv8>, pcm: seq<Byte>)
    requires |pcm| == PCM_BYTES && |out| == BUFFER && Holds(out, Element(pcm))
    ensures ReadBits(out, 11287, 3) == 7 && ReadBits(out, 11290, 6) == 0
  {
    hide Bits, SampleBits, BitAt, ReadBits;
    var bits := Element(pcm);
    HeaderSize();
    SampleBitsSize(pcm, 704);
    Powers();
    assert |bits| == BITS && bits[11287..11290] == Bits(7, 3);
    ReadHeld(out, bits, 11287, 7, 3);
    ReadZeros(out, 11290, 6);
  }

  /** A byte with these bits set. */
  lemma ByteIs(b: bv8, set0: bool, set1: bool, set2: bool, set3: bool, set4: bool, set5: bool, set6: bool, set7: bool)
    requires IsSet(b, 0) == set0 && IsSet(b, 1) == set1 && IsSet(b, 2) == set2 && IsSet(b, 3) == set3
    requires IsSet(b, 4) == set4 && IsSet(b, 5) == set5 && IsSet(b, 6) == set6 && IsSet(b, 7) == set7
    ensures b == (if set0 then 0x80 else 0) | (if set1 then 0x40 else 0) | (if set2 then 0x20 else 0)
                 | (if set3 then 0x10 else 0) | (if set4 then 8 else 0) | (if set5 then 4 else 0)
                 | (if set6 then 2 else 0) | (if set7 then 1 else 0)
  {}

  lemma EightBits(out: seq<bv8>, bits: seq<bool>, j: nat)
    requires Holds(out, bits) && 8 * j + 8 <= 8 * |out|
    ensures forall k: nat | k < 8 :: IsSet(out[j], k) == (8 * j + k < |bits| && bits[8 * j + k])
  {
    forall k: nat | k < 8
      ensures IsSet(out[j], k) == (8 * j + k < |bits| && bits[8 * j + k])
    {
      assert (8 * j + k) / 8 == j && (8 * j + k) % 8 == k;
      assert BitAt(out, 8 * j + k) == IsSet(out[j], k);
    }
  }

  lemma FewBits()
    ensures Bits(1, 3) == [false, false, true] && Bits(1, 1) == [true] && Bits(7, 3) == [true, true, true]
  {
    assert Bits(0, 2) == [false, false];
    assert Bits(3, 2) == [true, true];
  }

  /** The buffer begins with 001, nineteen zeros and a one, and ends with 111 and six zeros. */
  lemma FirstAndLastBytes(out: seq<bv8>, pcm: seq<Byte>)
    requires |pcm| == 1408 && |out| == 1412 && Holds(out, Element(pcm))
    ensures out[0] == 0x20 && out[1] == 0 && out[2] & 0xFE == 2
    ensures out[1410] & 1 == 1 && out[1411] == 0xC0
  {
    hide Bits, SampleBits, Holds, Mask;
    var bits := Element(pcm);
    HeaderSize();
    HeaderParts();
    FewBits();
    SampleBitsSize(pcm, 704);
    assert forall k: nat | k < 23 :: bits[k] == HEADER[k];
    assert HEADER[0..3][0] == HEADER[0] && HEADER[0..3][1] == HEADER[1] && HEADER[0..3][2] == HEADER[2];
    assert HEADER[22..23][0] == HEADER[22];
    assert bits[11287..11290] == Bits(7, 3);
    assert bits[11287..11290][0] == bits[11287] && bits[11287..11290][1] == bits[11288]
        && bits[11287..11290][2] == bits[11289];
    EightBits(out, bits, 0);
    EightBits(out, bits, 1);
    EightBits(out, bits, 2);
    EightBits(out, bits, 1410);
    EightBits(out, bits, 1411);
    ByteIs(out[0], false, false, true, false, false, false, false, false);
    ByteIs(out[1], false, false, false, false, false, false, false, false);
    ByteIs(out[2], false, false, false, false, false, false, true, IsSet(out[2], 7));
    ByteIs(out[1411], true, true, false, false, false, false, false, false);
    LastBit(out[1410]);
    LastTwo(out[2], IsSet(out[2], 7));
  }

  lemma LastBit(b: bv8)
    ensures IsSet(b, 7) ==> b & 1 == 1
  {}

  lemma LastTwo(b: bv8, last: bool)
    requires b == 2 | if last then 1 else 0
    ensures b & 0xFE == 2
  {}

  /**
   Read back most significant bit first, the element is the 23-bit header, the 704 samples
   unchanged, and the end marker; the rest of the buffer is zero.
   */
  lemma ElementReadsBack(out: seq<bv8>, pcm: seq<Byte>)
    requires |pcm| == 1408 && |out| == 1412 && Holds(out, Element(pcm))
    ensures ReadBits(out, 0, 3) == 1 && ReadBits(out, 3, 19) == 0 && ReadBits(out, 22, 1) == 1
    ensures forall i: nat | i < 704 :: ReadBits(out, 23 + 16 * i, 16) == pcm[2 * i] + 256 * (pcm[2 * i + 1] as int)
    ensures ReadBits(out, 11287, 3) == 7 && ReadBits(out, 11290, 6) == 0
  {
    HeaderReadsBack(out, pcm);
    forall i: nat | i < 704
      ensures ReadBits(out, 23 + 16 * i, 16) == pcm[2 * i] + 256 * (pcm[2 * i + 1] as int)
    {
      SampleReadsBack(out, pcm, i);
      SampleMeans(pcm, i);
    }
    EndReadsBack(out, pcm);
  }

  /** Samples are read least significant byte first. */
  lemma SampleMeans(pcm: seq<Byte>, i: nat)
    requires 2 * i + 1 < |pcm|
    ensures Sample(pcm, i) == pcm[2 * i] + 256 * (pcm[2 * i + 1] as int)
  {
    var s := pcm[2 * i..2 * i + 2];
    assert LittleNumber(s) == s[0] + 256 * LittleNumber(s[1..]) && s[1..][1..] == [];
    assert LittleNumber(s[1..]) == s[1] + 256 * LittleNumber([]);
  }
}
