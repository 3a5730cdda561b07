/** Numbers as bytes, most or least significant first, and pieces put together. */
module ByteOrder {
  type Byte = x: int | 0 <= x < 256

  function Power256(size: nat): nat { if size == 0 then 1 else 256 * Power256(size - 1) }

  function BigEndian(n: nat, size: nat): (b: seq<Byte>)
    ensures |b| == size
  {
    if size == 0 then [] else BigEndian(n / 256, size - 1) + [n % 256]
  }

  function Number(b: seq<Byte>): nat {
    if b == [] then 0 else Number(b[..|b| - 1]) * 256 + b[|b| - 1]
  }

  lemma {:induction false} NumberOfBigEndian(n: nat, size: nat)
    requires n < Power256(size)
    ensures Number(BigEndian(n, size)) == n
  {
    if size > 0 {
      NumberOfBigEndian(n / 256, size - 1);
      assert BigEndian(n, size)[..size - 1] == BigEndian(n / 256, size - 1);
    }
  }

  /** The first byte counts most, each place 256 times the next. */
  lemma {:induction false} FirstByteCountsMost(x: Byte, b: seq<Byte>)
    ensures Number([]) == 0 && Number([x] + b) == x * Power256(|b|) + Number(b)
  {
    if b != [] {
      var front := b[..|b| - 1];
      assert ([x] + b)[..|b|] == [x] + front;
      FirstByteCountsMost(x, front);
      Shifted(x, Power256(|front|));
    } else {
      assert [x] + b == [x];
    }
  }

  lemma Shifted(x: int, p: int)
    ensures x * p * 256 == x * (256 * p)
  {}

  lemma Power256Of8()
    ensures Power256(8) == 0x1_0000_0000_0000_0000
    ensures Power256(0) == 1 && Power256(1) == 256 && Power256(2) == 0x1_0000 && Power256(4) == 0x1_0000_0000
  {
    assert Power256(4) == 0x1_0000_0000;
  }

  function LittleEndian(n: nat, size: nat): (b: seq<Byte>)
    ensures |b| == size
  {
    if size == 0 then [] else [n % 256] + LittleEndian(n / 256, size - 1)
  }

  function LittleNumber(b: seq<Byte>): nat { if b == [] then 0 else b[0] + 256 * LittleNumber(b[1..]) }

  lemma {:induction false} NumberOfLittleEndian(n: nat, size: nat)
    requires n < Power256(size)
    ensures LittleNumber(LittleEndian(n, size)) == n
  {
    if size > 0 {
      NumberOfLittleEndian(n / 256, size - 1);
      assert LittleEndian(n, size)[1..] == LittleEndian(n / 256, size - 1);
    }
  }

  /** The last byte counts most. */
  lemma {:induction false} LastByteCountsMost(b: seq<Byte>, x: Byte)
    ensures LittleNumber([]) == 0 && LittleNumber(b + [x]) == LittleNumber(b) + x * Power256(|b|)
  {
    if b != [] {
      assert (b + [x])[1..] == b[1..] + [x];
      LastByteCountsMost(b[1..], x);
      Shifted(x, Power256(|b| - 1));
    } else {
      assert b + [x] == [x];
    }
  }

  function Flatten(parts: seq<seq<Byte>>): seq<Byte> {
    if parts == [] then [] else parts[0] + Flatten(parts[1..])
  }

  lemma {:induction false} FlattenSplit(a: seq<seq<Byte>>, b: seq<seq<Byte>>)
    ensures Flatten(a + b) == Flatten(a) + Flatten(b)
  {
    if a == [] {
      assert a + b == b;
    } else {
      assert (a + b)[1..] == a[1..] + b;
      FlattenSplit(a[1..], b);
    }
  }
}
