/**
 The binary property lists of AirPlay control messages (internal/airplay/plist.go):
 the object table, its encoder and its bounded decoder.

 A Go string is its bytes. UTF-8 and the key sort are function-valued parameters; UTF-16
 is spelled out. A tag byte `tag | n` is `tag + n`, since the low nibble of `tag` is zero.
 */
module Plist {
  import opened Collections
  import opened Wrappers
  import opened ByteOrder

  type Uint64 = x: int | 0 <= x < 0x1_0000_0000_0000_0000

  datatype Value =
    | Text(s: seq<Byte>)
    | Bytes(b: seq<Byte>)
    | Boolean(yes: bool)
    | Int(n: int)                   // Go's int, written as its two's complement
    | Uint(u: Uint64)
    | Float(bits: Uint64)           // the IEEE 754 image, kept bit for bit
    | Array(items: seq<Value>)
    | Dict(m: map<seq<Byte>, Value>)

  datatype Env = Env(
    runes: seq<Byte> -> seq<int>,                     // []rune(s)
    utf8: seq<int> -> seq<Byte>,                      // string(runes)
    sorted: set<seq<Byte>> -> seq<seq<Byte>>)         // sort.Strings over the keys

  predicate Scalar(r: int) { 0 <= r < 0xD800 || 0xE000 <= r < 0x110000 }

  predicate Scalars(runes: seq<int>) { forall i | 0 <= i < |runes| :: Scalar(runes[i]) }

  /** The list has every key once. */
  ghost predicate ListsOnce(list: seq<seq<Byte>>, keys: set<seq<Byte>>) {
    && Distinct(list) && |list| == |keys|
    && (forall i | 0 <= i < |list| :: list[i] in keys)
    && (forall k | k in keys :: k in list)
  }

  /** The laws of the parameters: runes are scalar values and sorting lists each key once. */
  ghost predicate Lawful(E: Env) {
    && (forall s :: Scalars(E.runes(s)))
    && (forall keys :: ListsOnce(E.sorted(keys), keys))
  }

  /******* UTF-16 *******/

  function Utf16(runes: seq<int>): seq<int> {
    if runes == [] then []
    else
      var r := runes[0];
      (if 0x10000 <= r < 0x110000 then [0xD800 + (r - 0x10000) / 0x400, 0xDC00 + (r - 0x10000) % 0x400]
       else if Scalar(r) then [r] else [0xFFFD]) + Utf16(runes[1..])
  }

  function FromUtf16(u: seq<int>): seq<int> {
    if u == [] then []
    else if 0xD800 <= u[0] < 0xDC00 && |u| > 1 && 0xDC00 <= u[1] < 0xE000 then
      [0x10000 + (u[0] - 0xD800) * 0x400 + (u[1] - 0xDC00)] + FromUtf16(u[2..])
    else if 0xD800 <= u[0] < 0xE000 then [0xFFFD] + FromUtf16(u[1..])
    else [u[0]] + FromUtf16(u[1..])
  }

  lemma {:induction false} Utf16RoundTrip(runes: seq<int>)
    requires forall i | 0 <= i < |runes| :: Scalar(runes[i])
    ensures FromUtf16(Utf16(runes)) == runes
    ensures forall i | 0 <= i < |Utf16(runes)| :: 0 <= Utf16(runes)[i] < 0x10000
  {
    if runes != [] {
      Utf16RoundTrip(runes[1..]);
      var u := Utf16(runes);
      if runes[0] >= 0x10000 { assert u[2..] == Utf16(runes[1..]); } else { assert u[1..] == Utf16(runes[1..]); }
    }
  }

  /** Code points past 16 bits are written as a high and a low surrogate; one without the other reads as U+FFFD. */
  lemma Utf16Means(r: int, u: int, rest: seq<int>)
    requires Scalar(r)
    ensures r < 0x10000 ==> Utf16([r]) == [r]
    ensures r >= 0x10000 ==>
              && |Utf16([r])| == 2 && 0xD800 <= Utf16([r])[0] <= 0xDBFF && 0xDC00 <= Utf16([r])[1] <= 0xDFFF
              && 0x10000 + (Utf16([r])[0] - 0xD800) * 0x400 + (Utf16([r])[1] - 0xDC00) == r
    ensures Utf16([0x1F600]) == [0xD83D, 0xDE00]
    ensures 0xD800 <= u <= 0xDFFF && (u >= 0xDC00 || rest == [] || !(0xDC00 <= rest[0] <= 0xDFFF)) ==>
              FromUtf16([u] + rest) == [0xFFFD] + FromUtf16(rest)
  {
    assert [r][1..] == [] && Utf16([]) == [];
    assert [0x1F600][1..] == [];
    assert ([u] + rest)[1..] == rest;
  }

  function Units(u: seq<int>): (b: seq<Byte>)
    requires forall i | 0 <= i < |u| :: 0 <= u[i] < 0x10000
    ensures |b| == 2 * |u|
  {
    if u == [] then [] else BigEndian(u[0], 2) + Units(u[1..])
  }

  /** Big-endian 16-bit units of a raw payload. */
  function UnitsOf(raw: seq<Byte>): seq<int>
    requires |raw| % 2 == 0
  {
    if raw == [] then [] else [raw[0] * 256 + raw[1]] + UnitsOf(raw[2..])
  }

  lemma UnitBytes(n: int)
    requires 0 <= n < 0x10000
    ensures (BigEndian(n, 2)[0] as int) * 256 + BigEndian(n, 2)[1] == n
  {
    assert BigEndian(n / 256, 1) == BigEndian(n / 256 / 256, 0) + [n / 256 % 256];
    assert BigEndian(n, 2) == BigEndian(n / 256, 1) + [n % 256];
  }

  lemma {:induction false} UnitsRoundTrip(u: seq<int>)
    requires forall i | 0 <= i < |u| :: 0 <= u[i] < 0x10000
    ensures UnitsOf(Units(u)) == u
  {
    if u != [] {
      UnitsRoundTrip(u[1..]);
      UnitBytes(u[0]);
      hide BigEndian;
      var raw := Units(u);
      assert raw[2..] == Units(u[1..]) && raw[..2] == BigEndian(u[0], 2);
      assert raw[0] == raw[..2][0] && raw[1] == raw[..2][1];
    }
  }

  /******* Encoding *******/

  function Length(tag: Byte, n: nat): (b: seq<Byte>)
    requires tag % 16 == 0
    ensures |b| > 0
  {
    if n < 15 then [tag + n] else [tag + 15, 0x13] + BigEndian(n, 8)
  }

  function Wrap(n: int): Uint64 { n % 0x1_0000_0000_0000_0000 }

  predicate Ascii(E: Env, s: seq<Byte>) { forall i | 0 <= i < |E.runes(s)| :: E.runes(s)[i] <= 127 }

  predicate Leaf(v: Value) { !v.Array? && !v.Dict? }

  function Clamp(u: seq<int>): (r: seq<int>)
    ensures |r| == |u| && forall i | 0 <= i < |r| :: 0 <= r[i] < 0x10000
    ensures (forall i | 0 <= i < |u| :: 0 <= u[i] < 0x10000) ==> r == u
  {
    seq(|u|, i requires 0 <= i < |u| => u[i] % 0x10000)
  }

  function LeafBytes(E: Env, v: Value): (b: seq<Byte>)
    requires Leaf(v)
    ensures |b| > 0
  {
    match v
    case Text(s) =>
      if Ascii(E, s) then Length(0x50, |s|) + s
      else var u := Clamp(Utf16(E.runes(s))); Length(0x60, |u|) + Units(u)
    case Bytes(b) => Length(0x40, |b|) + b
    case Boolean(yes) => [if yes then 9 else 8]
    case Int(n) => [0x13] + BigEndian(Wrap(n), 8)
    case Uint(n) => [0x13] + BigEndian(n, 8)
    case Float(bits) => [0x23] + BigEndian(bits, 8)
  }

  function KeysOf(E: Env, v: Value): seq<seq<Byte>>
    requires v.Dict?
  {
    E.sorted(v.m.Keys)
  }

  /** The values in key order. */
  function ValuesOf(E: Env, v: Value): (vs: seq<Value>)
    requires v.Dict? && Lawful(E)
    ensures forall i | 0 <= i < |vs| :: vs[i] < v
    ensures |vs| == |KeysOf(E, v)| && forall i | 0 <= i < |vs| ::
            KeysOf(E, v)[i] in v.m && vs[i] == v.m[KeysOf(E, v)[i]]
  {
    var keys := KeysOf(E, v);
    assert ListsOnce(keys, v.m.Keys);
    seq(|keys|, i requires 0 <= i < |keys| => v.m[keys[i]])
  }

  function KeyObjects(E: Env, keys: seq<seq<Byte>>): (o: seq<seq<Byte>>)
    ensures |o| == |keys| && forall i | 0 <= i < |o| :: o[i] == LeafBytes(E, Text(keys[i]))
  {
    seq(|keys|, i requires 0 <= i < |keys| => LeafBytes(E, Text(keys[i])))
  }

  function Refs(ids: seq<nat>): (b: seq<Byte>)
    ensures |b| == 8 * |ids|
  {
    if ids == [] then [] else BigEndian(ids[0], 8) + Refs(ids[1..])
  }

  function Count(base: nat, n: nat): (ids: seq<nat>)
    ensures |ids| == n && forall i | 0 <= i < n :: ids[i] == base + i
  {
    seq(n, i => base + i)
  }

  /** The objects `add(v)` appends when `base` objects are present; the last one is v's own. */
  function Objects(E: Env, v: Value, base: nat): (o: seq<seq<Byte>>)
    requires Lawful(E)
    ensures |o| > 0 && forall i | 0 <= i < |o| :: |o[i]| > 0
    decreases v, 1, 0
  {
    match v
    case Array(items) =>
      ObjectsOf(E, v, items, base) + [Length(0xA0, |items|) + Refs(IdsOf(E, v, items, base))]
    case Dict(_) =>
      var keys, values := KeysOf(E, v), ValuesOf(E, v);
      var ids := Count(base, |keys|);
      KeyObjects(E, keys) + ObjectsOf(E, v, values, base + |keys|) +
      [Length(0xD0, |keys|) + Refs(ids) + Refs(IdsOf(E, v, values, base + |keys|))]
    case _ => [LeafBytes(E, v)]
  }

  function ObjectsOf(E: Env, parent: Value, items: seq<Value>, base: nat): (o: seq<seq<Byte>>)
    requires Lawful(E) && forall i | 0 <= i < |items| :: items[i] < parent
    ensures |o| >= |items| && forall i | 0 <= i < |o| :: |o[i]| > 0
    decreases parent, 0, |items|
  {
    if items == [] then []
    else
      var first := Objects(E, items[0], base);
      first + ObjectsOf(E, parent, items[1..], base + |first|)
  }

  function IdsOf(E: Env, parent: Value, items: seq<Value>, base: nat): (ids: seq<nat>)
    requires Lawful(E) && forall i | 0 <= i < |items| :: items[i] < parent
    ensures |ids| == |items|
    decreases parent, 0, |items|
  {
    if items == [] then []
    else
      var n := |Objects(E, items[0], base)|;
      [base + n - 1] + IdsOf(E, parent, items[1..], base + n)
  }

  lemma ObjectsNil(E: Env, parent: Value, base: nat)
    requires Lawful(E)
    ensures ObjectsOf(E, parent, [], base) == [] && IdsOf(E, parent, [], base) == []
  {
  }

  lemma ObjectsCons(E: Env, parent: Value, items: seq<Value>, base: nat)
    requires Lawful(E) && items != [] && forall i | 0 <= i < |items| :: items[i] < parent
    ensures var first := Objects(E, items[0], base);
            && ObjectsOf(E, parent, items, base) == first + ObjectsOf(E, parent, items[1..], base + |first|)
            && IdsOf(E, parent, items, base) == [base + |first| - 1] + IdsOf(E, parent, items[1..], base + |first|)
  {
    hide Objects, Lawful;
  }

  const MAGIC: seq<Byte> := [0x62, 0x70, 0x6C, 0x69, 0x73, 0x74, 0x30, 0x30]     // "bplist00"

  function StartOf(objects: seq<seq<Byte>>, i: nat): nat
    requires i <= |objects|
  {
    8 + |Flatten(objects[..i])|
  }

  function Offsets(objects: seq<seq<Byte>>): (o: seq<nat>)
    ensures |o| == |objects|
  {
    seq(|objects|, i requires 0 <= i < |objects| => StartOf(objects, i))
  }

  function Trailer(n: nat, root: nat, table: nat): (b: seq<Byte>)
    ensures |b| == 32
  {
    [0, 0, 0, 0, 0, 0, 8, 8] + BigEndian(n, 8) + BigEndian(root, 8) + BigEndian(table, 8)
  }

  /** Everything before the trailer. */
  function FrontOf(objects: seq<seq<Byte>>): (b: seq<Byte>)
    ensures |b| == 8 + |Flatten(objects)| + 8 * |objects| && b[..8] == MAGIC
  {
    MAGIC + Flatten(objects) + Refs(Offsets(objects))
  }

  function FileOf(objects: seq<seq<Byte>>): seq<Byte>
    requires |objects| > 0
  {
    FrontOf(objects) + Trailer(|objects|, |objects| - 1, 8 + |Flatten(objects)|)
  }

  function Encode(E: Env, v: Value): seq<Byte>
    requires Lawful(E)
  {
    FileOf(Objects(E, v, 0))
  }

  /******* Decoding *******/

  const MAX_OBJECTS := 65536
  const MAX_DEPTH := 32
  const MAX_BYTES := 0x20_0000

  /** The file and the fields of its trailer. */
  datatype File = File(b: seq<Byte>, os: nat, rs: nat, n: nat, table: nat)

  predicate Sound(f: File) {
    1 <= f.os <= 8 && 1 <= f.rs <= 8 && 8 <= f.table && f.table + 32 <= |f.b| && f.n * f.os <= |f.b| - 32 - f.table
  }

  function ReadAt(b: seq<Byte>, pos: nat, size: nat): Result<nat> {
    if size < 1 || size > 8 || pos > |b| || size > |b| - pos then Bad else Ok(Number(b[pos..pos + size]))
  }

  /** The checks of unplist before the recursive parse: the file and the root reference. */
  function Open(b: seq<Byte>): (r: Result<(File, nat)>)
    ensures r.Ok? ==> Sound(r.value.0) && r.value.0.b == b
  {
    if |b| < 40 || |b| > MAX_BYTES || b[..8] != MAGIC then Bad
    else
      var t := |b| - 32;
      var os, rs := b[t + 6], b[t + 7];
      var n, root, table := Number(b[t + 8..t + 16]), Number(b[t + 16..t + 24]), Number(b[t + 24..t + 32]);
      if os < 1 || os > 8 || rs < 1 || rs > 8 || n ==
          0 || n > MAX_OBJECTS || root >= n || table < 8 || table > t || n * os > t - table then Bad
      else Ok((File(b, os, rs, n, table), root))
  }

  /** The tag of an object split up: high nibble, low nibble, length, start of the payload. */
  datatype Head = Head(kind: nat, low: nat, count: nat, at: nat)

  function HeadOf(f: File, id: nat): Result<Head>
    requires Sound(f)
  {
    var start := ReadAt(f.b, f.table + id * f.os, f.os);
    if start.Bad? || start.value < 8 || start.value >= f.table then Bad
    else
      var p := start.value;
      var kind, low := f.b[p] / 16, f.b[p] % 16;
      if kind >= 4 && low == 15 then
        if p + 1 >= f.table || f.b[p + 1] / 16 != 1 || f.b[p + 1] % 16 > 3 then Bad
        else
          var size := Width(f.b[p + 1] % 16);
          var c := ReadAt(f.b, p + 2, size);
          if c.Bad? then Bad else Ok(Head(kind, low, c.value, p + 2 + size))
      else Ok(Head(kind, low, low, p + 1))
  }

  /** 1 << e. */
  function Width(e: nat): nat
    requires e <= 3
  {
    if e == 0 then 1 else if e == 1 then 2 else if e == 2 then 4 else 8
  }

  predicate Need(f: File, at: nat, size: nat) { at <= f.table && size <= f.table - at }

  lemma {:induction false} NumberBound(b: seq<Byte>)
    ensures Number(b) < Power256(|b|)
  {
    if b != [] { NumberBound(b[..|b| - 1]); }
  }

  function ReadUint(f: File, at: nat, size: nat): (r: Uint64)
    requires Sound(f) && Need(f, at, size) && size <= 8
  {
    NumberBound(f.b[at..at + size]);
    PowerUpTo8(size);
    Number(f.b[at..at + size])
  }

  lemma PowerUpTo8(size: nat)
    requires size <= 8
    ensures Power256(size) <= 0x1_0000_0000_0000_0000
  {
    Power256Of8();
    if size < 8 { assert Power256(7) * 256 == Power256(8); PowerStep(size, 8); }
  }

  lemma {:induction false} PowerStep(a: nat, b: nat)
    requires a <= b
    ensures Power256(a) <= Power256(b)
  {
    if a < b { PowerStep(a, b - 1); }
  }

  /** Every object kind that refers to no other object. */
  function ReadLeaf(E: Env, f: File, h: Head): Result<Value>
    requires Sound(f)
  {
    if h.kind == 0 then (if h.low == 8 then Ok(Boolean(false)) else if h.low == 9 then Ok(Boolean(true)) else Bad)
    else if h.kind == 1 then
      if h.count > 3 || !Need(f, h.at, Width(h.count)) then Bad else Ok(Uint(ReadUint(f, h.at, Width(h.count))))
    else if h.kind == 2 then
      if h.count != 3 || !Need(f, h.at, 8) then Bad else Ok(Float(ReadUint(f, h.at, 8)))
    else if h.kind == 4 || h.kind == 5 || h.kind == 6 then
      var width := if h.kind == 6 then 2 else 1;
      if h.count > |f.b| || !Need(f, h.at, h.count * width) then Bad
      else
        var raw := f.b[h.at..h.at + h.count * width];
        Ok(if h.kind == 4 then Bytes(raw) else if h.kind == 5 then Text(raw) else Text(E.utf8(FromUtf16(UnitsOf(raw)))))
    else Bad
  }

  /** Bytes of so many references. */
  function Span(count: nat, size: nat): nat { count * size }

  /** `parse`: the result and the remaining budget. */
  function Parse(E: Env, f: File, id: nat, depth: nat, budget: int): (Result<Value>, int)
    requires Sound(f)
    decreases 33 - depth, 1, 0
  {
    var left := budget - 1;
    if id >= f.n || depth > MAX_DEPTH || left < 0 then (Bad, left)
    else
      match HeadOf(f, id)
      case Bad => (Bad, left)
      case Ok(h) =>
        if h.kind == 10 then
          if h.count > MAX_OBJECTS || !Need(f, h.at, Span(h.count, f.rs)) then (Bad, left)
          else
            var (items, rest) := ParseItems(E, f, h.at, 0, h.count, depth, left);
            (if items.Bad? then Bad else Ok(Array(items.value)), rest)
        else if h.kind == 13 then
          if h.count > MAX_OBJECTS || !Need(f, h.at, Span(2 * h.count, f.rs)) then (Bad, left)
          else
            var (m, rest) := ParsePairs(E, f, h.at, 0, h.count, map[], depth, left);
            (if m.Bad? then Bad else Ok(Dict(m.value)), rest)
        else (ReadLeaf(E, f, h), left)
  }

  /** `child(i)`. */
  function ParseChild(E: Env, f: File, at: nat, i: nat, depth: nat, budget: int): (Result<Value>, int)
    requires Sound(f) && depth <= MAX_DEPTH
    decreases 33 - depth, 0, 0
  {
    match ReadAt(f.b, at + i * f.rs, f.rs)
    case Bad => (Bad, budget)
    case Ok(id) => Parse(E, f, id, depth + 1, budget)
  }

  function ParseItems(E: Env, f: File, at: nat, i: nat, count: nat, depth: nat, budget: int): (Result<seq<Value>>, int)
    requires Sound(f) && depth <= MAX_DEPTH && i <= count
    decreases 33 - depth, 0, 1 + count - i
  {
    if i == count then (Ok([]), budget)
    else
      var (v, left) := ParseChild(E, f, at, i, depth, budget);
      if v.Bad? then (Bad, left)
      else
        var (vs, rest) := ParseItems(E, f, at, i + 1, count, depth, left);
        (if vs.Bad? then Bad else Ok([v.value] + vs.value), rest)
  }

  function ParsePairs(E: Env, f: File, at: nat, i: nat, count: nat, m: map<seq<Byte>, Value>, depth: nat, budget: int)
    : (Result<map<seq<Byte>, Value>>, int)
    requires Sound(f) && depth <= MAX_DEPTH && i <= count
    decreases 33 - depth, 0, 1 + count - i
  {
    if i == count then (Ok(m), budget)
    else
      var (k, left) := ParseChild(E, f, at, i, depth, budget);
      if k.Bad? || !k.value.Text? || k.value.s in m then (Bad, left)
      else
        var (v, rest) := ParseChild(E, f, at, i + count, depth, left);
        if v.Bad? then (Bad, rest) else ParsePairs(E, f, at, i + 1, count, m[k.value.s := v.value], depth, rest)
  }

  function Decode(E: Env, b: seq<Byte>): Result<Value> {
    match Open(b)
    case Bad => Bad
    case Ok((f, root)) => Parse(E, f, root, 0, MAX_OBJECTS).0
  }
}
