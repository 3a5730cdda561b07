/**
 unplist undoes plist: within the decoder's limits it returns the encoded value, with
 integers as their 64-bit images and texts as UTF-16 leaves them, unless that makes two keys
 of a dictionary the same; past any limit it returns an error.
 */
module PlistRoundTrip {
  import opened Wrappers
  import opened ByteOrder
  import opened Plist

  /** What a text is after it went through the file: only ASCII keeps its bytes as they are. */
  function Recoded(E: Env, s: seq<Byte>): seq<Byte> { if Ascii(E, s) then s else E.utf8(E.runes(s)) }

  /** Every text, keys included, comes back unchanged. */
  ghost predicate ValidText(E: Env, v: Value) {
    match v
    case Text(s) => Recoded(E, s) == s
    case Array(items) => forall i | 0 <= i < |items| :: ValidText(E, items[i])
    case Dict(m) => forall k | k in m :: Recoded(E, k) == k && ValidText(E, m[k])
    case _ => true
  }

  /** The value with integers as their unsigned images: what a lossless decoder returns. */
  function Normal(v: Value): Value {
    match v
    case Int(n) => Uint(Wrap(n))
    case Array(items) => Array(seq(|items|, i requires 0 <= i < |items| => Normal(items[i])))
    case Dict(m) => Dict(map k | k in m :: Normal(m[k]))
    case _ => v
  }

  /** What decoding makes of a value: its texts are recoded too. */
  function Reread(E: Env, v: Value): Value
    requires Lawful(E)
    decreases v, 1, 0
  {
    match v
    case Text(s) => Text(Recoded(E, s))
    case Int(n) => Uint(Wrap(n))
    case Array(items) => Array(seq(|items|, i requires 0 <= i < |items| => Reread(E, items[i])))
    case Dict(_) => Dict(FirstEntries(E, v, |KeysOf(E, v)|))
    case _ => v
  }

  /** The entries under the first `i` keys, in the order they are read. */
  function FirstEntries(E: Env, v: Value, i: nat): map<seq<Byte>, Value>
    requires Lawful(E) && v.Dict? && i <= |KeysOf(E, v)|
    decreases v, 0, i
  {
    if i == 0 then map[]
    else FirstEntries(E, v, i - 1)[Recoded(E, KeysOf(E, v)[i - 1]) := Reread(E, ValuesOf(E, v)[i - 1])]
  }

  /** Recoding keeps these keys apart. */
  ghost predicate Apart(E: Env, keys: set<seq<Byte>>) {
    forall a, b | a in keys && b in keys && Recoded(E, a) == Recoded(E, b) :: a == b
  }

  /** So it does in every dictionary of the value. */
  ghost predicate KeysApart(E: Env, v: Value) {
    match v
    case Array(items) => forall i | 0 <= i < |items| :: KeysApart(E, items[i])
    case Dict(m) => Apart(E, m.Keys) && forall k | k in m :: KeysApart(E, m[k])
    case _ => true
  }

  /** Nested at most 32 deep when `v` itself stands at `depth`; keys stand one level below. */
  predicate Fits(v: Value, depth: nat) {
    depth <= MAX_DEPTH &&
    match v
    case Array(items) => forall i | 0 <= i < |items| :: Fits(items[i], depth + 1)
    case Dict(m) => m != map[] ==> depth < MAX_DEPTH && forall k | k in m :: Fits(m[k], depth + 1)
    case _ => true
  }

  /** Nothing in the value that stands at `depth` keeps it from being read. */
  ghost predicate Readable(E: Env, v: Value, depth: nat) {
    depth <= MAX_DEPTH &&
    match v
    case Array(items) => forall i | 0 <= i < |items| :: Readable(E, items[i], depth + 1)
    case Dict(m) =>
        Apart(E, m.Keys) && (m != map[] ==> depth < MAX_DEPTH && forall k | k in m :: Readable(E, m[k], depth + 1))
    case _ => true
  }

  lemma {:induction false} ReadableIs(E: Env, v: Value, depth: nat)
    ensures Readable(E, v, depth) <==> Fits(v, depth) && KeysApart(E, v)
    decreases v
  {
    hide Apart;
    match v
    case Array(items) =>
      forall i | 0 <= i < |items|
        ensures Readable(E, items[i], depth + 1) <==> Fits(items[i], depth + 1) && KeysApart(E, items[i])
      {
        ReadableIs(E, items[i], depth + 1);
      }
    case Dict(m) =>
      forall k | k in m ensures Readable(E, m[k], depth + 1) <==> Fits(m[k], depth + 1) && KeysApart(E, m[k]) {
        ReadableIs(E, m[k], depth + 1);
      }
    case _ =>
  }

  /******* Where the encoder puts things *******/

  lemma SliceOfSlice<A>(s: seq<A>, from: nat, n: nat, i: nat, j: nat)
    requires from + n <= |s| && i <= j <= n
    ensures s[from..from + n][i..j] == s[from + i..from + j]
  {
    var middle := s[from..from + n];
    var l, r := middle[i..j], s[from + i..from + j];
    forall k | 0 <= k < |l| ensures l[k] == r[k] { assert l[k] == middle[i + k] == s[from + i + k]; }
  }

  /** The references from the i-th on are these IDs. */
  ghost predicate RefsRead(b: seq<Byte>, at: nat, i: nat, ids: seq<nat>) {
    forall k | 0 <= k < |ids| :: ReadAt(b, at + (i + k) * 8, 8) == Ok(ids[k])
  }

  lemma RefsTail(b: seq<Byte>, at: nat, i: nat, ids: seq<nat>)
    requires ids != [] && RefsRead(b, at, i, ids)
    ensures ReadAt(b, at + i * 8, 8) == Ok(ids[0]) && RefsRead(b, at, i + 1, ids[1..])
  {
    hide ReadAt;
    assert ReadAt(b, at + (i + 0) * 8, 8) == Ok(ids[0]);
    forall k | 0 <= k < |ids[1..]| ensures ReadAt(b, at + (i + 1 + k) * 8, 8) == Ok(ids[1..][k]) {
      assert ids[k + 1] == ids[1..][k];
      assert ReadAt(b, at + (i + (k + 1)) * 8, 8) == Ok(ids[k + 1]);
    }
  }

  ghost predicate Placed(f: File, objects: seq<seq<Byte>>, i: nat)
    requires i < |objects|
  {
    var s := StartOf(objects, i);
    && ReadAt(f.b, f.table + i * 8, 8) == Ok(s)
    && 8 <= s && s + |objects[i]| <= f.table <= |f.b|
    && f.b[s..s + |objects[i]|] == objects[i]
  }

  /** The file holds this object table, with 8-byte offsets and references. */
  ghost predicate Holds(f: File, objects: seq<seq<Byte>>) {
    && Sound(f) && f.os == 8 && f.rs == 8 && f.n == |objects| && |f.b| <= MAX_BYTES
    && (forall i | 0 <= i < |objects| :: Placed(f, objects, i))
  }

  lemma ObjectInside(objects: seq<seq<Byte>>, i: nat)
    requires i < |objects|
    ensures var s := |Flatten(objects[..i])|;
            s + |objects[i]| <= |Flatten(objects)| && Flatten(objects)[s..s + |objects[i]|] == objects[i]
  {
    assert objects == objects[..i] + ([objects[i]] + objects[i + 1..]);
    FlattenSplit(objects[..i], [objects[i]] + objects[i + 1..]);
    assert Flatten([objects[i]] + objects[i + 1..]) == objects[i] + Flatten(objects[i + 1..]);
  }

  lemma {:induction false} RefsAt(ids: seq<nat>, i: nat)
    requires i < |ids|
    ensures Refs(ids)[8 * i..8 * i + 8] == BigEndian(ids[i], 8)
  {
    if i > 0 {
      RefsAt(ids[1..], i - 1);
      assert Refs(ids)[8 * i..8 * i + 8] == Refs(ids[1..])[8 * (i - 1)..8 * (i - 1) + 8];
    }
  }

  /** A number written at a known place is read back. */
  lemma ReadBack(b: seq<Byte>, pos: nat, n: nat)
    requires pos + 8 <= |b| && b[pos..pos + 8] == BigEndian(n, 8) && n < 0x1_0000_0000_0000_0000
    ensures ReadAt(b, pos, 8) == Ok(n) && Number(b[pos..pos + 8]) == n
  {
    Power256Of8();
    NumberOfBigEndian(n, 8);
  }

  lemma RefReadBack(b: seq<Byte>, at: nat, ids: seq<nat>, i: nat)
    requires i < |ids| && at + 8 * |ids| <= |b| && b[at..at + 8 * |ids|] == Refs(ids)
             && ids[i] < 0x1_0000_0000_0000_0000
    ensures ReadAt(b, at + i * 8, 8) == Ok(ids[i])
  {
    hide Refs, BigEndian, ReadAt;
    RefsAt(ids, i);
    SliceOfSlice(b, at, 8 * |ids|, 8 * i, 8 * i + 8);
    ReadBack(b, at + i * 8, ids[i]);
  }

  lemma {:induction false} AllRefsReadBack(b: seq<Byte>, start: nat, at: nat, i: nat, ids: seq<nat>)
    requires start == at + 8 * i && start + 8 * |ids| <= |b| && b[start..start + 8 * |ids|] == Refs(ids)
    requires forall k | 0 <= k < |ids| :: ids[k] < 0x1_0000_0000_0000_0000
    ensures RefsRead(b, at, i, ids)
  {
    hide ReadAt, Refs, BigEndian, Number, Power256;
    forall k | 0 <= k < |ids|
      ensures ReadAt(b, at + (i + k) * 8, 8) == Ok(ids[k])
    {
      OneRefReadBack(b, start, at, i, ids, k);
    }
  }

  lemma {:induction false} OneRefReadBack(b: seq<Byte>, start: nat, at: nat, i: nat, ids: seq<nat>, k: nat)
    requires start == at + 8 * i && start + 8 * |ids| <= |b| && b[start..start + 8 * |ids|] == Refs(ids)
    requires k < |ids| && ids[k] < 0x1_0000_0000_0000_0000
    ensures ReadAt(b, at + (i + k) * 8, 8) == Ok(ids[k])
  {
    hide ReadAt, Refs, BigEndian, Number, Power256;
    RefReadBack(b, start, ids, k);
    assert start + k * 8 == at + (i + k) * 8;
  }

  lemma StartBound(objects: seq<seq<Byte>>, i: nat)
    requires i <= |objects|
    ensures StartOf(objects, i) <= 8 + |Flatten(objects)|
  {
    assert objects == objects[..i] + objects[i..];
    FlattenSplit(objects[..i], objects[i..]);
  }

  /** The trailer of the encoder's file is read back field by field. */
  lemma FileOpens(objects: seq<seq<Byte>>)
    requires |objects| > 0 && |objects[0]| > 0 && |FileOf(objects)| <= MAX_BYTES
    ensures var b := FileOf(objects);
            && |b| == 8 + |Flatten(objects)| + 8 * |objects| + 32
            && Open(b) == if |objects| <= MAX_OBJECTS
               then Ok((File(b, 8, 8, |objects|, 8 + |Flatten(objects)|), |objects| - 1)) else Bad
  {
    hide BigEndian, Number, ReadAt, Refs, Offsets, Trailer, FrontOf, Flatten;
    var b, n, table := FileOf(objects), |objects|, 8 + |Flatten(objects)|;
    var t := |b| - 32;
    NotEmpty(objects);
    var front, tail := FrontOf(objects), Trailer(n, n - 1, table);
    FrontAndTail(front, tail);
    assert b == front + tail && |front| == t;
    assert b[..8] == front[..8];
    TrailerReadBack(b, t, n, n - 1, table);
  }

  lemma NotEmpty(objects: seq<seq<Byte>>)
    requires |objects| > 0 && |objects[0]| > 0
    ensures |Flatten(objects)| > 0
  {}

  lemma FrontAndTail(front: seq<Byte>, tail: seq<Byte>)
    ensures (front + tail)[|front|..|front| + |tail|] == tail
  {
  }

  lemma FourParts(w: seq<Byte>, x: seq<Byte>, y: seq<Byte>, z: seq<Byte>)
    requires |w| == |x| == |y| == |z| == 8
    ensures var t := w + x + y + z; t[..8] == w && t[8..16] == x && t[16..24] == y && t[24..32] == z
  {
  }

  lemma TrailerReadBack(b: seq<Byte>, t: nat, n: nat, root: nat, table: nat)
    requires t + 32 == |b| <= MAX_BYTES && n <= |b| && root <= |b| && table <= |b|
             && b[t..t + 32] == Trailer(n, root, table)
    ensures b[t + 6] == 8 && b[t + 7] == 8
    ensures Number(b[t + 8..t + 16]) == n && Number(b[t + 16..t + 24]) == root && Number(b[t + 24..t + 32]) == table
  {
    hide BigEndian, Number, ReadAt;
    var tail := Trailer(n, root, table);
    assert b[t + 6] == b[t..t + 32][6] == tail[6] && b[t + 7] == b[t..t + 32][7] == tail[7];
    SliceOfSlice(b, t, 32, 8, 16);
    SliceOfSlice(b, t, 32, 16, 24);
    SliceOfSlice(b, t, 32, 24, 32);
    FourParts([0, 0, 0, 0, 0, 0, 8, 8], BigEndian(n, 8), BigEndian(root, 8), BigEndian(table, 8));
    ReadBack(b, t + 8, n);
    ReadBack(b, t + 16, root);
    ReadBack(b, t + 24, table);
  }

  /** The encoder's file holds its objects. */
  lemma {:induction false} FileHolds(objects: seq<seq<Byte>>)
    requires |objects| > 0 && |objects[0]| > 0 && |FileOf(objects)| <= MAX_BYTES
    ensures Holds(File(FileOf(objects), 8, 8, |objects|, 8 + |Flatten(objects)|), objects)
  {
    hide ReadAt, Refs, Flatten, Trailer, Open, RefsRead;
    var body, b := Flatten(objects), FileOf(objects);
    var table, n := 8 + |body|, |objects|;
    var f := File(b, 8, 8, n, table);
    FileOpens(objects);
    var offsets := Offsets(objects);
    assert b[8..8 + |body|] == FrontOf(objects)[8..8 + |body|] == body;
    assert b[table..table + 8 * n] == FrontOf(objects)[table..table + 8 * n] == Refs(offsets);
    forall i | 0 <= i < n ensures Placed(f, objects, i) {
      ObjectInside(objects, i);
      StartBound(objects, i);
      RefReadBack(b, table, offsets, i);
      var s := StartOf(objects, i);
      SliceOfSlice(b, 8, |body|, s - 8, s - 8 + |objects[i]|);
    }
  }

  /******* One object *******/

  /** The length header of an object is read back, whichever of its two forms was used. */
  lemma HeaderReadBack(f: File, objects: seq<seq<Byte>>, id: nat, tag: Byte, n: nat, payload: seq<Byte>)
    requires 0x40 <= tag && tag % 16 == 0 && n <= |payload|
    requires Holds(f, objects) && id < |objects| && objects[id] == Length(tag, n) + payload
    ensures var at := StartOf(objects, id) + |Length(tag, n)|;
            && HeadOf(f, id) == Ok(Head(tag / 16, if n < 15 then n else 15, n, at))
            && at + |payload| <= f.table && f.b[at..at + |payload|] == payload
  {
    hide ReadAt, BigEndian, Number, StartOf, Length;
    assert Placed(f, objects, id);
    var s, o, l := StartOf(objects, id), objects[id], Length(tag, n);
    SliceOfSlice(f.b, s, |o|, 0, |l|);
    SliceOfSlice(f.b, s, |o|, |l|, |o|);
    assert o[0..|l|] == l && o[|l|..|o|] == payload;
    LengthReadBack(f, id, s, tag, n);
  }

  lemma LengthReadBack(f: File, id: nat, s: nat, tag: Byte, n: nat)
    requires 0x40 <= tag && tag % 16 == 0 && n < 0x1_0000_0000_0000_0000
    requires Sound(f) && f.os == 8 && ReadAt(f.b, f.table + id * 8, 8) == Ok(s) && 8 <= s
    requires s + |Length(tag, n)| <= f.table && f.b[s..s + |Length(tag, n)|] == Length(tag, n)
    ensures HeadOf(f, id) == Ok(Head(tag / 16, if n < 15 then n else 15, n, s + |Length(tag, n)|))
  {
    hide ReadAt, BigEndian, Number;
    var l := Length(tag, n);
    assert f.b[s] == f.b[s..s + |l|][0] == l[0];
    if n >= 15 {
      assert f.b[s + 1] == f.b[s..s + |l|][1] == l[1];
      SliceOfSlice(f.b, s, |l|, 2, 10);
      assert l[2..10] == BigEndian(n, 8);
      ReadBack(f.b, s + 2, n);
    }
  }

  lemma FixedReadBack(f: File, objects: seq<seq<Byte>>, id: nat, tag: Byte, n: Uint64)
    requires Holds(f, objects) && id < |objects| && objects[id] == [tag] + BigEndian(n, 8)
    requires tag == 0x13 || tag == 0x23
    ensures var at := StartOf(objects, id) + 1;
            HeadOf(f, id) == Ok(Head(tag / 16, 3, 3, at)) && Need(f, at, 8) && ReadUint(f, at, 8) == n
  {
    hide ReadAt, BigEndian, Number, StartOf;
    assert Placed(f, objects, id);
    var s, o := StartOf(objects, id), objects[id];
    assert f.b[s] == f.b[s..s + |o|][0] == tag;
    SliceOfSlice(f.b, s, |o|, 1, 9);
    assert o[1..9] == BigEndian(n, 8);
    ReadBack(f.b, s + 1, n);
  }

  lemma {:induction false} Utf16Length(runes: seq<int>)
    ensures |Utf16(runes)| >= |runes|
  {
    if runes != [] { Utf16Length(runes[1..]); }
  }

  lemma TextReadBack(E: Env, f: File, objects: seq<seq<Byte>>, id: nat, s: seq<Byte>)
    requires Lawful(E) && Holds(f, objects) && id < |objects|
    requires objects[id] == LeafBytes(E, Text(s))
    ensures HeadOf(f, id).Ok? && HeadOf(f, id).value.kind in {5, 6}
    ensures ReadLeaf(E, f, HeadOf(f, id).value) == Ok(Text(Recoded(E, s)))
  {
    hide HeadOf, ReadAt, BigEndian, Number, Placed, Utf16, FromUtf16, Units, UnitsOf, Flatten, StartOf, Length;
    if Ascii(E, s) {
      HeaderReadBack(f, objects, id, 0x50, |s|, s);
    } else {
      var u := Utf16(E.runes(s));
      assert Scalars(E.runes(s));
      Utf16RoundTrip(E.runes(s));
      UnitsRoundTrip(u);
      HeaderReadBack(f, objects, id, 0x60, |u|, Units(u));
    }
  }

  lemma HoldsBasics(f: File, objects: seq<seq<Byte>>)
    requires Holds(f, objects)
    ensures Sound(f) && f.n == |objects| && f.rs == 8 && |f.b| <= MAX_BYTES && f.table <= |f.b|
  {
  }

  lemma LeafReadBack(E: Env, f: File, objects: seq<seq<Byte>>, id: nat, v: Value)
    requires Lawful(E) && Holds(f, objects) && id < |objects| && Leaf(v)
    requires objects[id] == LeafBytes(E, v)
    ensures HeadOf(f, id).Ok? && HeadOf(f, id).value.kind !in {10, 13}
    ensures ReadLeaf(E, f, HeadOf(f, id).value) == Ok(Reread(E, v))
  {
    hide ReadAt, BigEndian, Number, Utf16, FromUtf16, Units, UnitsOf, Flatten, StartOf, Length, ReadUint, Lawful;
    match v
    case Text(s) =>
      TextReadBack(E, f, objects, id, s);
    case Bytes(b) =>
      hide HeadOf, Holds;
      HoldsBasics(f, objects);
      HeaderReadBack(f, objects, id, 0x40, |b|, b);
    case Boolean(yes) =>
      assert Placed(f, objects, id);
      assert f.b[StartOf(objects, id)..StartOf(objects, id) + 1][0] == f.b[StartOf(objects, id)];
    case Int(n) =>
      hide HeadOf, Holds;
      FixedReadBack(f, objects, id, 0x13, Wrap(n));
    case Uint(n) =>
      hide HeadOf, Holds;
      FixedReadBack(f, objects, id, 0x13, n);
    case Float(bits) =>
      hide HeadOf, Holds;
      FixedReadBack(f, objects, id, 0x23, bits);
  }

  /******* Whole values *******/

  /** `r` is `value` with `left` of the budget if `good`, and an error otherwise. */
  ghost predicate Outcome<A(!new)>(r: (Result<A>, int), good: bool, value: A, left: int) {
    if good then r == (Ok(value), left) else r.0.Bad?
  }

  ghost predicate Stands(E: Env, objects: seq<seq<Byte>>, v: Value, base: nat)
    requires Lawful(E)
  {
    var o := Objects(E, v, base);
    base + |o| <= |objects| && objects[base..base + |o|] == o
  }

  ghost predicate StandAll(E: Env, objects: seq<seq<Byte>>, parent: Value, items: seq<Value>, base: nat)
    requires Lawful(E) && forall i | 0 <= i < |items| :: items[i] < parent
  {
    var o := ObjectsOf(E, parent, items, base);
    base + |o| <= |objects| && objects[base..base + |o|] == o
  }

  lemma StandSplit(E: Env, objects: seq<seq<Byte>>, parent: Value, items: seq<Value>, base: nat)
    requires Lawful(E) && items != [] && (forall i | 0 <= i < |items| :: items[i] < parent)
    requires StandAll(E, objects, parent, items, base)
    ensures Stands(E, objects, items[0], base)
    ensures StandAll(E, objects, parent, items[1..], base + |Objects(E, items[0], base)|)
    ensures |ObjectsOf(E, parent, items, base)| ==
            |Objects(E, items[0], base)| + |ObjectsOf(E, parent, items[1..], base + |Objects(E, items[0], base)|)|
    ensures IdsOf(E, parent, items, base)[0] == base + |Objects(E, items[0], base)| - 1
    ensures IdsOf(E, parent, items, base)[1..] == IdsOf(E, parent, items[1..], base + |Objects(E, items[0], base)|)
  {
    hide Objects, ObjectsOf, IdsOf, Lawful;
    ObjectsCons(E, parent, items, base);
    var o, first := ObjectsOf(E, parent, items, base), Objects(E, items[0], base);
    var rest := ObjectsOf(E, parent, items[1..], base + |first|);
    assert o == first + rest;
    SliceInTwo(objects, base, first, rest);
  }

  lemma SliceInTwo<A>(s: seq<A>, from: nat, a: seq<A>, b: seq<A>)
    requires from + |a + b| <= |s| && s[from..from + |a + b|] == a + b
    ensures s[from..from + |a|] == a && s[from + |a|..from + |a| + |b|] == b
  {
    SliceOfSlice(s, from, |a + b|, 0, |a|);
    SliceOfSlice(s, from, |a + b|, |a|, |a + b|);
    assert (a + b)[0..|a|] == a && (a + b)[|a|..|a + b|] == b;
  }

  lemma {:induction false} ParseReadsBack(E: Env, f: File, objects: seq<seq<Byte>>, v: Value, base: nat, depth: nat,
          budget: int)
    requires Lawful(E) && Holds(f, objects) && |objects| <= MAX_OBJECTS && Stands(E, objects, v, base)
    requires budget >= |Objects(E, v, base)|
    ensures var n := |Objects(E, v, base)|;
            Outcome(Parse(E, f, base + n - 1, depth, budget), Readable(E, v, depth), Reread(E, v), budget - n)
    decreases v, 1, 0
  {
    hide HeadOf, ReadLeaf, LeafBytes, ParseItems, ParsePairs, ObjectsOf, IdsOf, Lawful, Holds;
    HoldsBasics(f, objects);
    var o := Objects(E, v, base);
    var id := base + |o| - 1;
    assert objects[id] == objects[base..base + |o|][|o| - 1] == o[|o| - 1];
    if depth <= MAX_DEPTH {
      match v
      case Array(items) => ArrayReadsBack(E, f, objects, v, base, depth, budget);
      case Dict(_) => DictReadsBack(E, f, objects, v, base, depth, budget);
      case _ => LeafReadBack(E, f, objects, id, v);
    }
  }

  lemma ParseArray(E: Env, f: File, id: nat, depth: nat, budget: int)
    requires Sound(f) && id < f.n && depth <= MAX_DEPTH && budget > 0
    requires HeadOf(f, id).Ok? && HeadOf(f, id).value.kind == 10
    requires var h := HeadOf(f, id).value; h.count <= MAX_OBJECTS && Need(f, h.at, h.count * f.rs)
    ensures var h := HeadOf(f, id).value;
            var (items, rest) := ParseItems(E, f, h.at, 0, h.count, depth, budget - 1);
            Parse(E, f, id, depth, budget) == (if items.Bad? then Bad else Ok(Array(items.value)), rest)
  {
    hide HeadOf, ParseItems;
  }

  function HeadFor(kind: nat, n: nat, at: nat): Head { Head(kind, if n < 15 then n else 15, n, at) }

  /** A record of a length and references is read back: its head and the IDs behind it. */
  lemma RecordReadBack(f: File, objects: seq<seq<Byte>>, id: nat, tag: Byte, n: nat, ids: seq<nat>) returns (at: nat)
    requires 0x40 <= tag && tag % 16 == 0 && n <= |ids|
    requires Holds(f, objects) && id < |objects| && objects[id] == Length(tag, n) + Refs(ids)
    requires forall k | 0 <= k < |ids| :: ids[k] < |objects|
    ensures HeadOf(f, id) == Ok(HeadFor(tag / 16, n, at)) && Need(f, at, 8 * |ids|) && RefsRead(f.b, at, 0, ids)
  {
    hide HeadOf, Holds, Length, Refs, ReadAt, RefsRead;
    HoldsBasics(f, objects);
    HeaderReadBack(f, objects, id, tag, n, Refs(ids));
    at := StartOf(objects, id) + |Length(tag, n)|;
    CountBound(f, objects);
    AllRefsReadBack(f.b, at, at, 0, ids);
  }

  lemma CountBound(f: File, objects: seq<seq<Byte>>)
    requires Holds(f, objects)
    ensures |objects| <= |f.b|
  {
  }

  /** The array's children come first, its own record last. */
  lemma ArrayStands(E: Env, objects: seq<seq<Byte>>, v: Value, base: nat)
    requires Lawful(E) && v.Array? && Stands(E, objects, v, base)
    ensures |Objects(E, v, base)| == |ObjectsOf(E, v, v.items, base)| + 1 && base + |Objects(E, v, base)| <= |objects|
    ensures StandAll(E, objects, v, v.items, base)
    ensures objects[base + |ObjectsOf(E, v, v.items, base)|] ==
            Length(0xA0, |v.items|) + Refs(IdsOf(E, v, v.items, base))
  {
    hide ObjectsOf, IdsOf, Length, Refs, Lawful, LeafBytes;
    LastOf(objects, base, ObjectsOf(E, v, v.items, base), Length(0xA0, |v.items|) + Refs(IdsOf(E, v, v.items, base)));
  }

  lemma {:induction false} ArrayReadsBack(E: Env, f: File, objects: seq<seq<Byte>>, v: Value, base: nat, depth: nat,
          budget: int)
    requires Lawful(E) && Holds(f, objects) && |objects| <= MAX_OBJECTS && v.Array? && Stands(E, objects, v, base)
    requires budget >= |Objects(E, v, base)| && depth <= MAX_DEPTH
    ensures var n := |Objects(E, v, base)|;
            Outcome(Parse(E, f, base + n - 1, depth, budget), Readable(E, v, depth), Reread(E, v), budget - n)
    decreases v, 0, 1 + |v.items|
  {
    hide Objects, ObjectsOf, IdsOf, Parse, ParseItems, HeadOf, Holds, Lawful, StandAll, Stands, RefsRead, Readable,
         Reread, AllReadable, Rereads;
    HoldsBasics(f, objects);
    ArrayStands(E, objects, v, base);
    IdsBound(E, v, v.items, base);
    var at := RecordReadBack(f, objects, base + |ObjectsOf(E, v, v.items, base)|, 0xA0, |v.items|,
        IdsOf(E, v, v.items, base));
    ParseArray(E, f, base + |ObjectsOf(E, v, v.items, base)|, depth, budget);
    ItemsReadBack(E, f, objects, v, v.items, base, at, 0, depth, budget - 1);
    ArrayIsItems(E, v, depth);
  }

  lemma ArrayIsItems(E: Env, v: Value, depth: nat)
    requires Lawful(E) && v.Array?
    ensures Readable(E, v, depth) <==> depth <= MAX_DEPTH && AllReadable(E, v.items, depth + 1)
    ensures Reread(E, v) == Array(Rereads(E, v.items))
  {
  }

  lemma LastOf(objects: seq<seq<Byte>>, base: nat, rest: seq<seq<Byte>>, own: seq<Byte>)
    requires base + |rest| + 1 <= |objects| && objects[base..base + |rest| + 1] == rest + [own]
    ensures objects[base..base + |rest|] == rest && objects[base + |rest|] == own
  {
    SliceOfSlice(objects, base, |rest| + 1, 0, |rest|);
    assert objects[base..base + |rest| + 1][|rest|] == own;
  }

  lemma {:induction false} IdsBound(E: Env, parent: Value, items: seq<Value>, base: nat)
    requires Lawful(E) && forall i | 0 <= i < |items| :: items[i] < parent
    ensures forall i | 0 <= i < |items| ::
            base <= IdsOf(E, parent, items, base)[i] < base + |ObjectsOf(E, parent, items, base)|
    decreases |items|
  {
    hide Objects, Lawful;
    if items != [] { IdsBound(E, parent, items[1..], base + |Objects(E, items[0], base)|); }
  }

  lemma {:induction false} ItemsReadBack(E: Env, f: File, objects: seq<seq<Byte>>, parent: Value, items: seq<Value>,
          base: nat,
                                         at: nat, i: nat, depth: nat, budget: int)
    requires Lawful(E) && Holds(f, objects) && (forall k | 0 <= k < |items| :: items[k] < parent)
    requires StandAll(E, objects, parent, items, base) && |objects| <= MAX_OBJECTS
    requires RefsRead(f.b, at, i, IdsOf(E, parent, items, base))
    requires budget >= |ObjectsOf(E, parent, items, base)| && depth <= MAX_DEPTH
    ensures Outcome(ParseItems(E, f, at, i, i + |items|, depth, budget),
                    AllReadable(E, items, depth + 1), Rereads(E, items),
                    budget - |ObjectsOf(E, parent, items, base)|)
    decreases parent, 0, |items|
  {
    hide Parse, HeadOf, Objects, ObjectsOf, IdsOf, Lawful, Holds, ReadAt, Reread, Readable, AllReadable, Rereads,
         StandAll, Stands, RefsRead;
    if items == [] {
      NoObjects(E, parent, base);
      NothingToRead(E, depth);
    } else {
      StandSplit(E, objects, parent, items, base);
      var n := |Objects(E, items[0], base)|;
      HoldsBasics(f, objects);
      RefsTail(f.b, at, i, IdsOf(E, parent, items, base));
      assert ParseChild(E, f, at, i, depth, budget) == Parse(E, f, base + n - 1, depth + 1, budget);
      ParseReadsBack(E, f, objects, items[0], base, depth + 1, budget);
      var rest := items[1..];
      ReadableItems(E, items, depth);
      if Readable(E, items[0], depth + 1) {
        ItemsReadBack(E, f, objects, parent, rest, base + n, at, i + 1, depth, budget - n);
      }
    }
  }

  lemma NoObjects(E: Env, parent: Value, base: nat)
    requires Lawful(E)
    ensures ObjectsOf(E, parent, [], base) == []
  {
  }

  function Rereads(E: Env, items: seq<Value>): seq<Value>
    requires Lawful(E)
  {
    seq(|items|, k requires 0 <= k < |items| => Reread(E, items[k]))
  }

  ghost predicate AllReadable(E: Env, items: seq<Value>, depth: nat)
  {
    forall k | 0 <= k < |items| :: Readable(E, items[k], depth)
  }

  lemma NothingToRead(E: Env, depth: nat)
    requires Lawful(E)
    ensures AllReadable(E, [], depth + 1) && Rereads(E, []) == []
  {
  }

  lemma ReadableItems(E: Env, items: seq<Value>, depth: nat)
    requires Lawful(E) && items != []
    ensures AllReadable(E, items, depth + 1) <==>
            Readable(E, items[0], depth + 1) && AllReadable(E, items[1..], depth + 1)
    ensures Rereads(E, items) == [Reread(E, items[0])] + Rereads(E, items[1..])
  {
    hide Readable, Reread;
    assert forall k | 1 <= k < |items| :: items[k] == items[1..][k - 1];
  }

  lemma ParseDict(E: Env, f: File, id: nat, depth: nat, budget: int)
    requires Sound(f) && id < f.n && depth <= MAX_DEPTH && budget > 0
    requires HeadOf(f, id).Ok? && HeadOf(f, id).value.kind == 13
    requires f.rs == 8 && HeadOf(f, id).value.count <= MAX_OBJECTS
             && Need(f, HeadOf(f, id).value.at, 16 * HeadOf(f, id).value.count)
    ensures var h := HeadOf(f, id).value;
            var (m, rest) := ParsePairs(E, f, h.at, 0, h.count, map[], depth, budget - 1);
            Parse(E, f, id, depth, budget) == (if m.Bad? then Bad else Ok(Dict(m.value)), rest)
  {
    hide HeadOf, ParsePairs;
  }

  ghost predicate KeysStand(E: Env, objects: seq<seq<Byte>>, v: Value, base: nat)
    requires v.Dict?
  {
    forall k | 0 <= k < |KeysOf(E, v)| ::
        base + k < |objects| && objects[base + k] == LeafBytes(E, Text(KeysOf(E, v)[k]))
  }

  /** A dictionary's own record: its length, the IDs of its keys, the IDs of its values. */
  function DictRecord(E: Env, v: Value, base: nat): seq<Byte>
    requires Lawful(E) && v.Dict?
  {
    var n := |KeysOf(E, v)|;
    Length(0xD0, n) + Refs(Count(base, n) + IdsOf(E, v, ValuesOf(E, v), base + n))
  }

  function DictChildren(E: Env, v: Value, base: nat): seq<seq<Byte>>
    requires Lawful(E) && v.Dict?
  {
    KeyObjects(E, KeysOf(E, v)) + ObjectsOf(E, v, ValuesOf(E, v), base + |KeysOf(E, v)|)
  }

  /** A dictionary's keys come first, then its values, then its own record. */
  lemma DictStands(E: Env, objects: seq<seq<Byte>>, v: Value, base: nat)
    requires Lawful(E) && v.Dict? && Stands(E, objects, v, base)
    ensures base + |DictChildren(E, v, base)| < |objects| && |Objects(E, v, base)| == |DictChildren(E, v, base)| + 1
    ensures objects[base + |DictChildren(E, v, base)|] == DictRecord(E, v, base)
    ensures objects[base..base + |DictChildren(E, v, base)|] == DictChildren(E, v, base)
  {
    hide *;
    StandsAt(E, objects, v, base);
    DictObjects(E, v, base);
    LastOf(objects, base, DictChildren(E, v, base), DictRecord(E, v, base));
  }

  lemma StandsAt(E: Env, objects: seq<seq<Byte>>, v: Value, base: nat)
    requires Lawful(E) && Stands(E, objects, v, base)
    ensures base + |Objects(E, v, base)| <= |objects|
            && objects[base..base + |Objects(E, v, base)|] == Objects(E, v, base)
  {
    hide Objects, Lawful;
  }

  lemma DictObjects(E: Env, v: Value, base: nat)
    requires Lawful(E) && v.Dict?
    ensures Objects(E, v, base) == DictChildren(E, v, base) + [DictRecord(E, v, base)]
  {
    hide ObjectsOf, IdsOf, Length, Refs, Lawful, LeafBytes, KeysOf, ValuesOf;
    var n := |KeysOf(E, v)|;
    var vids := IdsOf(E, v, ValuesOf(E, v), base + n);
    RefsSplit(Count(base, n), vids);
    assert Length(0xD0, n) + Refs(Count(base, n)) + Refs(vids) == Length(0xD0, n) + Refs(Count(base, n) + vids);
  }

  lemma {:induction false} RefsSplit(a: seq<nat>, b: seq<nat>)
    ensures Refs(a + b) == Refs(a) + Refs(b)
  {
    if a == [] {
      assert a + b == b;
    } else {
      assert (a + b)[1..] == a[1..] + b;
      RefsSplit(a[1..], b);
    }
  }

  lemma DictParts(E: Env, objects: seq<seq<Byte>>, v: Value, base: nat)
    requires Lawful(E) && v.Dict? && base + |DictChildren(E, v, base)| <= |objects|
    requires objects[base..base + |DictChildren(E, v, base)|] == DictChildren(E, v, base)
    ensures KeysStand(E, objects, v, base)
    ensures StandAll(E, objects, v, ValuesOf(E, v), base + |KeysOf(E, v)|)
  {
    hide ObjectsOf, Lawful, LeafBytes, ValuesOf, KeysOf;
    var ko := KeyObjects(E, KeysOf(E, v));
    var vo := ObjectsOf(E, v, ValuesOf(E, v), base + |ko|);
    SliceInTwo(objects, base, ko, vo);
    forall k | 0 <= k < |ko| ensures objects[base + k] == ko[k] { assert objects[base..base + |ko|][k] == ko[k]; }
  }

  lemma RefsReadSplit(b: seq<Byte>, at: nat, x: seq<nat>, y: seq<nat>)
    requires RefsRead(b, at, 0, x + y)
    ensures RefsRead(b, at, 0, x) && RefsRead(b, at, |x|, y)
  {
    hide ReadAt;
    forall k | 0 <= k < |x| ensures ReadAt(b, at + (0 + k) * 8, 8) == Ok(x[k]) { assert (x + y)[k] == x[k]; }
    forall k | 0 <= k < |y| ensures ReadAt(b, at + (|x| + k) * 8, 8) == Ok(y[k]) {
      assert (x + y)[|x| + k] == y[k];
      assert ReadAt(b, at + (0 + (|x| + k)) * 8, 8) == Ok(y[k]);
    }
  }

  /** The record of a dictionary, read back: its header, then the IDs of its keys and values. */
  lemma {:induction false} DictRefsReadBack(E: Env, f: File, objects: seq<seq<Byte>>, v: Value, base: nat)
          returns (at: nat)
    requires Lawful(E) && Holds(f, objects) && v.Dict? && Stands(E, objects, v, base)
    ensures Sound(f) && f.n == |objects|
    ensures var n, id := |KeysOf(E, v)|, base + |Objects(E, v, base)| - 1;
            && id < |objects| && HeadOf(f, id) == Ok(HeadFor(13, n, at)) && Need(f, at, 16 * n)
            && RefsRead(f.b, at, 0, Count(base, n)) && RefsRead(f.b, at, n, IdsOf(E, v, ValuesOf(E, v), base + n))
  {
    hide Objects, ObjectsOf, IdsOf, HeadOf, Holds, Lawful, Stands, RefsRead, LeafBytes, ValuesOf, KeysOf, ReadAt,
         Length, Refs, Sound;
    HoldsBasics(f, objects);
    var n := |KeysOf(E, v)|;
    DictStands(E, objects, v, base);
    var vids := IdsOf(E, v, ValuesOf(E, v), base + n);
    IdsBound(E, v, ValuesOf(E, v), base + n);
    at := RecordReadBack(f, objects, base + |Objects(E, v, base)| - 1, 0xD0, n, Count(base, n) + vids);
    RefsReadSplit(f.b, at, Count(base, n), vids);
  }

  /** From its record the parser goes on to the dictionary's pairs. */
  lemma {:induction false} DictRecordReadsBack(E: Env, f: File, objects: seq<seq<Byte>>, v: Value, base: nat,
          depth: nat, budget: int) returns (at: nat)
    requires Lawful(E) && Holds(f, objects) && |objects| <= MAX_OBJECTS && v.Dict? && Stands(E, objects, v, base)
    requires budget > 0 && depth <= MAX_DEPTH
    ensures var n, size := |KeysOf(E, v)|, |Objects(E, v, base)|;
            && KeysStand(E, objects, v, base) && StandAll(E, objects, v, ValuesOf(E, v), base + n)
            && RefsRead(f.b, at, 0, Count(base, n)) && RefsRead(f.b, at, n, IdsOf(E, v, ValuesOf(E, v), base + n))
            && size == n + |ObjectsOf(E, v, ValuesOf(E, v), base + n)| + 1
            && var (m, rest) := (HoldsBasics(f, objects); ParsePairs(E, f, at, 0, n, map[], depth, budget - 1));
               Parse(E, f, base + size - 1, depth, budget) == (if m.Bad? then Bad else Ok(Dict(m.value)), rest)
  {
    hide Objects, ObjectsOf, IdsOf, Parse, ParsePairs, HeadOf, Holds, Lawful, StandAll, Stands, RefsRead, KeysStand,
         LeafBytes, ValuesOf, KeysOf;
    HoldsBasics(f, objects);
    DictStands(E, objects, v, base);
    DictParts(E, objects, v, base);
    at := DictRefsReadBack(E, f, objects, v, base);
    ParseDict(E, f, base + |Objects(E, v, base)| - 1, depth, budget);
  }

  lemma {:induction false} DictReadsBack(E: Env, f: File, objects: seq<seq<Byte>>, v: Value, base: nat, depth: nat,
          budget: int)
    requires Lawful(E) && Holds(f, objects) && |objects| <= MAX_OBJECTS && v.Dict? && Stands(E, objects, v, base)
    requires budget >= |Objects(E, v, base)| && depth <= MAX_DEPTH
    ensures var n := |Objects(E, v, base)|;
            Outcome(Parse(E, f, base + n - 1, depth, budget), Readable(E, v, depth), Reread(E, v), budget - n)
    decreases v, 0, 1 + |KeysOf(E, v)|
  {
    hide Objects, ObjectsOf, IdsOf, Parse, ParsePairs, HeadOf, Holds, Lawful, StandAll, Stands, RefsRead, Readable,
         Reread, ReadableFrom, FirstEntries,
         KeysStand, LeafBytes, ValuesOf, KeysOf, Need, ReadAt;
    HoldsBasics(f, objects);
    var n, values := |KeysOf(E, v)|, ValuesOf(E, v);
    var at := DictRecordReadsBack(E, f, objects, v, base, depth, budget);
    assert values[0..] == values && Count(base, n)[0..] == Count(base, n);
    AllEntries(E, v);
    PairsReadBack(E, f, objects, v, base, 0, base + n, at, depth, budget - 1);
    DictReadable(E, v, depth);
  }

  lemma AllEntries(E: Env, v: Value)
    requires Lawful(E) && v.Dict?
    ensures FirstEntries(E, v, 0) == map[] && Dict(FirstEntries(E, v, |KeysOf(E, v)|)) == Reread(E, v)
  {
    hide Lawful;
  }

  /** The keys entered are those recoded so far. */
  lemma {:induction false} EntryKeys(E: Env, v: Value, i: nat, key: seq<Byte>)
    requires Lawful(E) && v.Dict? && i <= |KeysOf(E, v)|
    ensures key in FirstEntries(E, v, i) <==> exists j :: 0 <= j < i && Recoded(E, KeysOf(E, v)[j]) == key
  {
    hide Recoded, Reread, KeysOf, ValuesOf, Lawful;
    if i > 0 {
      EntryKeys(E, v, i - 1, key);
      if Recoded(E, KeysOf(E, v)[i - 1]) != key && key in FirstEntries(E, v, i) {
        assert key in FirstEntries(E, v, i - 1);
      }
    }
  }

  /** The k-th key, recoded, is not one of those before it. */
  ghost predicate Fresh(E: Env, keys: seq<seq<Byte>>, k: nat)
    requires k < |keys|
  {
    forall j | 0 <= j < k :: Recoded(E, keys[j]) != Recoded(E, keys[k])
  }

  lemma ApartIsFresh(E: Env, keys: set<seq<Byte>>, list: seq<seq<Byte>>)
    requires ListsOnce(list, keys)
    ensures Apart(E, keys) <==> forall k | 0 <= k < |list| :: Fresh(E, list, k)
  {
    hide Recoded;
    if forall k | 0 <= k < |list| :: Fresh(E, list, k) {
      forall a, b | a in keys && b in keys && Recoded(E, a) == Recoded(E, b) ensures a == b {
        assert a in list && b in list;
        var i :| 0 <= i < |list| && list[i] == a;
        var j :| 0 <= j < |list| && list[j] == b;
        assert Fresh(E, list, i) && Fresh(E, list, j);
      }
    }
  }

  lemma DictReadable(E: Env, v: Value, depth: nat)
    requires Lawful(E) && v.Dict? && depth <= MAX_DEPTH
    ensures Readable(E, v, depth) <==> ReadableFrom(E, v, 0, depth)
  {
    hide Readable, Fresh, Apart, Recoded;
    var keys, values := KeysOf(E, v), ValuesOf(E, v);
    assert ListsOnce(keys, v.m.Keys);
    ReadableDict(E, v, depth);
    ApartIsFresh(E, v.m.Keys, keys);
    if ReadableFrom(E, v, 0, depth) {
      forall k | k in v.m ensures Readable(E, v.m[k], depth + 1) {
        assert k in keys;
        var i :| 0 <= i < |keys| && keys[i] == k;
        assert values[i] == v.m[k];
      }
    } else if |keys| > 0 {
      assert keys[0] in keys && keys[0] in v.m;
      if i :| 0 <= i < |keys| && !Readable(E, values[i], depth + 1) { assert keys[i] in v.m; }
    }
    if v.m != map[] {
      var k :| k in v.m;
      assert k in keys;
    }
  }

  lemma ReadableDict(E: Env, v: Value, depth: nat)
    requires v.Dict?
    ensures Readable(E, v, depth) <==>
            depth <= MAX_DEPTH && Apart(E, v.m.Keys)
                && (v.m != map[] ==> depth < MAX_DEPTH && forall k | k in v.m :: Readable(E, v.m[k], depth + 1))
  {
    hide Apart;
  }

  /** Nothing from the i-th key on keeps the dictionary from being read. */
  ghost predicate ReadableFrom(E: Env, v: Value, i: nat, depth: nat)
    requires Lawful(E) && v.Dict? && i <= |KeysOf(E, v)|
  {
    && (i < |KeysOf(E, v)| ==> depth < MAX_DEPTH)
    && forall k | i <= k < |KeysOf(E, v)| :: Fresh(E, KeysOf(E, v), k) && Readable(E, ValuesOf(E, v)[k], depth + 1)
  }

  lemma {:induction false} PairsReadBack(E: Env, f: File, objects: seq<seq<Byte>>, v: Value, base: nat, i: nat,
          next: nat, at: nat, depth: nat, budget: int)
    requires Lawful(E) && Holds(f, objects) && v.Dict? && i <= |KeysOf(E, v)|
    requires KeysStand(E, objects, v, base) && |objects| <= MAX_OBJECTS
    requires StandAll(E, objects, v, ValuesOf(E, v)[i..], next)
    requires RefsRead(f.b, at, i, Count(base, |KeysOf(E, v)|)[i..])
    requires RefsRead(f.b, at, |KeysOf(E, v)| + i, IdsOf(E, v, ValuesOf(E, v)[i..], next))
    requires budget >= |KeysOf(E, v)| - i + |ObjectsOf(E, v, ValuesOf(E, v)[i..], next)| && depth <= MAX_DEPTH
    ensures var n := |KeysOf(E, v)|;
            Outcome(ParsePairs(E, f, at, i, n, FirstEntries(E, v, i), depth, budget), ReadableFrom(E, v, i, depth),
                    FirstEntries(E, v, n), budget - (n - i) - |ObjectsOf(E, v, ValuesOf(E, v)[i..], next)|)
    decreases v, 0, |KeysOf(E, v)| - i
  {
    hide Parse, HeadOf, ReadLeaf, Objects, ObjectsOf, IdsOf, Holds, ReadAt, Reread, Readable, ReadableFrom, StandAll,
         Stands, FirstEntries, RefsRead, LeafBytes, ParsePairs, Lawful, KeysStand, KeysOf, ValuesOf, Recoded, Fresh,
             Need;
    HoldsBasics(f, objects);
    var keys, values := KeysOf(E, v), ValuesOf(E, v);
    var n, m := |keys|, FirstEntries(E, v, i);
    if i == n {
      NoObjects(E, v, next);
      assert values[i..] == [];
      PairsDone(E, f, v, at, m, depth, budget);
    } else {
      var key, suffix := keys[i], values[i..];
      KeyStands(E, objects, v, base, i);
      KeyReadBack(E, f, objects, base + i, key, depth, budget);
      RefsTail(f.b, at, i, Count(base, n)[i..]);
      assert ParseChild(E, f, at, i, depth, budget) == Parse(E, f, base + i, depth + 1, budget);
      ReadableFromNext(E, v, i, depth);
      FirstEntriesNext(E, v, i);
      EntryFresh(E, v, i);
      PairStep(E, f, at, i, n, m, depth, budget, Recoded(E, key));
      if depth < MAX_DEPTH && Fresh(E, keys, i) {
        StandSplit(E, objects, v, suffix, next);
        var k := |Objects(E, suffix[0], next)|;
        assert suffix[0] == values[i] && suffix[1..] == values[i + 1..];
        RefsTail(f.b, at, n + i, IdsOf(E, v, suffix, next));
        assert ParseChild(E, f, at, i + n, depth, budget - 1) == Parse(E, f, next + k - 1, depth + 1, budget - 1);
        ParseReadsBack(E, f, objects, values[i], next, depth + 1, budget - 1);
        if Readable(E, values[i], depth + 1) {
          assert Count(base, n)[i..][1..] == Count(base, n)[i + 1..];
          PairsReadBack(E, f, objects, v, base, i + 1, next + k, at, depth, budget - 1 - k);
        }
      }
    }
  }

  /** A key is already entered exactly when it is not fresh. */
  lemma EntryFresh(E: Env, v: Value, i: nat)
    requires Lawful(E) && v.Dict? && i < |KeysOf(E, v)|
    ensures Recoded(E, KeysOf(E, v)[i]) in FirstEntries(E, v, i) <==> !Fresh(E, KeysOf(E, v), i)
  {
    hide Lawful, Recoded, FirstEntries, KeysOf;
    EntryKeys(E, v, i, Recoded(E, KeysOf(E, v)[i]));
  }

  lemma KeyStands(E: Env, objects: seq<seq<Byte>>, v: Value, base: nat, i: nat)
    requires v.Dict? && KeysStand(E, objects, v, base) && i < |KeysOf(E, v)|
    ensures base + i < |objects| && objects[base + i] == LeafBytes(E, Text(KeysOf(E, v)[i]))
  {
    hide LeafBytes, KeysOf;
  }

  lemma PairsDone(E: Env, f: File, v: Value, at: nat, m: map<seq<Byte>, Value>, depth: nat, budget: int)
    requires Lawful(E) && v.Dict? && Sound(f) && depth <= MAX_DEPTH
    ensures var n := |KeysOf(E, v)|;
            ParsePairs(E, f, at, n, n, m, depth, budget) == (Ok(m), budget) && ReadableFrom(E, v, n, depth)
  {
    hide ParseChild, Lawful;
  }

  /** One round of the loop over a dictionary's entries. */
  lemma PairStep(E: Env, f: File, at: nat, i: nat, count: nat, m: map<seq<Byte>, Value>, depth: nat, budget: int,
          key: seq<Byte>)
    requires Sound(f) && depth <= MAX_DEPTH && i < count
    ensures ParseChild(E, f, at, i, depth, budget).0.Bad? ==> ParsePairs(E, f, at, i, count, m, depth, budget).0.Bad?
    ensures ParseChild(E, f, at, i, depth, budget).0 == Ok(Text(key)) && key in m ==>
            ParsePairs(E, f, at, i, count, m, depth, budget).0.Bad?
    ensures ParseChild(E, f, at, i, depth, budget).0 == Ok(Text(key)) && key !in m ==>
              var (v, rest) := ParseChild(E, f, at, i + count, depth, ParseChild(E, f, at, i, depth, budget).1);
              ParsePairs(E, f, at, i, count, m, depth, budget) ==
              if v.Bad? then (Bad, rest) else ParsePairs(E, f, at, i + 1, count, m[key := v.value], depth, rest)
  {
    hide ParseChild;
  }

  lemma ReadableFromNext(E: Env, v: Value, i: nat, depth: nat)
    requires Lawful(E) && v.Dict? && i < |KeysOf(E, v)|
    ensures ReadableFrom(E, v, i, depth) <==>
            depth < MAX_DEPTH && Fresh(E, KeysOf(E, v), i) && Readable(E, ValuesOf(E, v)[i], depth + 1)
                && ReadableFrom(E, v, i + 1, depth)
  {
    hide Readable, Fresh, Lawful;
  }

  /** A key is parsed like any string, one level below its dictionary. */
  lemma KeyReadBack(E: Env, f: File, objects: seq<seq<Byte>>, id: nat, key: seq<Byte>, depth: nat, budget: int)
    requires Lawful(E) && Holds(f, objects) && id < |objects| && budget > 0
    requires objects[id] == LeafBytes(E, Text(key))
    ensures Parse(E, f, id, depth + 1, budget) ==
            if depth < MAX_DEPTH then (Ok(Text(Recoded(E, key))), budget - 1) else (Bad, budget - 1)
  {
    hide HeadOf, ReadLeaf, LeafBytes, ParseItems, ParsePairs, Lawful, Holds;
    HoldsBasics(f, objects);
    LeafReadBack(E, f, objects, id, Text(key));
  }

  lemma FirstEntriesNext(E: Env, v: Value, i: nat)
    requires Lawful(E) && v.Dict? && i < |KeysOf(E, v)|
    ensures FirstEntries(E, v, i + 1) ==
            FirstEntries(E, v, i)[Recoded(E, KeysOf(E, v)[i]) := Reread(E, ValuesOf(E, v)[i])]
  {
    hide Lawful, Recoded, Reread;
  }

  lemma TooLongToOpen(b: seq<Byte>)
    requires |b| > MAX_BYTES
    ensures Open(b).Bad?
  {
    hide Number;
  }

  /** A whole file of objects in place is parsed from its last object. */
  lemma {:induction false} DecodeReadsBack(E: Env, v: Value, f: File, o: seq<seq<Byte>>)
    requires Lawful(E) && o == Objects(E, v, 0) && Holds(f, o) && |o| <= MAX_OBJECTS
    ensures Outcome(Parse(E, f, |o| - 1, 0, MAX_OBJECTS), Readable(E, v, 0), Reread(E, v), MAX_OBJECTS - |o|)
  {
    hide Objects, Holds, Readable, Parse, Lawful, Reread, Outcome;
    assert o[0..0 + |o|] == o;
    ParseReadsBack(E, f, o, v, 0, 0, MAX_OBJECTS);
  }

  /** Within 2 MiB, 65,536 objects and 32 levels. */
  ghost predicate WithinLimits(E: Env, v: Value)
    requires Lawful(E)
  {
    |Encode(E, v)| <= MAX_BYTES && |Objects(E, v, 0)| <= MAX_OBJECTS && Fits(v, 0)
  }

  /**
   The decoder on any encoded value: within the limits it returns the value reread, unless
   recoding makes two keys of a dictionary the same; past any limit it reports an error.
   */
  lemma {:induction false} DecodeEncoded(E: Env, v: Value)
    requires Lawful(E)
    ensures Decode(E, Encode(E, v)) == if WithinLimits(E, v) && KeysApart(E, v) then Ok(Reread(E, v)) else Bad
  {
    hide Objects, Holds, Fits, KeysApart, Readable, Parse, Lawful, Reread, Open, FileOf, Flatten, Sound;
    ReadableIs(E, v, 0);
    var o := Objects(E, v, 0);
    if |Encode(E, v)| > MAX_BYTES {
      TooLongToOpen(Encode(E, v));
    } else {
      FileOpens(o);
      FileHolds(o);
      if |o| <= MAX_OBJECTS {
        DecodeReadsBack(E, v, File(FileOf(o), 8, 8, |o|, 8 + |Flatten(o)|), o);
      }
    }
  }

  /******* How texts are written *******/

  /** A text of ASCII is written byte by byte, any other in UTF-16; lengths from 15 on take nine more bytes. */
  lemma TextForm(E: Env, s: seq<Byte>)
    ensures LeafBytes(E, Text(s))[0] / 16 == if forall i | 0 <= i < |E.runes(s)| :: E.runes(s)[i] < 0x80 then 5 else 6
    ensures (forall i | 0 <= i < |E.runes(s)| :: E.runes(s)[i] < 0x80) ==>
              LeafBytes(E, Text(s)) ==
              (if |s| < 15 then [0x50 + |s|] else [0x5F, 0x13] + BigEndian(|s|, 8)) + s
  {
    hide BigEndian, Utf16, Units;
  }

  /** A file begins with the magic; its trailer says that offsets and references take eight bytes each. */
  lemma FileForm(objects: seq<seq<Byte>>)
    requires |objects| > 0
    ensures var b := FileOf(objects);
            && |b| == 40 + |Flatten(objects)| + 8 * |objects|
            && b[..8] == [0x62, 0x70, 0x6C, 0x69, 0x73, 0x74, 0x30, 0x30]
            && b[|b| - 32..|b| - 24] == [0, 0, 0, 0, 0, 0, 8, 8]
  {
    hide BigEndian, Flatten, Refs, Offsets, FrontOf;
    var front, tail := FrontOf(objects), Trailer(|objects|, |objects| - 1, 8 + |Flatten(objects)|);
    assert tail[..8] == [0, 0, 0, 0, 0, 0, 8, 8];
    assert FileOf(objects)[|front|..|front| + 8] == tail[..8];
  }

  /** Scalar values are the code points that are no surrogates. */
  lemma ScalarMeans(r: int)
    ensures Scalar(r) <==> 0 <= r <= 0x10FFFF && !(0xD800 <= r <= 0xDFFF)
  {}

  /******* Which values come back *******/

  /** UTF-8 keeps scalar values apart: decoding what was encoded gives them back. */
  ghost predicate DecodesRunes(E: Env) { forall r | Scalars(r) :: E.runes(E.utf8(r)) == r }

  /** A text recoded once does not change any more. */
  lemma RecodedTwice(E: Env, s: seq<Byte>)
    requires Lawful(E) && DecodesRunes(E)
    ensures Recoded(E, Recoded(E, s)) == Recoded(E, s)
  {
    assert Scalars(E.runes(s));
  }

  /** The entries of a dictionary whose keys stay apart, key by key. */
  lemma {:induction false} EntryUnder(E: Env, v: Value, i: nat, j: nat)
    requires Lawful(E) && v.Dict? && j < i <= |KeysOf(E, v)| && forall k | 0 <= k < |KeysOf(E, v)| ::
             Fresh(E, KeysOf(E, v), k)
    ensures var key := Recoded(E, KeysOf(E, v)[j]);
            key in FirstEntries(E, v, i) && FirstEntries(E, v, i)[key] == Reread(E, ValuesOf(E, v)[j])
  {
    hide Lawful, Recoded, Reread, KeysOf, ValuesOf;
    assert Fresh(E, KeysOf(E, v), i - 1);
    if j < i - 1 { EntryUnder(E, v, i - 1, j); }
  }

  ghost predicate FromKey(E: Env, v: Value, key: seq<Byte>)
    requires v.Dict?
  {
    exists k :: k in v.m && Recoded(E, k) == key
  }

  /** The entries of a dictionary, each under its key recoded. */
  ghost predicate Entries(E: Env, v: Value, m: map<seq<Byte>, Value>)
    requires Lawful(E) && v.Dict?
  {
    && (forall k | k in v.m :: Recoded(E, k) in m && m[Recoded(E, k)] == Reread(E, v.m[k]))
    && (forall key | key in m :: FromKey(E, v, key))
  }

  lemma {:induction false} EntriesOf(E: Env, v: Value)
    requires Lawful(E) && v.Dict? && Apart(E, v.m.Keys)
    ensures Entries(E, v, FirstEntries(E, v, |KeysOf(E, v)|))
  {
    var keys, n := KeysOf(E, v), |KeysOf(E, v)|;
    var m := FirstEntries(E, v, n);
    assert ListsOnce(keys, v.m.Keys);
    ApartIsFresh(E, v.m.Keys, keys);
    hide Reread, Recoded, Lawful, FirstEntries, Apart, KeysOf, Fresh;
    forall k | k in v.m ensures Recoded(E, k) in m && m[Recoded(E, k)] == Reread(E, v.m[k]) {
      assert k in keys;
      var j :| 0 <= j < n && keys[j] == k;
      EntryUnder(E, v, n, j);
    }
    forall key | key in m ensures FromKey(E, v, key) {
      EntryKeys(E, v, n, key);
      var j :| 0 <= j < n && Recoded(E, keys[j]) == key;
      assert keys[j] in v.m;
    }
  }

  lemma DictIs(E: Env, v: Value)
    requires Lawful(E) && v.Dict?
    ensures Reread(E, v) == Dict(FirstEntries(E, v, |KeysOf(E, v)|))
    ensures Normal(v).Dict? && Normal(v).m.Keys == v.m.Keys && forall k | k in v.m :: Normal(v).m[k] == Normal(v.m[k])
  {
    hide FirstEntries, Recoded;
  }

  /** A dictionary comes back as it was exactly when its keys and its values do. */
  lemma {:induction false} DictComesBack(E: Env, v: Value)
    requires Lawful(E) && DecodesRunes(E) && v.Dict? && Apart(E, v.m.Keys)
    ensures Reread(E, v) == Normal(v) <==>
            forall k | k in v.m :: Recoded(E, k) == k && Reread(E, v.m[k]) == Normal(v.m[k])
  {
    hide *;
    var m := FirstEntries(E, v, |KeysOf(E, v)|);
    DictIs(E, v);
    EntriesOf(E, v);
    if Reread(E, v) == Normal(v) {
      forall k | k in v.m
        ensures Recoded(E, k) == k && Reread(E, v.m[k]) == Normal(v.m[k])
      {
        KeyComesBack(E, v, m, k);
      }
    } else if forall k | k in v.m :: Recoded(E, k) == k && Reread(E, v.m[k]) == Normal(v.m[k]) {
      SameEntries(E, v, m, Normal(v).m);
    }
  }

  lemma KeyComesBack(E: Env, v: Value, m: map<seq<Byte>, Value>, k: seq<Byte>)
    requires Lawful(E) && DecodesRunes(E) && v.Dict? && k in v.m && m.Keys == v.m.Keys
    requires m[k] == Normal(v.m[k]) && Entries(E, v, m)
    ensures Recoded(E, k) == k && Reread(E, v.m[k]) == Normal(v.m[k])
  {
    hide Reread, Normal, Recoded, Lawful, DecodesRunes;
    assert FromKey(E, v, k);
    var j :| j in v.m && Recoded(E, j) == k;
    RecodedTwice(E, j);
  }

  lemma SameEntries(E: Env, v: Value, m: map<seq<Byte>, Value>, n: map<seq<Byte>, Value>)
    requires Lawful(E) && v.Dict? && Entries(E, v, m)
    requires n.Keys == v.m.Keys && forall k | k in v.m :: n[k] == Normal(v.m[k])
    requires forall k | k in v.m :: Recoded(E, k) == k && Reread(E, v.m[k]) == Normal(v.m[k])
    ensures m == n
  {
    hide Reread, Normal, Recoded, Lawful;
    forall k | k in m ensures k in n { assert FromKey(E, v, k); }
  }

  /** Reading keeps keys apart and changes nothing exactly when every text is one that recoding leaves alone. */
  lemma {:induction false} UnchangedExactly(E: Env, v: Value)
    requires Lawful(E) && DecodesRunes(E)
    ensures KeysApart(E, v) && Reread(E, v) == Normal(v) <==> ValidText(E, v)
    decreases v
  {
    hide Recoded, Lawful, DecodesRunes, FirstEntries;
    match v
    case Array(items) =>
      forall i | 0 <= i < |items|
        ensures KeysApart(E, items[i]) && Reread(E, items[i]) == Normal(items[i]) <==> ValidText(E, items[i])
      {
        UnchangedExactly(E, items[i]);
      }
      ArrayComesBack(E, v);
    case Dict(m) =>
      forall k | k in m ensures KeysApart(E, m[k]) && Reread(E, m[k]) == Normal(m[k]) <==> ValidText(E, m[k]) {
        UnchangedExactly(E, m[k]);
      }
      if Apart(E, m.Keys) { DictComesBack(E, v); }
    case _ =>
  }

  lemma ArrayComesBack(E: Env, v: Value)
    requires Lawful(E) && v.Array?
    ensures Reread(E, v) == Normal(v) <==> forall i | 0 <= i < |v.items| :: Reread(E, v.items[i]) == Normal(v.items[i])
  {
    hide Recoded, Lawful, FirstEntries;
    var a, b := Reread(E, v).items, Normal(v).items;
    assert forall i | 0 <= i < |v.items| :: a[i] == Reread(E, v.items[i]) && b[i] == Normal(v.items[i]);
  }

  /**
   The decoder undoes the encoder, up to the sign of integers, exactly for the values within
   its limits all of whose texts are ASCII or valid UTF-8.
   */
  lemma RoundTrip(E: Env, v: Value)
    requires Lawful(E) && DecodesRunes(E)
    ensures Decode(E, Encode(E, v)) == Ok(Normal(v)) <==> WithinLimits(E, v) && ValidText(E, v)
    ensures !WithinLimits(E, v) ==> Decode(E, Encode(E, v)).Bad?
  {
    hide Normal, Reread, KeysApart, ValidText, WithinLimits, Lawful, DecodesRunes;
    DecodeEncoded(E, v);
    UnchangedExactly(E, v);
  }

  /******* Texts that do not come back *******/

  /** The two bytes FF and FE are no UTF-8; either is read as the replacement character. */
  ghost predicate ReplacesInvalid(E: Env) {
    E.runes([0xFF]) == [0xFFFD] && E.runes([0xFE]) == [0xFFFD] && E.utf8([0xFFFD]) == [0xEF, 0xBF, 0xBD]
  }

  lemma InvalidRecoded(E: Env, s: seq<Byte>)
    requires ReplacesInvalid(E) && (s == [0xFF] || s == [0xFE])
    ensures Recoded(E, s) == [0xEF, 0xBF, 0xBD] && |LeafBytes(E, Text(s))| == 3
  {
    assert E.runes(s)[0] == 0xFFFD;
    hide BigEndian;
    assert Utf16([0xFFFD]) == [0xFFFD];
  }

  lemma FileSize(objects: seq<seq<Byte>>)
    requires |objects| > 0
    ensures |FileOf(objects)| == 40 + |Flatten(objects)| + 8 * |objects|
  {
    hide FrontOf, Trailer, Flatten;
  }

  /** The text FF comes back as the three bytes of the replacement character. */
  lemma InvalidTextChanges(E: Env)
    requires Lawful(E) && ReplacesInvalid(E)
    ensures Decode(E, Encode(E, Text([0xFF]))) == Ok(Text([0xEF, 0xBF, 0xBD]))
  {
    hide Lawful, FileOf, Decode, Recoded, LeafBytes, ReplacesInvalid;
    var v := Text([0xFF]);
    InvalidRecoded(E, v.s);
    var o := Objects(E, v, 0);
    assert o == [LeafBytes(E, v)] && o[1..] == [];
    FileSize(o);
    DecodeEncoded(E, v);
  }

  /** Under FF and FE a dictionary has one key too many: it is written, and cannot be read. */
  function TwoInvalidKeys(): Value { Dict(map[[0xFF] := Boolean(true), [0xFE] := Boolean(false)]) }

  lemma {:induction false} TwoBooleans(E: Env, v: Value, values: seq<Value>, base: nat)
    requires Lawful(E) && |values| == 2 && forall i | 0 <= i < 2 :: values[i] < v && values[i].Boolean?
    ensures var o := ObjectsOf(E, v, values, base); |o| == 2 && |o[0]| == 1 && |o[1]| == 1
  {
    hide Lawful;
    ObjectsCons(E, v, values, base);
    ObjectsCons(E, v, values[1..], base + 1);
    ObjectsNil(E, v, base + 2);
    assert values[1..][1..] == [];
  }

  lemma FiveObjects(o: seq<seq<Byte>>)
    requires |o| == 5
    ensures |Flatten(o)| == |o[0]| + |o[1]| + |o[2]| + |o[3]| + |o[4]|
  {
    assert o[1..][1..] == o[2..] && o[2..][1..] == o[3..] && o[3..][1..] == o[4..] && o[4..][1..] == [];
    assert Flatten(o[3..]) == o[3] + Flatten(o[4..]) && Flatten(o[4..]) == o[4] + Flatten([]);
    assert Flatten(o[1..]) == o[1] + Flatten(o[2..]) && Flatten(o[2..]) == o[2] + Flatten(o[3..]);
  }

  lemma {:induction false} InvalidKeysFit(E: Env)
    requires Lawful(E) && ReplacesInvalid(E)
    ensures WithinLimits(E, TwoInvalidKeys())
  {
    hide Lawful, ReplacesInvalid, FileOf, LeafBytes, Recoded, ObjectsOf, Objects, IdsOf, Flatten, Length, Refs;
    var v := TwoInvalidKeys();
    TwoKeys(E);
    var keys, o := KeysOf(E, v), Objects(E, v, 0);
    InvalidRecoded(E, keys[0]);
    InvalidRecoded(E, keys[1]);
    TwoBooleans(E, v, ValuesOf(E, v), 2);
    DictObjects(E, v, 0);
    assert |Length(0xD0, 2)| == 1 by { ShortLength(); }
    FiveObjects(o);
    FileSize(o);
  }

  lemma ShortLength()
    ensures |Length(0xD0, 2)| == 1
  {}

  lemma TwoKeys(E: Env)
    requires Lawful(E)
    ensures var v := TwoInvalidKeys();
            var keys := KeysOf(E, v);
            && |keys| == 2 && (forall i | 0 <= i < 2 :: keys[i] == [0xFF] || keys[i] == [0xFE])
            && (forall i | 0 <= i < 2 :: ValuesOf(E, v)[i].Boolean?)
    ensures Fits(TwoInvalidKeys(), 0)
  {
    var v := TwoInvalidKeys();
    var a: seq<Byte>, b: seq<Byte> := [0xFF], [0xFE];
    assert a[0] != b[0];
    assert v.m.Keys == {a, b};
    assert ListsOnce(KeysOf(E, v), v.m.Keys);
  }

  lemma InvalidKeysCollide(E: Env)
    requires Lawful(E) && ReplacesInvalid(E)
    ensures WithinLimits(E, TwoInvalidKeys()) && Decode(E, Encode(E, TwoInvalidKeys())).Bad?
  {
    hide Lawful, WithinLimits, Decode, Encode, Recoded, ReplacesInvalid, Reread;
    var v := TwoInvalidKeys();
    var a: seq<Byte>, b: seq<Byte> := [0xFF], [0xFE];
    InvalidKeysFit(E);
    InvalidRecoded(E, a);
    InvalidRecoded(E, b);
    assert a[0] != b[0] && a in v.m && b in v.m;
    DecodeEncoded(E, v);
  }
}
