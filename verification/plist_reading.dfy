/**
 What unplist makes of any file (internal/airplay/plist.go): when an object of a property list
 stands for a value, in every width of integers, offsets and references, and that exactly
 these values are read, within the decoder's limits.
 */
module PlistReading {
  import opened Collections
  import opened Wrappers
  import opened ByteOrder
  import opened Plist

  /** An object, and the objects its references lead to in their order. */
  datatype Reading = Reading(id: nat, parts: seq<Reading>)

  /** The objects visited, one for each reference that is followed. */
  function Size(r: Reading): nat { 1 + SizeOf(r.parts) }

  function SizeOf(parts: seq<Reading>): nat { if parts == [] then 0 else Size(parts[0]) + SizeOf(parts[1..]) }

  /** Nothing stands more than 32 levels below the root. */
  predicate Within(r: Reading, depth: nat) {
    depth <= 32 && forall i | 0 <= i < |r.parts| :: Within(r.parts[i], depth + 1)
  }

  /** The object's place in the file, from the offset table. */
  function Place(f: File, id: nat): nat
    requires Sound(f) && id < f.n
  {
    assert id * f.os + f.os <= f.n * f.os by { Fits(id, f.n, f.os); }
    Number(f.b[f.table + id * f.os..f.table + id * f.os + f.os])
  }

  lemma Fits(id: nat, n: nat, size: nat)
    requires id < n
    ensures id * size + size <= n * size
  {
    assert (id + 1) * size <= n * size;
  }

  /** Where the payload starts: behind the tag, or behind the integer that holds the length. */
  function Payload(f: File, p: nat): nat
    requires Sound(f) && p < f.table
  {
    if f.b[p] % 16 < 15 then p + 1
    else if f.b[p + 1] == 0x10 then p + 3
    else if f.b[p + 1] == 0x11 then p + 4
    else if f.b[p + 1] == 0x12 then p + 6
    else p + 10
  }

  /** A tag of this kind, with its length in the low nibble or in an integer of 1, 2, 4 or 8 bytes. */
  predicate Tagged(f: File, p: nat, kind: nat)
    requires Sound(f) && p < f.table
  {
    && f.b[p] / 16 == kind
    && (f.b[p] % 16 == 15 ==> p + 1 < f.table && 0x10 <= f.b[p + 1] <= 0x13 && Payload(f, p) <= |f.b|)
  }

  function Extent(f: File, p: nat): nat
    requires Sound(f) && p < f.table
  {
    if f.b[p] % 16 < 15 then f.b[p] % 16
    else if Payload(f, p) > |f.b| then 0
    else Number(f.b[p + 2..Payload(f, p)])
  }

  /** A fixed-width number behind its tag. */
  predicate Fixed(f: File, p: nat, tag: Byte, size: nat, u: int)
    requires Sound(f) && p < f.table
  {
    f.b[p] == tag && p + 1 + size <= f.table && Number(f.b[p + 1..p + 1 + size]) == u
  }

  /** So many items of this width behind a tag of this kind. */
  predicate Sequence(f: File, p: nat, kind: nat, width: nat)
    requires Sound(f) && p < f.table
  {
    Tagged(f, p, kind) && Payload(f, p) + Extent(f, p) * width <= f.table
  }

  function UnitAt(f: File, at: nat, i: nat): int
    requires at + 2 * i + 1 < |f.b|
  {
    (f.b[at + 2 * i] as int) * 256 + f.b[at + 2 * i + 1]
  }

  /** The big-endian 16-bit units behind a tag. */
  function UnitsAt(f: File, at: nat, n: nat): seq<int>
    requires at + 2 * n <= |f.b|
  {
    seq(n, i requires 0 <= i < n => UnitAt(f, at, i))
  }

  /** The i-th reference is this number. */
  predicate RefersTo(f: File, at: nat, i: nat, id: nat)
  {
    at + i * f.rs + f.rs <= |f.b| && Number(f.b[at + i * f.rs..at + i * f.rs + f.rs]) == id
  }

  predicate TextStands(E: Env, f: File, p: nat, s: seq<Byte>)
    requires Sound(f) && p < f.table
  {
    || (Sequence(f, p, 5, 1) && |s| == Extent(f, p) && s == f.b[Payload(f, p)..Payload(f, p) + |s|])
    || (Sequence(f, p, 6, 2) && s == E.utf8(FromUtf16(UnitsAt(f, Payload(f, p), Extent(f, p)))))
  }

  /** The object stands for the value, and so do those it refers to for its parts. */
  ghost predicate Stands(E: Env, f: File, r: Reading, v: Value)
    requires Sound(f)
    decreases r, 2
  {
    r.id < f.n && 8 <= Place(f, r.id) < f.table &&
    var p := Place(f, r.id);
    match v
    case Boolean(yes) => r.parts == [] && f.b[p] == if yes then 9 else 8
    case Uint(u) =>
      r.parts == []
      && (Fixed(f, p, 0x10, 1, u) || Fixed(f, p, 0x11, 2, u) || Fixed(f, p, 0x12, 4, u) || Fixed(f, p, 0x13, 8, u))
    case Float(bits) => r.parts == [] && Fixed(f, p, 0x23, 8, bits)
    case Bytes(b) =>
      r.parts == [] && Sequence(f, p, 4, 1) && |b| == Extent(f, p) && b == f.b[Payload(f, p)..Payload(f, p) + |b|]
    case Text(s) => r.parts == [] && TextStands(E, f, p, s)
    case Array(items) =>
      && Sequence(f, p, 10, f.rs) && |items| == |r.parts| == Extent(f, p) <= 65536
      && forall i | 0 <= i < |items| ::
         RefersTo(f, Payload(f, p), i, r.parts[i].id) && Stands(E, f, r.parts[i], items[i])
    case Dict(m) =>
      && Sequence(f, p, 13, 2 * f.rs) && Extent(f, p) <= 65536 && |r.parts| == 2 * Extent(f, p)
      && exists keys :: EntriesStand(E, f, r, Payload(f, p), Extent(f, p), keys, m)
    case Int(_) => false
  }

  /** All keys come first, then their values in the same order; no key comes twice. */
  ghost predicate EntriesStand(E: Env, f: File, r: Reading, at: nat, n: nat, keys: seq<seq<Byte>>,
          m: map<seq<Byte>, Value>)
    requires Sound(f) && |r.parts| == 2 * n
    decreases r, 1
  {
    && |keys| == n && Distinct(keys) && (forall k :: k in m <==> k in keys)
    && forall i | 0 <= i < n :: EntryStands(E, f, r, at, n, i, keys[i], m[keys[i]])
  }

  ghost predicate EntryStands(E: Env, f: File, r: Reading, at: nat, n: nat, i: nat, key: seq<Byte>, v: Value)
    requires Sound(f) && |r.parts| == 2 * n && i < n
    decreases r, 0
  {
    && RefersTo(f, at, i, r.parts[i].id) && Stands(E, f, r.parts[i], Text(key))
    && RefersTo(f, at, n + i, r.parts[n + i].id) && Stands(E, f, r.parts[n + i], v)
  }

  /******* Reading one object *******/

  /** The decoder's view of the same header. */
  lemma PlaceRead(f: File, id: nat)
    requires Sound(f) && id < f.n
    ensures ReadAt(f.b, f.table + id * f.os, f.os) == Ok(Place(f, id))
  {
    Fits(id, f.n, f.os);
  }

  lemma HeadRead(f: File, id: nat)
    requires Sound(f) && id < f.n
    ensures HeadOf(f, id).Ok? <==>
            var p := Place(f, id);
            8 <= p < f.table && (f.b[p] / 16 >= 4 ==> Tagged(f, p, f.b[p] / 16))
    ensures HeadOf(f, id).Ok? ==>
              var p, h := Place(f, id), HeadOf(f, id).value;
              && h.kind == f.b[p] / 16 && h.low == f.b[p] % 16
              && (h.kind < 4 ==> h.count == f.b[p] % 16 && h.at == p + 1)
              && (h.kind >= 4 ==> h.at == Payload(f, p) <= |f.b| && h.count == Extent(f, p))
  {
    hide Number, Place;
    PlaceRead(f, id);
  }

  lemma RefRead(f: File, at: nat, i: nat, id: nat)
    requires Sound(f)
    ensures RefersTo(f, at, i, id) <==> ReadAt(f.b, at + i * f.rs, f.rs) == Ok(id)
  {}

  lemma {:induction false} UnitsRead(f: File, at: nat, n: nat)
    requires at + 2 * n <= |f.b|
    ensures UnitsOf(f.b[at..at + 2 * n]) == UnitsAt(f, at, n)
    decreases n
  {
    var raw := f.b[at..at + 2 * n];
    if n == 0 {
      assert raw == [];
    } else {
      UnitsRead(f, at + 2, n - 1);
      assert raw[2..] == f.b[at + 2..at + 2 + 2 * (n - 1)];
      var u := UnitsAt(f, at, n);
      assert u == [UnitAt(f, at, 0)] + u[1..];
      assert u[1..] == UnitsAt(f, at + 2, n - 1) by {
        forall i | 0 <= i < n - 1 ensures u[1..][i] == UnitsAt(f, at + 2, n - 1)[i] {
          assert at + 2 * (i + 1) == at + 2 + 2 * i;
        }
      }
    }
  }

  lemma BooleanRead(E: Env, f: File, id: nat, yes: bool)
    requires Sound(f) && id < f.n && 8 <= Place(f, id) < f.table
    ensures f.b[Place(f, id)] == (if yes then 9 else 8) <==>
            HeadOf(f, id).Ok? && ReadLeaf(E, f, HeadOf(f, id).value) == Ok(Boolean(yes))
  {
    hide HeadOf, Number, Place, FromUtf16, UnitsOf, Payload, Extent;
    HeadRead(f, id);
  }

  lemma NumberRead(E: Env, f: File, id: nat, u: Uint64)
    requires Sound(f) && id < f.n && 8 <= Place(f, id) < f.table
    ensures var p := Place(f, id);
            (Fixed(f, p, 0x10, 1, u) || Fixed(f, p, 0x11, 2, u) || Fixed(f, p, 0x12, 4, u) || Fixed(f, p, 0x13, 8, u))
            <==> HeadOf(f, id).Ok? && ReadLeaf(E, f, HeadOf(f, id).value) == Ok(Uint(u))
    ensures Fixed(f, Place(f, id), 0x23, 8, u) <==>
            HeadOf(f, id).Ok? && ReadLeaf(E, f, HeadOf(f, id).value) == Ok(Float(u))
  {
    hide HeadOf, Number, Place, FromUtf16, UnitsOf, Payload, Extent;
    HeadRead(f, id);
  }

  lemma BytesRead(E: Env, f: File, id: nat, b: seq<Byte>)
    requires Sound(f) && id < f.n && 8 <= Place(f, id) < f.table
    ensures var p := Place(f, id);
            Sequence(f, p, 4, 1) && |b| == Extent(f, p) && b == f.b[Payload(f, p)..Payload(f, p) + |b|] <==>
            HeadOf(f, id).Ok? && ReadLeaf(E, f, HeadOf(f, id).value) == Ok(Bytes(b))
  {
    hide HeadOf, Number, Place, FromUtf16, UnitsOf, Payload, Extent;
    HeadRead(f, id);
  }

  lemma TextRead(E: Env, f: File, id: nat, s: seq<Byte>)
    requires Sound(f) && id < f.n && 8 <= Place(f, id) < f.table
    ensures TextStands(E, f, Place(f, id), s) <==>
            HeadOf(f, id).Ok? && ReadLeaf(E, f, HeadOf(f, id).value) == Ok(Text(s))
  {
    hide HeadOf, Number, Place, FromUtf16, UnitsOf, Payload, Extent, UnitsAt;
    HeadRead(f, id);
    var p := Place(f, id);
    if Tagged(f, p, 6) && Payload(f, p) + Extent(f, p) * 2 <= f.table {
      UnitsRead(f, Payload(f, p), Extent(f, p));
    }
  }

  lemma NoInt(E: Env, f: File, h: Head, n: int)
    requires Sound(f)
    ensures ReadLeaf(E, f, h) != Ok(Int(n))
  {
    hide Number, FromUtf16, UnitsOf;
  }

  /** What a leaf's bytes stand for, kind by kind, is what is read. */
  lemma LeafRead(E: Env, f: File, r: Reading, v: Value)
    requires Sound(f) && r.id < f.n && Leaf(v) && r.parts == []
    ensures Stands(E, f, r, v) <==>
            HeadOf(f, r.id).Ok? && ReadLeaf(E, f, HeadOf(f, r.id).value) == Ok(v)
  {
    hide HeadOf, Place, Sequence, TextStands, Fixed, ReadLeaf, Tagged, Payload, Extent;
    HeadRead(f, r.id);
    if 8 <= Place(f, r.id) < f.table {
      match v
      case Boolean(yes) => BooleanRead(E, f, r.id, yes);
      case Uint(u) => NumberRead(E, f, r.id, u);
      case Float(bits) => NumberRead(E, f, r.id, bits);
      case Bytes(b) => BytesRead(E, f, r.id, b);
      case Text(s) => TextRead(E, f, r.id, s);
      case Int(n) => if HeadOf(f, r.id).Ok? { NoInt(E, f, HeadOf(f, r.id).value, n); }
    }
  }

  /******* What stands for a value is read as it *******/

  lemma {:induction false} SizeSplit(a: seq<Reading>, b: seq<Reading>)
    ensures SizeOf(a + b) == SizeOf(a) + SizeOf(b)
  {
    hide Size;
    if a == [] {
      assert a + b == b;
    } else {
      assert (a + b)[1..] == a[1..] + b;
      SizeSplit(a[1..], b);
    }
  }

  lemma SizeFrom(parts: seq<Reading>, i: nat, n: nat)
    requires i < n <= |parts|
    ensures SizeOf(parts[i..n]) == Size(parts[i]) + SizeOf(parts[i + 1..n])
  {
    hide Size;
    assert parts[i..n][1..] == parts[i + 1..n];
  }

  /** One child, by its reference. */
  lemma ChildRead(E: Env, f: File, at: nat, i: nat, depth: nat, budget: int, r: Reading, v: Value)
    requires Sound(f) && depth <= MAX_DEPTH && RefersTo(f, at, i, r.id)
    requires Parse(E, f, r.id, depth + 1, budget) == (Ok(v), budget - Size(r))
    ensures ParseChild(E, f, at, i, depth, budget) == (Ok(v), budget - Size(r))
  {
    hide Parse, Size, ReadAt, RefersTo;
    RefRead(f, at, i, r.id);
  }

  ghost predicate ItemStands(E: Env, f: File, at: nat, i: nat, r: Reading, v: Value, depth: nat)
    requires Sound(f)
  {
    RefersTo(f, at, i, r.id) && Stands(E, f, r, v) && Within(r, depth)
  }

  lemma {:induction false} ItemsRead(E: Env, f: File, r: Reading, at: nat, i: nat, items: seq<Value>, depth: nat,
          budget: int)
    requires Sound(f) && depth <= MAX_DEPTH && i <= |items| == |r.parts|
    requires forall k | i <= k < |items| :: ItemStands(E, f, at, k, r.parts[k], items[k], depth + 1)
    requires SizeOf(r.parts[i..|items|]) <= budget
    ensures ParseItems(E, f, at, i, |items|, depth, budget) == (Ok(items[i..]), budget - SizeOf(r.parts[i..|items|]))
    decreases r, 0, |items| - i
  {
    hide Stands, Within, RefersTo, Parse, ParseChild, Size;
    if i < |items| {
      SizeFrom(r.parts, i, |items|);
      assert ItemStands(E, f, at, i, r.parts[i], items[i], depth + 1);
      SizeAtLeast(r.parts[i + 1..|items|]);
      StandingIsRead(E, f, r.parts[i], items[i], depth + 1, budget);
      ChildRead(E, f, at, i, depth, budget, r.parts[i], items[i]);
      ItemsRead(E, f, r, at, i + 1, items, depth, budget - Size(r.parts[i]));
      assert items[i..] == [items[i]] + items[i + 1..];
    }
  }

  lemma SizeAtLeast(parts: seq<Reading>)
    ensures SizeOf(parts) >= 0
  {}

  /** The entries under the first i keys. */
  ghost predicate FirstEntries(m: map<seq<Byte>, Value>, keys: seq<seq<Byte>>, i: nat, first: map<seq<Byte>, Value>)
    requires i <= |keys|
  {
    (forall k :: k in first <==> k in keys[..i]) && forall k | k in first :: k in m && first[k] == m[k]
  }

  lemma FirstEntriesNext(m: map<seq<Byte>, Value>, keys: seq<seq<Byte>>, i: nat, first: map<seq<Byte>, Value>)
    requires i < |keys| && FirstEntries(m, keys, i, first) && Distinct(keys) && keys[i] in m
    ensures keys[i] !in first && FirstEntries(m, keys, i + 1, first[keys[i] := m[keys[i]]])
  {
    assert keys[..i + 1] == keys[..i] + [keys[i]];
  }

  lemma PairStep(E: Env, f: File, at: nat, i: nat, n: nat, m: map<seq<Byte>, Value>, depth: nat, budget: int,
          key: seq<Byte>, v: Value, left: int, rest: int)
    requires Sound(f) && depth <= MAX_DEPTH && i < n && key !in m
    requires ParseChild(E, f, at, i, depth, budget) == (Ok(Text(key)), left)
    requires ParseChild(E, f, at, n + i, depth, left) == (Ok(v), rest)
    ensures ParsePairs(E, f, at, i, n, m, depth, budget) == ParsePairs(E, f, at, i + 1, n, m[key := v], depth, rest)
  {
    hide ParseChild;
    assert n + i == i + n;
  }

  /** One entry: its key, then its value with what the key left of the budget. */
  lemma {:induction false} EntryRead(E: Env, f: File, r: Reading, at: nat, i: nat, n: nat, key: seq<Byte>, v: Value,
          depth: nat, budget: int)
    requires Sound(f) && depth <= MAX_DEPTH && |r.parts| == 2 * n && i < n && Within(r, depth)
    requires EntryStands(E, f, r, at, n, i, key, v) && Size(r.parts[i]) + Size(r.parts[n + i]) <= budget
    ensures ParseChild(E, f, at, i, depth, budget) == (Ok(Text(key)), budget - Size(r.parts[i]))
    ensures ParseChild(E, f, at, n + i, depth, budget - Size(r.parts[i])) ==
            (Ok(v), budget - Size(r.parts[i]) - Size(r.parts[n + i]))
    decreases r, 0, 0
  {
    hide Stands, RefersTo, Parse, ParseChild, Size;
    StandingIsRead(E, f, r.parts[i], Text(key), depth + 1, budget);
    ChildRead(E, f, at, i, depth, budget, r.parts[i], Text(key));
    StandingIsRead(E, f, r.parts[n + i], v, depth + 1, budget - Size(r.parts[i]));
    ChildRead(E, f, at, n + i, depth, budget - Size(r.parts[i]), r.parts[n + i], v);
  }

  lemma EntryOf(E: Env, f: File, r: Reading, at: nat, i: nat, n: nat, keys: seq<seq<Byte>>, m: map<seq<Byte>, Value>)
    requires Sound(f) && |r.parts| == 2 * n && i < n && EntriesStand(E, f, r, at, n, keys, m)
    ensures |keys| == n && Distinct(keys) && keys[i] in m && EntryStands(E, f, r, at, n, i, keys[i], m[keys[i]])
  {
    hide EntryStands;
    assert keys[i] in m;
  }

  lemma {:induction false} PairsRead(E: Env, f: File, r: Reading, at: nat, i: nat, n: nat, keys: seq<seq<Byte>>,
          m: map<seq<Byte>, Value>, first: map<seq<Byte>, Value>, depth: nat, budget: int)
    requires Sound(f) && depth <= MAX_DEPTH && |r.parts| == 2 * n && i <= n == |keys| && Within(r, depth)
    requires EntriesStand(E, f, r, at, n, keys, m) && FirstEntries(m, keys, i, first)
    requires SizeOf(r.parts[i..n]) + SizeOf(r.parts[n + i..2 * n]) <= budget
    ensures ParsePairs(E, f, at, i, n, first, depth, budget) ==
            (Ok(m), budget - SizeOf(r.parts[i..n]) - SizeOf(r.parts[n + i..2 * n]))
    decreases r, 0, 1 + n - i
  {
    hide Sound, Within, EntriesStand, EntryStands, Parse, ParseChild, ParsePairs, Size, SizeOf, FirstEntries, Distinct;
    if i < n {
      SizeFrom(r.parts, i, n);
      SizeFrom(r.parts, n + i, 2 * n);
      EntryOf(E, f, r, at, i, n, keys, m);
      EntryRead(E, f, r, at, i, n, keys[i], m[keys[i]], depth, budget);
      FirstEntriesNext(m, keys, i, first);
      var left := budget - Size(r.parts[i]);
      PairStep(E, f, at, i, n, first, depth, budget, keys[i], m[keys[i]], left, left - Size(r.parts[n + i]));
      PairsRead(E, f, r, at, i + 1, n, keys, m, first[keys[i] := m[keys[i]]], depth, left - Size(r.parts[n + i]));
    } else {
      KeysOfEntries(E, f, r, at, n, keys, m);
      AllEntries(m, keys, first);
      assert r.parts[n..n] == [] && r.parts[n + n..2 * n] == [];
      NoSize();
      PairsDone(E, f, at, n, first, depth, budget);
    }
  }

  lemma KeysOfEntries(E: Env, f: File, r: Reading, at: nat, n: nat, keys: seq<seq<Byte>>, m: map<seq<Byte>, Value>)
    requires Sound(f) && |r.parts| == 2 * n && EntriesStand(E, f, r, at, n, keys, m)
    ensures |keys| == n && forall k :: k in m <==> k in keys
  {
    hide EntryStands;
  }

  lemma NoSize()
    ensures SizeOf([]) == 0
  {}

  lemma PairsDone(E: Env, f: File, at: nat, n: nat, m: map<seq<Byte>, Value>, depth: nat, budget: int)
    requires Sound(f) && depth <= MAX_DEPTH
    ensures ParsePairs(E, f, at, n, n, m, depth, budget) == (Ok(m), budget)
  {}

  lemma AllEntries(m: map<seq<Byte>, Value>, keys: seq<seq<Byte>>, first: map<seq<Byte>, Value>)
    requires FirstEntries(m, keys, |keys|, first) && forall k :: k in m <==> k in keys
    ensures first == m
  {
    assert keys[..|keys|] == keys;
  }

  lemma ParseIs(E: Env, f: File, id: nat, depth: nat, budget: int, h: Head)
    requires Sound(f) && id < f.n && depth <= MAX_DEPTH && budget > 0 && HeadOf(f, id) == Ok(h)
    ensures h.kind != 10 && h.kind != 13 ==> Parse(E, f, id, depth, budget) == (ReadLeaf(E, f, h), budget - 1)
    ensures h.kind == 10 && h.count <= MAX_OBJECTS && Need(f, h.at, Span(h.count, f.rs)) ==>
              var (items, rest) := ParseItems(E, f, h.at, 0, h.count, depth, budget - 1);
              Parse(E, f, id, depth, budget) == (if items.Bad? then Bad else Ok(Array(items.value)), rest)
    ensures h.kind == 13 && h.count <= MAX_OBJECTS && Need(f, h.at, Span(2 * h.count, f.rs)) ==>
              var (m, rest) := ParsePairs(E, f, h.at, 0, h.count, map[], depth, budget - 1);
              Parse(E, f, id, depth, budget) == (if m.Bad? then Bad else Ok(Dict(m.value)), rest)
    ensures (h.kind == 10 && !(h.count <= MAX_OBJECTS && Need(f, h.at, Span(h.count, f.rs))))
            || (h.kind == 13 && !(h.count <= MAX_OBJECTS && Need(f, h.at, Span(2 * h.count, f.rs)))) ==>
              Parse(E, f, id, depth, budget).0.Bad?
  {
    hide HeadOf, ReadLeaf, ParseItems, ParsePairs, Need, Span;
  }

  /** The header of an object that stands for a list. */
  lemma ListHead(f: File, id: nat, kind: nat, width: nat)
    requires Sound(f) && id < f.n && 8 <= Place(f, id) < f.table && Sequence(f, Place(f, id), kind, width)
    requires kind >= 4
    ensures Place(f, id) < |f.b| && Payload(f, Place(f, id)) <= |f.b|
    ensures var p := Place(f, id);
            && HeadOf(f, id) == Ok(Head(kind, f.b[p] % 16, Extent(f, p), Payload(f, p)))
            && Need(f, Payload(f, p), Span(Extent(f, p), width))
  {
    hide HeadOf, Place, Extent, Payload, Need, Span, Tagged;
    TaggedHead(f, id, kind);
    RoomFor(f, Payload(f, Place(f, id)), Extent(f, Place(f, id)), width);
  }

  lemma TaggedHead(f: File, id: nat, kind: nat)
    requires Sound(f) && id < f.n && 8 <= Place(f, id) < f.table && Tagged(f, Place(f, id), kind) && kind >= 4
    ensures Place(f, id) < |f.b| && Payload(f, Place(f, id)) <= |f.b|
    ensures var p := Place(f, id); HeadOf(f, id) == Ok(Head(kind, f.b[p] % 16, Extent(f, p), Payload(f, p)))
  {
    hide HeadOf, Place, Extent;
    HeadRead(f, id);
  }

  lemma RoomFor(f: File, at: nat, count: nat, width: nat)
    requires at + count * width <= f.table
    ensures Need(f, at, Span(count, width))
  {
    assert count * width >= 0;
  }

  lemma {:induction false} ArrayIsRead(E: Env, f: File, r: Reading, items: seq<Value>, depth: nat, budget: int)
    requires Sound(f) && Stands(E, f, r, Array(items)) && Within(r, depth) && Size(r) <= budget
    ensures Parse(E, f, r.id, depth, budget) == (Ok(Array(items)), budget - Size(r))
    decreases r, 1, 0
  {
    hide HeadOf, Parse, ParseItems, Place, RefersTo, Extent, Payload, Sound, Sequence, Need;
    var p := Place(f, r.id);
    ListHead(f, r.id, 10, f.rs);
    ParseIs(E, f, r.id, depth, budget, Head(10, f.b[p] % 16, Extent(f, p), Payload(f, p)));
    assert r.parts[0..|items|] == r.parts;
    forall k | 0 <= k < |items| ensures ItemStands(E, f, Payload(f, p), k, r.parts[k], items[k], depth + 1) {}
    ItemsRead(E, f, r, Payload(f, p), 0, items, depth, budget - 1);
    assert items[0..] == items;
  }

  lemma {:induction false} DictIsRead(E: Env, f: File, r: Reading, m: map<seq<Byte>, Value>, depth: nat, budget: int)
    requires Sound(f) && Stands(E, f, r, Dict(m)) && Within(r, depth) && Size(r) <= budget
    ensures Parse(E, f, r.id, depth, budget) == (Ok(Dict(m)), budget - Size(r))
    decreases r, 1, 0
  {
    hide HeadOf, Parse, ParsePairs, Place, RefersTo, Extent, Payload, Sound, Sequence, Need, EntriesStand, SizeOf;
    ListHead(f, r.id, 13, 2 * f.rs);
    var p := Place(f, r.id);
    var n := Extent(f, p);
    assert Span(n, 2 * f.rs) == Span(2 * n, f.rs);
    ParseIs(E, f, r.id, depth, budget, Head(13, f.b[p] % 16, n, Payload(f, p)));
    var keys :| EntriesStand(E, f, r, Payload(f, p), n, keys, m);
    KeysOfEntries(E, f, r, Payload(f, p), n, keys, m);
    assert r.parts == r.parts[0..n] + r.parts[n..2 * n] && n + 0 == n;
    SizeSplit(r.parts[0..n], r.parts[n..2 * n]);
    assert FirstEntries(m, keys, 0, map[]);
    PairsRead(E, f, r, Payload(f, p), 0, n, keys, m, map[], depth, budget - 1);
  }

  /** An object that stands for a value, within the limits, is read as that value. */
  lemma {:induction false} StandingIsRead(E: Env, f: File, r: Reading, v: Value, depth: nat, budget: int)
    requires Sound(f) && Stands(E, f, r, v) && Within(r, depth) && Size(r) <= budget
    ensures Parse(E, f, r.id, depth, budget) == (Ok(v), budget - Size(r))
    decreases r, 2, 0
  {
    match v
    case Array(items) => hide *; ArrayIsRead(E, f, r, items, depth, budget);
    case Dict(m) => hide *; DictIsRead(E, f, r, m, depth, budget);
    case Int(_) =>
    case _ =>
      hide HeadOf, Parse, ReadLeaf, Place, Fixed, TextStands, Sequence;
      LeafRead(E, f, r, v);
      LeafKind(E, f, HeadOf(f, r.id).value, v);
      NoSize();
      ParseIs(E, f, r.id, depth, budget, HeadOf(f, r.id).value);
  }

  lemma LeafKind(E: Env, f: File, h: Head, v: Value)
    requires Sound(f) && ReadLeaf(E, f, h) == Ok(v)
    ensures h.kind != 10 && h.kind != 13 && Leaf(v)
  {
    hide Number, FromUtf16, UnitsOf;
  }

  /******* What is read stands in the file *******/

  /** A parse that succeeds with this value, and what is left of the budget. */
  predicate Reads(E: Env, f: File, id: nat, depth: nat, budget: int, v: Value, rest: int)
    requires Sound(f)
  {
    Parse(E, f, id, depth, budget) == (Ok(v), rest)
  }

  lemma ParseStarts(E: Env, f: File, id: nat, depth: nat, budget: int)
    requires Sound(f) && Parse(E, f, id, depth, budget).0.Ok?
    ensures id < f.n && depth <= MAX_DEPTH && budget > 0 && HeadOf(f, id).Ok?
  {
    hide HeadOf, ReadLeaf, ParseItems, ParsePairs;
  }

  lemma {:induction false} ChildStands(E: Env, f: File, at: nat, i: nat, depth: nat, budget: int)
    returns (r: Reading)
    requires Sound(f) && depth <= MAX_DEPTH && ParseChild(E, f, at, i, depth, budget).0.Ok?
    ensures var (v, rest) := ParseChild(E, f, at, i, depth, budget);
            ItemStands(E, f, at, i, r, v.value, depth + 1) && 0 <= rest && Size(r) == budget - rest
    decreases 33 - depth, 0, 0
  {
    hide Parse, Stands, Within, ReadAt, RefersTo, Size;
    var id := ReadAt(f.b, at + i * f.rs, f.rs).value;
    RefRead(f, at, i, id);
    r := ReadingOf(E, f, id, depth + 1, budget);
  }

  lemma {:induction false} ItemsStand(E: Env, f: File, at: nat, i: nat, count: nat, depth: nat, budget: int)
    returns (parts: seq<Reading>)
    requires Sound(f) && depth <= MAX_DEPTH && i <= count && ParseItems(E, f, at, i, count, depth, budget).0.Ok?
    requires budget >= 0
    ensures var (items, rest) := ParseItems(E, f, at, i, count, depth, budget);
            && |parts| == |items.value| == count - i && 0 <= rest && SizeOf(parts) == budget - rest
            && forall k | 0 <= k < |parts| :: ItemStands(E, f, at, i + k, parts[k], items.value[k], depth + 1)
    decreases 33 - depth, 1, count - i
  {
    hide ParseChild, ItemStands, Size, Sound;
    if i == count {
      parts := [];
    } else {
      var (v, left) := ParseChild(E, f, at, i, depth, budget);
      var first := ChildStands(E, f, at, i, depth, budget);
      var others := ItemsStand(E, f, at, i + 1, count, depth, left);
      parts := [first] + others;
      assert parts[1..] == others;
      var items := ParseItems(E, f, at, i, count, depth, budget).0.value;
      forall k | 0 <= k < |parts| ensures ItemStands(E, f, at, i + k, parts[k], items[k], depth + 1) {
        if k > 0 { assert parts[k] == others[k - 1] && i + 1 + (k - 1) == i + k; }
      }
    }
  }

  /** The entries from the i-th on: their keys, the readings of the keys, and those of the values. */
  datatype Entries = Entries(keys: seq<seq<Byte>>, names: seq<Reading>, values: seq<Reading>)

  ghost predicate PairStands(E: Env, f: File, at: nat, i: nat, n: nat, k: nat, e: Entries, m: map<seq<Byte>, Value>,
          depth: nat)
    requires Sound(f) && k < |e.keys| == |e.names| == |e.values|
  {
    && e.keys[k] in m && ItemStands(E, f, at, i + k, e.names[k], Text(e.keys[k]), depth)
    && ItemStands(E, f, at, n + (i + k), e.values[k], m[e.keys[k]], depth)
  }

  ghost predicate PairsStand(E: Env, f: File, at: nat, i: nat, n: nat, e: Entries, m: map<seq<Byte>, Value>,
          depth: nat)
    requires Sound(f)
  {
    && |e.keys| == |e.names| == |e.values|
    && forall k: nat | k < |e.keys| :: PairStands(E, f, at, i, n, k, e, m, depth)
  }

  /** These keys, each once, are what has come to the entries that were there before. */
  ghost predicate Grown(before: map<seq<Byte>, Value>, keys: seq<seq<Byte>>, after: map<seq<Byte>, Value>) {
    && Distinct(keys) && (forall k | k in keys :: k !in before)
    && (forall k :: k in after <==> k in before || k in keys)
    && (forall k | k in before :: after[k] == before[k])
  }

  lemma GrownNext(before: map<seq<Byte>, Value>, key: seq<Byte>, v: Value, keys: seq<seq<Byte>>,
          after: map<seq<Byte>, Value>)
    requires key !in before && Grown(before[key := v], keys, after)
    ensures Grown(before, [key] + keys, after) && key in after && after[key] == v
  {
    assert key !in keys;
  }

  lemma PairsBegin(E: Env, f: File, at: nat, i: nat, n: nat, m: map<seq<Byte>, Value>, depth: nat, budget: int)
    requires Sound(f) && depth <= MAX_DEPTH && i < n && ParsePairs(E, f, at, i, n, m, depth, budget).0.Ok?
    ensures var (k, left) := ParseChild(E, f, at, i, depth, budget);
            && k.Ok? && k.value.Text? && k.value.s !in m
            && var (v, rest) := ParseChild(E, f, at, n + i, depth, left);
               v.Ok? && ParsePairs(E, f, at, i, n, m, depth, budget) ==
                        ParsePairs(E, f, at, i + 1, n, m[k.value.s := v.value], depth, rest)
  {
    hide ParseChild, Sound;
    var (k, left) := ParseChild(E, f, at, i, depth, budget);
    assert k.Ok? && k.value.Text? && k.value.s !in m;
    var (v, rest) := ParseChild(E, f, at, i + n, depth, left);
    assert n + i == i + n && v.Ok?;
  }

  lemma {:induction false} EntriesRead(E: Env, f: File, at: nat, i: nat, n: nat, m: map<seq<Byte>, Value>, depth: nat,
          budget: int)
    returns (e: Entries)
    requires Sound(f) && depth <= MAX_DEPTH && i <= n && ParsePairs(E, f, at, i, n, m, depth, budget).0.Ok?
    requires budget >= 0
    ensures var (all, rest) := ParsePairs(E, f, at, i, n, m, depth, budget);
            && Grown(m, e.keys, all.value) && |e.keys| == n - i && PairsStand(E, f, at, i, n, e, all.value, depth + 1)
            && 0 <= rest && SizeOf(e.names) + SizeOf(e.values) == budget - rest
    decreases 33 - depth, 1, n - i
  {
    hide ParseChild, ParsePairs, ItemStands, Size, SizeOf, Sound, Grown, PairsStand;
    if i == n {
      e := Entries([], [], []);
      NoEntries(E, f, at, n, m, depth, budget);
    } else {
      PairsBegin(E, f, at, i, n, m, depth, budget);
      var (k, left) := ParseChild(E, f, at, i, depth, budget);
      var (v, rest) := ParseChild(E, f, at, n + i, depth, left);
      var name := ChildStands(E, f, at, i, depth, budget);
      var value := ChildStands(E, f, at, n + i, depth, left);
      var later := EntriesRead(E, f, at, i + 1, n, m[k.value.s := v.value], depth, rest);
      e := Entries([k.value.s] + later.keys, [name] + later.names, [value] + later.values);
      var all := ParsePairs(E, f, at, i, n, m, depth, budget).0.value;
      GrownNext(m, k.value.s, v.value, later.keys, all);
      SizeOfOneMore(name, later.names);
      SizeOfOneMore(value, later.values);
      OneMorePair(E, f, at, i, n, k.value.s, v.value, name, value, later, all, depth + 1);
    }
  }

  lemma NoEntries(E: Env, f: File, at: nat, n: nat, m: map<seq<Byte>, Value>, depth: nat, budget: int)
    requires Sound(f) && depth <= MAX_DEPTH
    ensures ParsePairs(E, f, at, n, n, m, depth, budget) == (Ok(m), budget) && Grown(m, [], m)
    ensures PairsStand(E, f, at, n, n, Entries([], [], []), m, depth + 1) && SizeOf([]) == 0
  {}

  lemma SizeOfOneMore(r: Reading, parts: seq<Reading>)
    ensures SizeOf([r] + parts) == Size(r) + SizeOf(parts)
  {
    hide Size;
    assert ([r] + parts)[1..] == parts;
  }

  lemma OneMorePair(E: Env, f: File, at: nat, i: nat, n: nat, key: seq<Byte>, v: Value, name: Reading, value: Reading,
          later: Entries, all: map<seq<Byte>, Value>, depth: nat)
    requires Sound(f) && PairsStand(E, f, at, i + 1, n, later, all, depth) && key in all && all[key] == v
    requires ItemStands(E, f, at, i, name, Text(key), depth) && ItemStands(E, f, at, n + i, value, v, depth)
    ensures PairsStand(E, f, at, i, n,
                Entries([key] + later.keys, [name] + later.names, [value] + later.values), all, depth)
  {
    hide ItemStands;
    var e := Entries([key] + later.keys, [name] + later.names, [value] + later.values);
    forall k: nat | k < |e.keys| ensures PairStands(E, f, at, i, n, k, e, all, depth) {
      if k > 0 {
        assert PairStands(E, f, at, i + 1, n, k - 1, later, all, depth);
        assert i + 1 + (k - 1) == i + k;
      } else {
        assert i + k == i;
      }
    }
  }

  lemma DictStands(E: Env, f: File, id: nat, n: nat, e: Entries, m: map<seq<Byte>, Value>, depth: nat)
    requires Sound(f) && depth <= MAX_DEPTH && id < f.n && 8 <= Place(f, id) < f.table
    requires Sequence(f, Place(f, id), 13, 2 * f.rs) && Extent(f, Place(f, id)) == n <= 65536
    requires Grown(map[], e.keys, m) && |e.keys| == n
             && PairsStand(E, f, Payload(f, Place(f, id)), 0, n, e, m, depth + 1)
    ensures var r := Reading(id, e.names + e.values);
            Stands(E, f, r, Dict(m)) && Within(r, depth) && Size(r) == 1 + SizeOf(e.names) + SizeOf(e.values)
  {
    hide Place, Payload, Extent, Sound, RefersTo, Sequence;
    var r, at := Reading(id, e.names + e.values), Payload(f, Place(f, id));
    SizeSplit(e.names, e.values);
    forall i | 0 <= i < n ensures EntryStands(E, f, r, at, n, i, e.keys[i], m[e.keys[i]]) {
      assert PairStands(E, f, at, 0, n, i, e, m, depth + 1);
      assert r.parts[i] == e.names[i] && r.parts[n + i] == e.values[i];
    }
    assert EntriesStand(E, f, r, at, n, e.keys, m);
    forall i | 0 <= i < |r.parts| ensures Within(r.parts[i], depth + 1) {
      if i < n { assert PairStands(E, f, at, 0, n, i, e, m, depth + 1); }
      else { assert PairStands(E, f, at, 0, n, i - n, e, m, depth + 1); }
    }
  }

  lemma ArrayStands(E: Env, f: File, id: nat, parts: seq<Reading>, items: seq<Value>, depth: nat)
    requires Sound(f) && depth <= MAX_DEPTH && id < f.n && 8 <= Place(f, id) < f.table
    requires Sequence(f, Place(f, id), 10, f.rs) && Extent(f, Place(f, id)) == |parts| == |items| <= 65536
    requires forall k | 0 <= k < |parts| ::
             ItemStands(E, f, Payload(f, Place(f, id)), 0 + k, parts[k], items[k], depth + 1)
    ensures Stands(E, f, Reading(id, parts), Array(items)) && Within(Reading(id, parts), depth)
  {
    hide Place, Payload, Extent, Sound, RefersTo, Sequence;
    var r := Reading(id, parts);
    forall k | 0 <= k < |parts|
      ensures RefersTo(f, Payload(f, Place(f, id)), k, parts[k].id) && Stands(E, f, parts[k], items[k])
      ensures Within(parts[k], depth + 1)
    {
      assert ItemStands(E, f, Payload(f, Place(f, id)), 0 + k, parts[k], items[k], depth + 1);
    }
  }

  /** Where a list's header was read, the list stands in the file. */
  lemma ListStands(f: File, id: nat, h: Head, pairs: bool)
    requires Sound(f) && id < f.n && HeadOf(f, id) == Ok(h) && h.kind >= 4
    requires Need(f, h.at, Span(if pairs then 2 * h.count else h.count, f.rs))
    ensures 8 <= Place(f, id) < f.table && Sequence(f, Place(f, id), h.kind, if pairs then 2 * f.rs else f.rs)
    ensures h.at == Payload(f, Place(f, id)) && h.count == Extent(f, Place(f, id))
  {
    hide HeadOf, Place, Extent, Payload;
    HeadRead(f, id);
    Regroup(h.count, f.rs);
  }

  lemma Regroup(b: nat, c: nat)
    ensures 2 * b * c == b * (2 * c)
  {}

  /** The value of a successful parse stands in the file, in as many objects as were taken from the budget. */
  lemma {:induction false} ReadingOf(E: Env, f: File, id: nat, depth: nat, budget: int)
    returns (r: Reading)
    requires Sound(f) && Parse(E, f, id, depth, budget).0.Ok?
    ensures var (v, rest) := Parse(E, f, id, depth, budget);
            r.id == id && Stands(E, f, r, v.value) && Within(r, depth) && 0 <= rest && Size(r) == budget - rest
    decreases 33 - depth, 2, 0
  {
    hide HeadOf, Parse, ParseItems, ParsePairs, ReadLeaf, Place, Payload, Extent, Sound, Need, Span, Stands, Sequence,
         PairsStand, Grown, ItemStands;
    ParseStarts(E, f, id, depth, budget);
    var h := HeadOf(f, id).value;
    ParseIs(E, f, id, depth, budget, h);
    if h.kind == 10 {
      var parts := ItemsStand(E, f, h.at, 0, h.count, depth, budget - 1);
      ListStands(f, id, h, false);
      ArrayStands(E, f, id, parts, ParseItems(E, f, h.at, 0, h.count, depth, budget - 1).0.value, depth);
      r := Reading(id, parts);
    } else if h.kind == 13 {
      var e := EntriesRead(E, f, h.at, 0, h.count, map[], depth, budget - 1);
      ListStands(f, id, h, true);
      DictStands(E, f, id, h.count, e, ParsePairs(E, f, h.at, 0, h.count, map[], depth, budget - 1).0.value, depth);
      r := Reading(id, e.names + e.values);
    } else {
      r := Reading(id, []);
      LeafKind(E, f, h, ReadLeaf(E, f, h).value);
      LeafRead(E, f, r, ReadLeaf(E, f, h).value);
      NoSize();
    }
  }

  /******* Whole files *******/

  /** The bytes of a property list: its magic, and a trailer with the sizes, the root and the offset table. */
  ghost predicate Framed(b: seq<Byte>, f: File, root: nat) {
    && f.b == b && 40 <= |b| <= 0x20_0000 && b[..8] == [0x62, 0x70, 0x6C, 0x69, 0x73, 0x74, 0x30, 0x30]
    && f.os == b[|b| - 26] && f.rs == b[|b| - 25]
    && f.n == Number(b[|b| - 24..|b| - 16]) && root == Number(b[|b| - 16..|b| - 8]) && f.table == Number(b[|b| - 8..])
    && 1 <= f.os <= 8 && 1 <= f.rs <= 8 && root < f.n <= 65536 && 8 <= f.table && f.table + f.n * f.os + 32 <= |b|
  }

  lemma FramedIsSound(b: seq<Byte>, f: File, root: nat)
    requires Framed(b, f, root)
    ensures Sound(f)
  {
    hide Number;
    assert f.n * f.os >= 0;
  }

  lemma OpenMeans(b: seq<Byte>, f: File, root: nat)
    ensures Open(b) == Ok((f, root)) <==> Framed(b, f, root)
  {
    hide Number;
    if |b| >= 40 { assert b[|b| - 8..|b|] == b[|b| - 8..]; }
  }

  /** The file holds a property list whose root stands for the value, in no more than 65,536 objects. */
  ghost predicate FileStands(E: Env, b: seq<Byte>, f: File, r: Reading, v: Value) {
    && Framed(b, f, r.id) && Within(r, 0) && Size(r) <= 65536
    && (FramedIsSound(b, f, r.id); Stands(E, f, r, v))
  }

  /**
   Any file, whoever wrote it: it is read as a value exactly when it holds a property list whose
   root stands for that value, at most 32 levels deep and with at most 65,536 objects visited.
   */
  lemma DecodeExactly(E: Env, b: seq<Byte>, v: Value)
    ensures Decode(E, b) == Ok(v) <==> exists f, r :: FileStands(E, b, f, r, v)
  {
    hide Parse, Stands, Within, Size, Framed, Open, Sound;
    if Decode(E, b) == Ok(v) {
      var (f, root) := Open(b).value;
      OpenMeans(b, f, root);
      FramedIsSound(b, f, root);
      var r := ReadingOf(E, f, root, 0, MAX_OBJECTS);
      assert FileStands(E, b, f, r, v);
    }
    if f, r :| FileStands(E, b, f, r, v) {
      OpenMeans(b, f, r.id);
      FramedIsSound(b, f, r.id);
      StandingIsRead(E, f, r, v, 0, MAX_OBJECTS);
    }
  }

  /** A property list of one object, an integer of one byte. */
  function OneByteFile(u: Byte): seq<Byte> {
    MAGIC + [0x10, u] + [8] + [0, 0, 0, 0, 0, 0, 1, 1]
    + [0, 0, 0, 0, 0, 0, 0, 1] + [0, 0, 0, 0, 0, 0, 0, 0] + [0, 0, 0, 0, 0, 0, 0, 10]
  }

  lemma ShortNumbers(x: Byte)
    ensures Number([x]) == x && Number([0, 0, 0, 0, 0, 0, 0, x]) == x
  {
    assert Number([x]) == Number([]) * 256 + x by { assert [x][..0] == []; }
    var zeros: seq<Byte> := [0, 0, 0, 0, 0, 0, 0];
    assert [0, 0, 0, 0, 0, 0, 0, x][..7] == zeros;
    Zeros(zeros);
  }

  lemma {:induction false} Zeros(b: seq<Byte>)
    requires forall i | 0 <= i < |b| :: b[i] == 0
    ensures Number(b) == 0
  {
    if b != [] { Zeros(b[..|b| - 1]); }
  }

  lemma OneByteLayout(u: Byte)
    ensures var b := OneByteFile(u);
            && |b| == 43 && b[..8] == [0x62, 0x70, 0x6C, 0x69, 0x73, 0x74, 0x30, 0x30] && b[8] == 0x10
            && b[9..10] == [u] && b[10..11] == [8] && b[17] == 1 && b[18] == 1
            && b[19..27] == [0, 0, 0, 0, 0, 0, 0, 1] && b[27..35] == [0, 0, 0, 0, 0, 0, 0, 0]
            && b[35..] == [0, 0, 0, 0, 0, 0, 0, 10]
  {}

  /** Peers write small integers in one byte, and with short offsets: these are read too. */
  lemma OneByteIsRead(E: Env, u: Byte)
    ensures Decode(E, OneByteFile(u)) == Ok(Uint(u))
  {
    hide Decode, OneByteFile, Number;
    var b := OneByteFile(u);
    var f, r := File(b, 1, 1, 1, 10), Reading(0, []);
    OneByteLayout(u);
    ShortNumbers(1);
    ShortNumbers(0);
    ShortNumbers(10);
    ShortNumbers(8);
    ShortNumbers(u);
    assert Framed(b, f, 0);
    assert Place(f, 0) == 8;
    assert Fixed(f, 8, 0x10, 1, u);
    assert FileStands(E, b, f, r, Uint(u));
    DecodeExactly(E, b, Uint(u));
  }
}
