/**
 plist and unplist as the source runs them: an encoder that appends to a growing object
 table, and a decoder that spends a shared budget. Both are tied to the functions of
 module Plist.
 */
module PlistCodec {
  import opened Wrappers
  import opened ByteOrder
  import opened Plist

  lemma {:induction false} ObjectsSnoc(E: Env, parent: Value, items: seq<Value>, x: Value, base: nat)
    requires Lawful(E) && (forall i | 0 <= i < |items| :: items[i] < parent) && x < parent
    ensures forall i | 0 <= i < |items + [x]| :: (items + [x])[i] < parent
    ensures var o := ObjectsOf(E, parent, items, base);
            && ObjectsOf(E, parent, items + [x], base) == o + Objects(E, x, base + |o|)
            && IdsOf(E, parent, items + [x], base) ==
               IdsOf(E, parent, items, base) + [base + |o| + |Objects(E, x, base + |o|)| - 1]
    decreases |items|
  {
    hide Objects, ObjectsOf, IdsOf, Lawful;
    ObjectsCons(E, parent, items + [x], base);
    if items == [] {
      ObjectsNil(E, parent, base);
      ObjectsNil(E, parent, base + |Objects(E, x, base)|);
      assert [] + [x] == [x] && [x][1..] == [];
    } else {
      ObjectsCons(E, parent, items, base);
      assert (items + [x])[1..] == items[1..] + [x];
      ObjectsSnoc(E, parent, items[1..], x, base + |Objects(E, items[0], base)|);
    }
  }

  lemma {:induction false} RefsSnoc(ids: seq<nat>, id: nat)
    ensures Refs(ids + [id]) == Refs(ids) + BigEndian(id, 8)
  {
    if ids == [] {
      assert [] + [id] == [id] && [id][1..] == [];
    } else {
      assert (ids + [id])[1..] == ids[1..] + [id];
      RefsSnoc(ids[1..], id);
    }
  }

  lemma {:induction false} FlattenSnoc(objects: seq<seq<Byte>>, o: seq<Byte>)
    ensures Flatten(objects + [o]) == Flatten(objects) + o
  {
    if objects == [] {
      assert [] + [o] == [o] && [o][1..] == [];
    } else {
      assert (objects + [o])[1..] == objects[1..] + [o];
      FlattenSnoc(objects[1..], o);
    }
  }

  /** The object table `add` appends to. */
  class Encoder {
    var objects: seq<seq<Byte>>

    constructor ()
      ensures objects == []
    {
      objects := [];
    }

    /** Adds every child in order and collects the references to them. */
    method AddAll(E: Env, ghost parent: Value, items: seq<Value>) returns (refs: seq<Byte>)
      requires Lawful(E) && forall i | 0 <= i < |items| :: items[i] < parent
      modifies this
      ensures objects == old(objects) + ObjectsOf(E, parent, items, |old(objects)|)
      ensures refs == Refs(IdsOf(E, parent, items, |old(objects)|))
      decreases parent, 0
    {
      hide Objects, ObjectsOf, IdsOf, Lawful, Refs, BigEndian;
      ghost var base := |objects|;
      refs := [];
      NoItems(E, parent, base);
      for i := 0 to |items|
        invariant objects == old(objects) + ObjectsOf(E, parent, items[..i], base)
        invariant refs == Refs(IdsOf(E, parent, items[..i], base))
      {
        ObjectsSnoc(E, parent, items[..i], items[i], base);
        assert items[..i + 1] == items[..i] + [items[i]];
        var id := Add(E, items[i]);
        RefsSnoc(IdsOf(E, parent, items[..i], base), id);
        refs := refs + BigEndian(id, 8);
      }
      assert items[..|items|] == items;
    }

    lemma NoItems(E: Env, parent: Value, base: nat)
      requires Lawful(E)
      ensures ObjectsOf(E, parent, [], base) == [] && Refs(IdsOf(E, parent, [], base)) == []
    {
    }

    /** Adds one object per key. */
    method AddKeys(E: Env, keys: seq<seq<Byte>>) returns (refs: seq<Byte>)
      requires Lawful(E)
      modifies this
      ensures objects == old(objects) + KeyObjects(E, keys)
      ensures refs == Refs(Count(|old(objects)|, |keys|))
    {
      hide LeafBytes, Lawful, Refs, BigEndian;
      ghost var base := |objects|;
      refs := [];
      assert Count(base, 0) == [] && Refs([]) == [];
      for i := 0 to |keys|
        invariant objects == old(objects) + KeyObjects(E, keys[..i])
        invariant refs == Refs(Count(base, i))
      {
        assert KeyObjects(E, keys[..i + 1]) == KeyObjects(E, keys[..i]) + [LeafBytes(E, Text(keys[i]))];
        assert Count(base, i + 1) == Count(base, i) + [base + i];
        RefsSnoc(Count(base, i), base + i);
        refs := refs + BigEndian(|objects|, 8);
        objects := objects + [LeafBytes(E, Text(keys[i]))];
      }
      assert keys[..|keys|] == keys;
    }

    /** `add`: children first, then the value's own object; returns the object's ID. */
    method Add(E: Env, v: Value) returns (id: nat)
      requires Lawful(E)
      modifies this
      ensures objects == old(objects) + Objects(E, v, |old(objects)|)
      ensures id == |objects| - 1
      decreases v, 1
    {
      hide ObjectsOf, IdsOf, Lawful, Refs, BigEndian, LeafBytes, Length;
      var b: seq<Byte>;
      if v.Array? {
        b := Length(0xA0, |v.items|);
        var refs := AddAll(E, v, v.items);
        b := b + refs;
      } else if v.Dict? {
        var keys, values := KeysOf(E, v), ValuesOf(E, v);
        b := Length(0xD0, |keys|);
        var keyRefs := AddKeys(E, keys);
        var valueRefs := AddAll(E, v, values);
        b := b + keyRefs + valueRefs;
      } else {
        b := LeafBytes(E, v);
      }
      objects := objects + [b];
      id := |objects| - 1;
    }
  }

  /** plist: the object table, the offset table and the trailer, written front to back. */
  method WritePlist(E: Env, v: Value) returns (out: seq<Byte>)
    requires Lawful(E)
    ensures out == Encode(E, v)
  {
    hide Objects, Lawful, Refs, BigEndian, Flatten, FileOf, Offsets;
    var encoder := new Encoder();
    var root := encoder.Add(E, v);
    var objects := encoder.objects;
    assert objects == [] + Objects(E, v, 0) == Objects(E, v, 0);
    var front, offsets := WriteObjects(objects);
    out := front;
    var table := |out|;
    NoFlatten();
    for i := 0 to |offsets|
      invariant out == MAGIC + Flatten(objects) + Refs(offsets[..i])
    {
      assert offsets[..i + 1] == offsets[..i] + [offsets[i]];
      RefsSnoc(offsets[..i], offsets[i]);
      out := out + BigEndian(offsets[i], 8);
    }
    assert offsets[..|offsets|] == offsets;
    FileIs(objects);
    out := out + ([0, 0, 0, 0, 0, 0, 8, 8] + BigEndian(|objects|, 8) + BigEndian(root, 8) + BigEndian(table, 8));
  }

  /** The magic and the objects, and where each of them starts. */
  method WriteObjects(objects: seq<seq<Byte>>) returns (out: seq<Byte>, offsets: seq<nat>)
    ensures out == MAGIC + Flatten(objects) && offsets == Offsets(objects)
  {
    hide Flatten, Refs;
    out, offsets := MAGIC, [];
    NoFlatten();
    for i := 0 to |objects|
      invariant out == MAGIC + Flatten(objects[..i])
      invariant |offsets| == i && forall k | 0 <= k < i :: offsets[k] == StartOf(objects, k)
    {
      offsets := offsets + [|out|];
      assert objects[..i + 1] == objects[..i] + [objects[i]];
      FlattenSnoc(objects[..i], objects[i]);
      out := out + objects[i];
    }
    assert objects[..|objects|] == objects;
  }

  lemma FileIs(objects: seq<seq<Byte>>)
    requires |objects| > 0
    ensures FileOf(objects) ==
            MAGIC + Flatten(objects) + Refs(Offsets(objects)) + Trailer(|objects|, |objects| - 1,
                8 + |Flatten(objects)|)
  {
    hide Flatten, Refs, Offsets, Trailer;
  }

  lemma NoFlatten()
    ensures Flatten([]) == [] && Refs([]) == []
  {
  }

  /** `read`: the bytes are shifted in one by one. */
  method Read(b: seq<Byte>, pos: nat, size: nat) returns (r: Result<nat>)
    ensures r == ReadAt(b, pos, size)
  {
    if size < 1 || size > 8 || pos > |b| || size > |b| - pos { return Bad; }
    var v: nat := 0;
    for i := 0 to size
      invariant v == Number(b[pos..pos + i])
    {
      assert b[pos..pos + i + 1][..i] == b[pos..pos + i];
      v := v * 256 + b[pos + i];
    }
    return Ok(v);
  }

  /** The recursive parse and the budget it shares between all branches. */
  class Decoder {
    const E: Env
    const f: File
    var budget: int

    constructor (E: Env, f: File)
      ensures this.E == E && this.f == f && budget == MAX_OBJECTS
    {
      this.E, this.f, this.budget := E, f, MAX_OBJECTS;
    }

    method ReadChild(at: nat, i: nat, depth: nat) returns (r: Result<Value>)
      requires Sound(f) && depth <= MAX_DEPTH
      modifies this
      ensures (r, budget) == ParseChild(E, f, at, i, depth, old(budget))
      decreases 33 - depth, 0
    {
      hide Parse, ReadAt;
      var id := Read(f.b, at + i * f.rs, f.rs);
      if id.Bad? { return Bad; }
      r := ReadObject(id.value, depth + 1);
    }

    method ReadObject(id: nat, depth: nat) returns (r: Result<Value>)
      requires Sound(f)
      modifies this
      ensures (r, budget) == Parse(E, f, id, depth, old(budget))
      decreases 33 - depth, 2
    {
      hide HeadOf, ReadLeaf, ParseItems, ParsePairs;
      budget := budget - 1;
      if id >= f.n || depth > MAX_DEPTH || budget < 0 { return Bad; }
      var head := HeadOf(f, id);
      if head.Bad? { return Bad; }
      var h := head.value;
      if h.kind == 10 {
        if h.count > MAX_OBJECTS || !Need(f, h.at, h.count * f.rs) { return Bad; }
        r := ReadArray(h.at, h.count, depth);
      } else if h.kind == 13 {
        if h.count > MAX_OBJECTS || !Need(f, h.at, 2 * h.count * f.rs) { return Bad; }
        r := ReadDict(h.at, h.count, depth);
      } else {
        r := ReadLeaf(E, f, h);
      }
    }

    method ReadArray(at: nat, count: nat, depth: nat) returns (r: Result<Value>)
      requires Sound(f) && depth <= MAX_DEPTH
      modifies this
      ensures var (items, rest) := ParseItems(E, f, at, 0, count, depth, old(budget));
              (r, budget) == (if items.Bad? then Bad else Ok(Array(items.value)), rest)
      decreases 33 - depth, 1
    {
      hide ParseChild;
      var a: seq<Value> := [];
      ghost var all := ParseItems(E, f, at, 0, count, depth, budget).0;
      assert all.Ok? ==> a + all.value == all.value;
      for i := 0 to count
        invariant var (items, rest) := ParseItems(E, f, at, i, count, depth, budget);
                  ParseItems(E, f, at, 0, count, depth, old(budget)) ==
                      (if items.Bad? then Bad else Ok(a + items.value), rest)
      {
        var v := ReadChild(at, i, depth);
        if v.Bad? { return Bad; }
        ghost var rest := ParseItems(E, f, at, i + 1, count, depth, budget);
        assert rest.0.Ok? ==> a + ([v.value] + rest.0.value) == (a + [v.value]) + rest.0.value;
        a := a + [v.value];
      }
      assert a + [] == a;
      return Ok(Array(a));
    }

    method ReadDict(at: nat, count: nat, depth: nat) returns (r: Result<Value>)
      requires Sound(f) && depth <= MAX_DEPTH
      modifies this
      ensures var (m, rest) := ParsePairs(E, f, at, 0, count, map[], depth, old(budget));
              (r, budget) == (if m.Bad? then Bad else Ok(Dict(m.value)), rest)
      decreases 33 - depth, 1
    {
      hide ParseChild;
      var m: map<seq<Byte>, Value> := map[];
      for i := 0 to count
        invariant ParsePairs(E, f, at, 0, count, map[], depth, old(budget)) ==
                  ParsePairs(E, f, at, i, count, m, depth, budget)
      {
        var k := ReadChild(at, i, depth);
        if k.Bad? || !k.value.Text? || k.value.s in m { return Bad; }
        var v := ReadChild(at, i + count, depth);
        if v.Bad? { return Bad; }
        m := m[k.value.s := v.value];
      }
      return Ok(Dict(m));
    }
  }

  /** unplist. */
  method ReadPlist(E: Env, b: seq<Byte>) returns (r: Result<Value>)
    ensures r == Decode(E, b)
  {
    hide Parse, Open;
    var file := Open(b);
    if file.Bad? { return Bad; }
    var decoder := new Decoder(E, file.value.0);
    r := decoder.ReadObject(file.value.1, 0);
  }
}
