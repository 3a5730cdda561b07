/**
 References between the objects of a property list (internal/airplay/plist.go): unplist goes
 32 levels deep, so a file whose references run in a circle is refused.
 */
module PlistCycles {
  import opened Wrappers
  import opened ByteOrder
  import opened Plist

  /** The references behind the header of an array or a dictionary. */
  function RefCount(h: Head): nat { if h.kind == 10 then h.count else if h.kind == 13 then 2 * h.count else 0 }

  ghost predicate RefersAt(f: File, h: Head, j: nat, child: nat)
  {
    j < RefCount(h) && ReadAt(f.b, h.at + j * f.rs, f.rs) == Ok(child)
  }

  ghost predicate Refers(f: File, id: nat, child: nat)
    requires Sound(f)
  {
    HeadOf(f, id).Ok? && exists j: nat :: RefersAt(f, HeadOf(f, id).value, j, child)
  }

  ghost predicate RefersNext(f: File, walk: seq<nat>, k: nat)
    requires Sound(f) && k + 1 < |walk|
  {
    Refers(f, walk[k], walk[k + 1])
  }

  /** Each object of the walk refers to the next. */
  ghost predicate Walk(f: File, walk: seq<nat>)
    requires Sound(f)
  {
    walk != [] && forall k: nat | k + 1 < |walk| :: RefersNext(f, walk, k)
  }

  /******* What is read is not deep *******/

  /** The child was read within some budget. */
  ghost predicate ReadSomehow(E: Env, f: File, id: nat, depth: nat)
    requires Sound(f)
  {
    exists budget: int :: Parse(E, f, id, depth, budget).0.Ok?
  }

  ghost predicate ChildRead(E: Env, f: File, at: nat, j: nat, depth: nat)
    requires Sound(f) && depth <= MAX_DEPTH
  {
    exists budget: int :: ParseChild(E, f, at, j, depth, budget).0.Ok?
  }

  lemma ReadOfChild(E: Env, f: File, at: nat, j: nat, depth: nat, child: nat)
    requires Sound(f) && depth <= MAX_DEPTH && ChildRead(E, f, at, j, depth)
             && ReadAt(f.b, at + j * f.rs, f.rs) == Ok(child)
    ensures ReadSomehow(E, f, child, depth + 1)
  {
    hide Parse, ReadAt, Sound;
    var budget: int :| ParseChild(E, f, at, j, depth, budget).0.Ok?;
    assert Parse(E, f, child, depth + 1, budget).0.Ok?;
  }

  lemma {:induction false} ItemsRead(E: Env, f: File, at: nat, i: nat, count: nat, depth: nat, budget: int)
    requires Sound(f) && depth <= MAX_DEPTH && i <= count && ParseItems(E, f, at, i, count, depth, budget).0.Ok?
    ensures forall j | i <= j < count :: ChildRead(E, f, at, j, depth)
    decreases count - i
  {
    hide ParseChild, Sound;
    if i < count {
      var (v, left) := ParseChild(E, f, at, i, depth, budget);
      ItemsRead(E, f, at, i + 1, count, depth, left);
      forall j | i <= j < count ensures ChildRead(E, f, at, j, depth) {
        if j == i { assert ParseChild(E, f, at, i, depth, budget).0.Ok?; }
      }
    }
  }

  ghost predicate PairRead(E: Env, f: File, at: nat, j: nat, count: nat, depth: nat)
    requires Sound(f) && depth <= MAX_DEPTH
  {
    ChildRead(E, f, at, j, depth) && ChildRead(E, f, at, j + count, depth)
  }

  lemma {:induction false} PairsRead(E: Env, f: File, at: nat, i: nat, count: nat, m: map<seq<Byte>, Value>,
          depth: nat, budget: int)
    requires Sound(f) && depth <= MAX_DEPTH && i <= count && ParsePairs(E, f, at, i, count, m, depth, budget).0.Ok?
    ensures forall j | i <= j < count :: PairRead(E, f, at, j, count, depth)
    decreases count - i
  {
    hide ParseChild, Sound;
    if i < count {
      var (k, left) := ParseChild(E, f, at, i, depth, budget);
      var (v, rest) := ParseChild(E, f, at, i + count, depth, left);
      PairsRead(E, f, at, i + 1, count, m[k.value.s := v.value], depth, rest);
      forall j | i <= j < count ensures PairRead(E, f, at, j, count, depth) {
        if j == i {
          assert ParseChild(E, f, at, i, depth, budget).0.Ok? && ParseChild(E, f, at, i + count, depth, left).0.Ok?;
        }
      }
    }
  }

  /** An object that is read has all its references read one level below. */
  lemma ChildrenRead(E: Env, f: File, id: nat, depth: nat, budget: int, child: nat)
    requires Sound(f) && Parse(E, f, id, depth, budget).0.Ok? && Refers(f, id, child)
    ensures depth <= MAX_DEPTH && ReadSomehow(E, f, child, depth + 1)
  {
    hide HeadOf, ReadLeaf, ReadAt, ParseItems, ParsePairs, Sound, ReadSomehow, ChildRead;
    var h := HeadOf(f, id).value;
    var j: nat :| RefersAt(f, h, j, child);
    if h.kind == 10 {
      ItemsRead(E, f, h.at, 0, h.count, depth, budget - 1);
    } else {
      PairsRead(E, f, h.at, 0, h.count, map[], depth, budget - 1);
      assert PairRead(E, f, h.at, if j < h.count then j else j - h.count, h.count, depth);
    }
    ReadOfChild(E, f, h.at, j, depth, child);
  }

  lemma {:induction false} WalksAreShort(E: Env, f: File, walk: seq<nat>, depth: nat)
    requires Sound(f) && Walk(f, walk) && ReadSomehow(E, f, walk[0], depth)
    ensures depth + |walk| - 1 <= MAX_DEPTH
    decreases |walk|
  {
    var budget: int :| Parse(E, f, walk[0], depth, budget).0.Ok?;
    TooDeep(E, f, walk[0], depth, budget);
    hide Parse, Refers, Sound;
    if |walk| > 1 {
      assert RefersNext(f, walk, 0);
      ChildrenRead(E, f, walk[0], depth, budget, walk[1]);
      var rest := walk[1..];
      forall k: nat | k + 1 < |rest| ensures RefersNext(f, rest, k) { assert RefersNext(f, walk, k + 1); }
      WalksAreShort(E, f, rest, depth + 1);
    }
  }

  lemma TooDeep(E: Env, f: File, id: nat, depth: nat, budget: int)
    requires Sound(f) && Parse(E, f, id, depth, budget).0.Ok?
    ensures depth <= MAX_DEPTH
  {
    hide HeadOf, ReadLeaf, ParseItems, ParsePairs;
  }

  /******* Circles *******/

  /** The walk carried on round its circle, from the j-th object back to the i-th. */
  function Round(walk: seq<nat>, i: nat, j: nat, k: nat): nat
    requires i < j < |walk|
  {
    if k <= j then walk[k] else Round(walk, i, j, k - (j - i))
  }

  lemma {:induction false} RoundRefers(f: File, walk: seq<nat>, i: nat, j: nat, k: nat)
    requires Sound(f) && Walk(f, walk) && i < j < |walk| && walk[i] == walk[j]
    ensures Refers(f, Round(walk, i, j, k), Round(walk, i, j, k + 1))
  {
    hide Refers, Sound;
    if k < j {
      assert RefersNext(f, walk, k);
    } else if k == j {
      assert RefersNext(f, walk, i);
      assert Round(walk, i, j, k + 1) == walk[i + 1];
    } else {
      RoundRefers(f, walk, i, j, k - (j - i));
    }
  }

  /** A file is refused when its root leads to an object that leads back to itself. */
  lemma CyclesAreRefused(E: Env, b: seq<Byte>, walk: seq<nat>, i: nat, j: nat)
    requires Open(b).Ok? && Walk(Open(b).value.0, walk) && walk[0] == Open(b).value.1
    requires i < j < |walk| && walk[i] == walk[j]
    ensures Decode(E, b).Bad?
  {
    hide Open, Refers, Parse, Sound;
    var (f, root) := Open(b).value;
    var long := seq(34, k requires 0 <= k < 34 => Round(walk, i, j, k));
    forall k: nat | k + 1 < |long| ensures RefersNext(f, long, k) { RoundRefers(f, walk, i, j, k); }
    if Decode(E, b).Ok? {
      assert Parse(E, f, root, 0, MAX_OBJECTS).0.Ok?;
      WalksAreShort(E, f, long, 0);
    }
  }
}
