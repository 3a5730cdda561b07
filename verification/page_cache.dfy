/**
 The cache of built pages (internal/app/page_cache.go) and the requests that read and fill
 it while the store publishes new states. A step of a request is one of its critical
 sections, or the building of a page outside them.
 */
module PageCache {
  import opened Collections

  datatype Entry = Entry(revision: nat, data: string)

  /** `order` is the order of first insertion. */
  datatype Pages = Pages(entries: map<string, Entry>, order: seq<string>, size: int)

  const MAX_ENTRIES := 120

  const MAX_BYTES := 20_000_000

  function Total(entries: map<string, Entry>, order: seq<string>): nat
    requires forall k | k in order :: k in entries
  {
    if order == [] then 0 else |entries[order[0]].data| + Total(entries, order[1..])
  }

  ghost predicate Listed(entries: map<string, Entry>, order: seq<string>) {
    Distinct(order) && forall k :: k in entries <==> k in order
  }

  /** Each cached key is listed once, and the size is that of the entries. */
  ghost predicate Valid(p: Pages) { Listed(p.entries, p.order) && p.size == Total(p.entries, p.order) }

  predicate Over(p: Pages) { |p.order| > MAX_ENTRIES || p.size > MAX_BYTES }

  function Dropped(p: Pages): Pages
    requires p.order != [] && p.order[0] in p.entries
  {
    Pages(p.entries - {p.order[0]}, p.order[1..], p.size - |p.entries[p.order[0]].data|)
  }

  lemma {:induction false} TotalWithout(entries: map<string, Entry>, order: seq<string>, key: string)
    requires (forall k | k in order :: k in entries) && key !in order
    ensures Total(entries - {key}, order) == Total(entries, order)
  {
    if order != [] { TotalWithout(entries, order[1..], key); }
  }

  lemma {:induction false} TotalWith(entries: map<string, Entry>, order: seq<string>, key: string, e: Entry)
    requires (forall k | k in order :: k in entries) && Distinct(order)
    ensures Total(entries[key := e], order) == Total(entries, order) +
            if key in order then |e.data| - |entries[key].data| else 0
  {
    if order != [] {
      TotalWith(entries, order[1..], key, e);
      assert order[0] !in order[1..];
    }
  }

  lemma {:induction false} TotalAppend(entries: map<string, Entry>, order: seq<string>, key: string)
    requires (forall k | k in order :: k in entries) && key in entries
    ensures Total(entries, order + [key]) == Total(entries, order) + |entries[key].data|
  {
    if order == [] {
      assert [] + [key] == [key] && [key][1..] == [];
    } else {
      assert (order + [key])[1..] == order[1..] + [key];
      TotalAppend(entries, order[1..], key);
    }
  }

  /** The eviction loop always has something to drop, and dropping keeps the cache valid. */
  lemma DroppingIsSafe(p: Pages)
    requires Valid(p) && Over(p)
    ensures p.order != [] && p.order[0] in p.entries && Valid(Dropped(p))
  {
    assert p.order != [];
    var first, rest := p.order[0], p.order[1..];
    assert first in p.order && first !in rest;
    TotalWithout(p.entries, rest, first);
    assert forall k :: k in p.order <==> k == first || k in rest;
  }

  /** The eviction loop; the last two conditions are those under which it would not go out of bounds. */
  function Evicted(p: Pages): Pages
    decreases |p.order|
  {
    if Over(p) && p.order != [] && p.order[0] in p.entries then Evicted(Dropped(p)) else p
  }

  /** Eviction ends within both bounds, drops the oldest only, and no more than it must. */
  lemma {:induction false} EvictionIsTight(p: Pages) returns (n: nat)
    requires Valid(p)
    ensures Valid(Evicted(p)) && !Over(Evicted(p))
    ensures |Evicted(p).order| <= 120 && Evicted(p).size <= 20_000_000
    ensures n <= |p.order| && Evicted(p).order == p.order[n..]
    ensures forall k | k in Evicted(p).entries :: k in p.entries && Evicted(p).entries[k] == p.entries[k]
    ensures n > 0 ==> |p.order| - (n - 1) > 120 || Total(p.entries, p.order[n - 1..]) > 20_000_000
    decreases |p.order|
  {
    if Over(p) {
      DroppingIsSafe(p);
      var m := EvictionIsTight(Dropped(p));
      n := m + 1;
      var rest := p.order[1..];
      assert rest[m..] == p.order[n..];
      if m > 0 {
        assert rest[m - 1..] == p.order[n - 1..];
        assert p.order[0] !in rest[m - 1..];
        TotalWithout(p.entries, rest[m - 1..], p.order[0]);
      } else {
        assert p.order[0..] == p.order;
      }
    } else {
      n := 0;
      assert p.order[0..] == p.order;
    }
  }

  function Stored(p: Pages, key: string, e: Entry): Pages {
    if key in p.entries
    then Pages(p.entries[key := e], p.order, p.size - |p.entries[key].data| + |e.data|)
    else Pages(p.entries[key := e], p.order + [key], p.size + |e.data|)
  }

  lemma StoredIsValid(p: Pages, key: string, e: Entry)
    requires Valid(p)
    ensures Valid(Stored(p, key, e))
  {
    TotalWith(p.entries, p.order, key, e);
    if key !in p.entries {
      TotalAppend(p.entries[key := e], p.order, key);
      assert forall k :: k in p.order + [key] <==> k in p.order || k == key;
    }
  }

  function Inserted(p: Pages, key: string, e: Entry): Pages { Evicted(Stored(p, key, e)) }

  /** A page that fits and was not cached yet is cached afterwards. */
  lemma NewPageIsCached(p: Pages, key: string, e: Entry)
    requires Valid(p) && key !in p.entries && |e.data| <= 20_000_000
    ensures key in Inserted(p, key, e).entries && Inserted(p, key, e).entries[key] == e
  {
    StoredIsValid(p, key, e);
    var q := Stored(p, key, e);
    var n := EvictionIsTight(q);
    assert q.order[|q.order| - 1..] == [key];
    assert Total(q.entries, [key]) == |e.data| + Total(q.entries, [key][1..]);
    if n < |q.order| { assert q.order[n..][|q.order| - 1 - n] == key; }
  }

  /**
   Inserting: the page takes the place its key had, or the last one; the oldest go, and only
   while a bound is exceeded. Every page that stays is as it was.
   */
  lemma InsertMeans(p: Pages, key: string, e: Entry) returns (n: nat)
    requires Valid(p)
    ensures var q := Inserted(p, key, e);
            var order := if key in p.entries then p.order else p.order + [key];
            && n <= |order| && q.order == order[n..] && (forall k :: k in q.entries <==> k in order[n..])
            && (forall k | k in q.entries ::
                  if k == key then q.entries[k] == e else k in p.entries && q.entries[k] == p.entries[k])
            && Valid(q) && (n > 0 ==> TooMuch(p.entries[key := e], order[n - 1..]))
  {
    hide Evicted, Total;
    StoredIsValid(p, key, e);
    n := EvictionIsTight(Stored(p, key, e));
  }

  /** More than 120 pages, or more than 20,000,000 bytes. */
  ghost predicate TooMuch(entries: map<string, Entry>, order: seq<string>) {
    |order| > 120 || ((forall k | k in order :: k in entries) && Total(entries, order) > 20_000_000)
  }

  class Cache {
    var entries: map<string, Entry>
    var order: seq<string>
    var size: int

    function View(): Pages
      reads this
    {
      Pages(entries, order, size)
    }

    /** servePage's second critical section. */
    method Insert(key: string, entry: Entry)
      requires Valid(View())
      modifies this
      ensures View() == Inserted(old(View()), key, entry)
      ensures Valid(View()) && |order| <= 120 && size <= 20_000_000
    {
      hide Valid;
      StoredIsValid(View(), key, entry);
      ghost var stored := Stored(View(), key, entry);
      if key in entries {
        size := size - |entries[key].data|;
      } else {
        order := order + [key];
      }
      entries := entries[key := entry];
      size := size + |entry.data|;
      ghost var n := EvictionIsTight(stored);
      while |order| > MAX_ENTRIES || size > MAX_BYTES
        invariant Valid(View()) && Evicted(View()) == Evicted(stored)
        decreases |order|
      {
        DroppingIsSafe(View());
        var oldest := order[0];
        order := order[1..];
        size := size - |entries[oldest].data|;
        entries := entries - {oldest};
      }
    }
  }

  /******* Requests *******/

  /** `since`: the revision current when the request arrived. */
  datatype Request =
    | Asked(key: string, since: nat)
    | Reading(key: string, since: nat, revision: nat)
    | Missed(key: string, since: nat, revision: nat)
    | Built(key: string, since: nat, revision: nat, data: string)
    | Served(key: string, since: nat, revision: nat, data: string)

  /** `states[i]` is the state published as revision i. */
  datatype Server<S> = Server(states: seq<S>, pages: Pages, requests: map<nat, Request>)

  datatype Step<S> =
    | Publish(state: S)
    | Ask(request: nat, key: string)
    | ReadState(request: nat)
    | Lookup(request: nat)
    | Build(request: nat)
    | Insert(request: nat)

  predicate May<S>(s: Server<S>, a: Step<S>) {
    match a
    case Publish(_) => true
    case Ask(r, _) => r !in s.requests && s.states != []
    case ReadState(r) => r in s.requests && s.requests[r].Asked? && s.states != []
    case Lookup(r) => r in s.requests && s.requests[r].Reading?
    case Build(r) => r in s.requests && s.requests[r].Missed? && s.requests[r].revision < |s.states|
    case Insert(r) => r in s.requests && s.requests[r].Built?
  }

  ghost function Apply<S>(s: Server<S>, a: Step<S>, build: (string, S) -> string): Server<S>
    requires May(s, a)
  {
    match a
    case Publish(state) => s.(states := s.states + [state])
    case Ask(r, key) => s.(requests := s.requests[r := Asked(key, |s.states| - 1)])
    case ReadState(r) =>
        s.(requests := s.requests[r := Reading(s.requests[r].key, s.requests[r].since, |s.states| - 1)])
    case Lookup(r) =>
      var Reading(key, since, revision) := s.requests[r];
      if key in s.pages.entries && s.pages.entries[key].revision == revision
      then s.(requests := s.requests[r := Served(key, since, revision, s.pages.entries[key].data)])
      else s.(requests := s.requests[r := Missed(key, since, revision)])
    case Build(r) =>
      var Missed(key, since, revision) := s.requests[r];
      s.(requests := s.requests[r := Built(key, since, revision, build(key, s.states[revision]))])
    case Insert(r) =>
      var Built(key, since, revision, data) := s.requests[r];
      s.(pages := Inserted(s.pages, key, Entry(revision, data)),
          requests := s.requests[r := Served(key, since, revision, data)])
  }

  /** A page cached for the revision read is served as it is; any other is built, cached and served. */
  lemma RequestMeans<S>(s: Server<S>, r: nat, build: (string, S) -> string)
    requires Valid(s.pages) && s.states != [] && r in s.requests
    requires s.requests[r].Missed? ==> s.requests[r].revision < |s.states|
    ensures s.requests[r].Asked? ==>
              May(s, ReadState(r)) && Apply(s, ReadState(r), build) ==
              s.(requests := s.requests[r := Reading(s.requests[r].key, s.requests[r].since, |s.states| - 1)])
    ensures s.requests[r].Reading? ==>
              var Reading(key, since, revision) := s.requests[r];
              var hit := key in s.pages.entries && s.pages.entries[key].revision == revision;
              && May(s, Lookup(r))
              && Apply(s, Lookup(r), build) ==
                 s.(requests := s.requests[r := if hit then Served(key, since, revision, s.pages.entries[key].data)
                                                else Missed(key, since, revision)])
    ensures s.requests[r].Missed? ==>
              var Missed(key, since, revision) := s.requests[r];
              && May(s, Build(r))
              && Apply(s, Build(r), build) ==
                 s.(requests := s.requests[r := Built(key, since, revision, build(key, s.states[revision]))])
    ensures s.requests[r].Built? ==>
              var Built(key, since, revision, data) := s.requests[r];
              var t := Apply(s, Insert(r), build);
              && May(s, Insert(r)) && t == s.(pages := t.pages, requests := t.requests)
              && t.requests == s.requests[r := Served(key, since, revision, data)]
              && (key !in s.pages.entries && |data| <= 20_000_000 ==>
                    key in t.pages.entries && t.pages.entries[key] == Entry(revision, data))
  {
    if s.requests[r].Built? {
      var Built(key, since, revision, data) := s.requests[r];
      if key !in s.pages.entries && |data| <= 20_000_000 { NewPageIsCached(s.pages, key, Entry(revision, data)); }
    }
    hide Valid, Inserted;
  }

  /** A new state becomes the next revision; a request that arrives remembers the one then current. */
  lemma ArrivalMeans<S>(s: Server<S>, state: S, r: nat, key: string, build: (string, S) -> string)
    requires s.states != [] && r !in s.requests
    ensures May(s, Publish(state)) && May(s, Ask(r, key))
    ensures var t := Apply(s, Publish(state), build);
            t.pages == s.pages && t.requests == s.requests && |t.states| == |s.states| + 1
            && t.states[|s.states|] == state && t.states[..|s.states|] == s.states
    ensures var t := Apply(s, Ask(r, key), build);
            t.pages == s.pages && t.states == s.states && r in t.requests && t.requests - {r} == s.requests
            && t.requests[r] == Asked(key, |s.states| - 1)
  {}

  ghost predicate FreshEntry<S>(key: string, e: Entry, states: seq<S>, build: (string, S) -> string) {
    e.revision < |states| && e.data == build(key, states[e.revision])
  }

  ghost predicate FreshRequest<S>(q: Request, states: seq<S>, build: (string, S) -> string) {
    && q.since < |states|
    && (!q.Asked? ==> q.since <= q.revision < |states|)
    && (q.Built? || q.Served? ==> q.data == build(q.key, states[q.revision]))
  }

  /** Cached and served pages are what building them from the state of their revision gives. */
  ghost predicate Inv<S>(s: Server<S>, build: (string, S) -> string) {
    && s.states != [] && Valid(s.pages) && !Over(s.pages)
    && (forall k | k in s.pages.entries :: FreshEntry(k, s.pages.entries[k], s.states, build))
    && (forall r | r in s.requests :: FreshRequest(s.requests[r], s.states, build))
  }

  lemma StepKeepsInv<S>(s: Server<S>, a: Step<S>, build: (string, S) -> string)
    requires Inv(s, build) && May(s, a)
    ensures Inv(Apply(s, a, build), build)
  {
    hide Evicted, Valid;
    match a
    case Insert(r) =>
      var Built(key, since, revision, data) := s.requests[r];
      StoredIsValid(s.pages, key, Entry(revision, data));
      var n := EvictionIsTight(Stored(s.pages, key, Entry(revision, data)));
      assert FreshRequest(s.requests[r], s.states, build);
    case Build(r) => assert FreshRequest(s.requests[r], s.states, build);
    case Lookup(r) => assert FreshRequest(s.requests[r], s.states, build);
    case ReadState(r) => assert FreshRequest(s.requests[r], s.states, build);
    case Publish(state) =>
      var t := Apply(s, a, build);
      forall k | k in t.pages.entries ensures FreshEntry(k, t.pages.entries[k], t.states, build) {
        assert FreshEntry(k, s.pages.entries[k], s.states, build);
      }
      forall r | r in t.requests ensures FreshRequest(t.requests[r], t.states, build) {
        assert FreshRequest(s.requests[r], s.states, build);
      }
    case Ask(_, _) =>
  }

  ghost predicate Initial<S>(s: Server<S>) {
    |s.states| == 1 && s.pages == Pages(map[], [], 0) && s.requests == map[]
  }

  ghost predicate StepAt<S>(servers: seq<Server<S>>, steps: seq<Step<S>>, build: (string, S) -> string, i: nat)
    requires i < |steps| && |servers| == |steps| + 1
  {
    May(servers[i], steps[i]) && servers[i + 1] == Apply(servers[i], steps[i], build)
  }

  /** Requests and publications in any interleaving. */
  ghost predicate Run<S>(servers: seq<Server<S>>, steps: seq<Step<S>>, build: (string, S) -> string) {
    && |servers| == |steps| + 1 && Initial(servers[0])
    && forall i | 0 <= i < |steps| :: StepAt(servers, steps, build, i)
  }

  lemma {:induction false} RunKeepsInv<S>(servers: seq<Server<S>>, steps: seq<Step<S>>, build: (string, S) -> string,
          i: nat)
    requires Run(servers, steps, build) && i < |servers|
    ensures Inv(servers[i], build)
  {
    if i > 0 {
      hide Inv, Apply, Initial, May;
      RunKeepsInv(servers, steps, build, i - 1);
      assert StepAt(servers, steps, build, i - 1);
      StepKeepsInv(servers[i - 1], steps[i - 1], build);
    }
  }

  /**
   In every interleaving: what is served is the page built from the state of the revision
   read, a revision no older than the one current when the request arrived; and the cache
   stays within its bounds.
   */
  lemma ServedPagesAreFresh<S>(servers: seq<Server<S>>, steps: seq<Step<S>>, build: (string, S) -> string, i: nat,
          r: nat)
    requires Run(servers, steps, build) && i < |servers| && r in servers[i].requests && servers[i].requests[r].Served?
    ensures var q := servers[i].requests[r];
            q.since <= q.revision < |servers[i].states| && q.data == build(q.key, servers[i].states[q.revision])
    ensures |servers[i].pages.order| <= 120 && 0 <= servers[i].pages.size <= 20_000_000
  {
    RunKeepsInv(servers, steps, build, i);
    assert FreshRequest(servers[i].requests[r], servers[i].states, build);
  }
}
