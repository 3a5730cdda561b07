/**
 Leases of the transcode cache (internal/app/media.go). A step of the state machine is one
 critical section of the cache's mutex; files, per-key lock tokens and outstanding leases
 are part of the state.
 */
module TranscodeCache {
  import opened Collections

  datatype Entry = Entry(size: nat, used: int, active: int, pending: bool)

  type Entries = map<string, Entry>

  /** A cached file under its key, or the `.part` file of one conversion. */
  datatype Name = Final(key: string) | Part(job: nat)

  /** What Acquire handed out and what its file must keep holding. */
  datatype Lease = Shared(key: string, content: nat) | Private(job: nat, content: nat)

  /** A caller of Acquire that owns the key's lock token. */
  datatype Worker =
    | Holding(key: string)
    | Converting(key: string, job: nat)
    | Leaving(key: string, job: nat, retained: bool)
    | Served(key: string)             // a hit: has its lease, the token is still to be returned

  datatype State = State(
    entries: Entries,
    jobs: map<nat, bool>,             // running conversions and private files; true once cleared
    tokens: map<string, bool>,        // per-key channel: true while its token is available
    workers: map<nat, Worker>,
    leases: map<nat, Lease>,
    disk: map<Name, nat>)             // file contents, abstractly

  /******* Trimming *******/

  /** The order sort.Slice leaves: every key once, least recently used first. */
  ghost predicate UseOrder(entries: Entries, order: seq<string>) {
    && (forall k :: k in entries <==> k in order)
    && (forall i, j | 0 <= i < j < |order| :: order[i] != order[j])
    && (forall i, j | 0 <= i < j < |order| :: order[i] in entries && order[j] in entries ==>
       entries[order[i]].used <= entries[order[j]].used)
  }

  ghost function Total(m: Entries): nat {
    if m == map[] then 0 else var k :| k in m; m[k].size + Total(m - {k})
  }

  lemma {:induction false} TotalRemove(m: Entries, k: string)
    requires k in m
    ensures Total(m) == m[k].size + Total(m - {k})
    decreases m
  {
    var c :| c in m && Total(m) == m[c].size + Total(m - {c});
    if c != k {
      TotalRemove(m - {c}, k);
      TotalRemove(m - {k}, c);
      assert m - {c} - {k} == m - {k} - {c};
    }
  }

  predicate Evicts(e: Entry, k: string, used: int, limit: int, stuck: set<string>) {
    (e.pending || used > limit) && e.active <= 0 && k !in stuck
  }

  /** trimLocked's loop; files in `stuck` cannot be removed. */
  function TrimFrom(entries: Entries, used: int, order: seq<string>, limit: int, stuck: set<string>): Entries {
    if order == [] then entries
    else
      var k, rest := order[0], order[1..];
      if k in entries && Evicts(entries[k], k, used, limit, stuck)
      then TrimFrom(entries - {k}, used - entries[k].size, rest, limit, stuck)
      else TrimFrom(entries, used, rest, limit, stuck)
  }

  ghost function Trimmed(entries: Entries, order: seq<string>, limit: int, stuck: set<string>): Entries {
    TrimFrom(entries, Total(entries), order, limit, stuck)
  }

  /** Removing entries removes nothing in use and changes nothing else. */
  ghost predicate Keeps(before: Entries, after: Entries) {
    && after.Keys <= before.Keys
    && (forall k | k in after :: after[k] == before[k])
    && (forall k | k in before && before[k].active > 0 :: k in after)
  }

  lemma {:induction false} TrimKeeps(entries: Entries, used: int, order: seq<string>, limit: int, stuck: set<string>)
    ensures Keeps(entries, TrimFrom(entries, used, order, limit, stuck))
    ensures forall k | k in entries && k !in order :: k in TrimFrom(entries, used, order, limit, stuck)
  {
    if order != [] {
      var k := order[0];
      if k in entries && Evicts(entries[k], k, used, limit, stuck) {
        TrimKeeps(entries - {k}, used - entries[k].size, order[1..], limit, stuck);
      } else {
        TrimKeeps(entries, used, order[1..], limit, stuck);
      }
    }
  }

  /** No idle pending entry whose file can be removed is left. */
  lemma {:induction false} TrimDropsPending(entries: Entries, used: int, order: seq<string>, limit: int,
          stuck: set<string>, k: string)
    requires k in order && k in entries && entries[k].pending && entries[k].active <= 0 && k !in stuck
    ensures k !in TrimFrom(entries, used, order, limit, stuck)
  {
    var h, rest := order[0], order[1..];
    assert order == [h] + rest;
    var evict := h in entries && Evicts(entries[h], h, used, limit, stuck);
    var next, left := if evict then entries - {h} else entries, if evict then used - entries[h].size else used;
    if h == k {
      TrimKeeps(next, left, rest, limit, stuck);
    } else {
      TrimDropsPending(next, left, rest, limit, stuck, k);
    }
  }

  /** The total is within the limit unless every entry left is in use or its file cannot be removed. */
  lemma {:induction false} TrimReachesLimit(entries: Entries, used: int, order: seq<string>, limit: int,
          stuck: set<string>, k: string)
    requires used == Total(entries) && Distinct(order)
    requires k in order && k in entries && k in TrimFrom(entries, used, order, limit, stuck) && entries[k].active <= 0
             && k !in stuck
    ensures Total(TrimFrom(entries, used, order, limit, stuck)) <= limit
  {
    var h, rest := order[0], order[1..];
    assert order == [h] + rest;
    var evict := h in entries && Evicts(entries[h], h, used, limit, stuck);
    var next, left := if evict then entries - {h} else entries, if evict then used - entries[h].size else used;
    if evict { TotalRemove(entries, h); }
    TrimKeeps(next, left, rest, limit, stuck);
    TrimTotal(next, left, rest, limit, stuck);
    if k != h { TrimReachesLimit(next, left, rest, limit, stuck, k); }
  }

  /** Eviction goes by age: an entry evicted for space leaves no idle older one behind whose file can be removed. */
  lemma {:induction false} TrimByAge(entries: Entries, used: int, order: seq<string>, limit: int, stuck: set<string>,
          i: nat, j: nat)
    requires used == Total(entries) && Distinct(order) && i < j < |order|
    requires order[i] in entries && entries[order[i]].active <= 0 && order[i] !in stuck
    requires order[j] in entries && !entries[order[j]].pending
             && order[j] !in TrimFrom(entries, used, order, limit, stuck)
    ensures order[i] !in TrimFrom(entries, used, order, limit, stuck)
  {
    var h, rest := order[0], order[1..];
    var evict := h in entries && Evicts(entries[h], h, used, limit, stuck);
    var next, left := if evict then entries - {h} else entries, if evict then used - entries[h].size else used;
    if evict { TotalRemove(entries, h); }
    if i == 0 {
      if evict {
        TrimKeeps(next, left, rest, limit, stuck);
      } else {
        EvictedForSpace(entries, used, rest, limit, stuck, order[j]);
      }
    } else {
      TrimByAge(next, left, rest, limit, stuck, i - 1, j - 1);
    }
  }

  /** The running total is the total of what is left; it never grows. */
  lemma {:induction false} TrimTotal(entries: Entries, used: int, order: seq<string>, limit: int, stuck: set<string>)
    requires used == Total(entries)
    ensures Total(TrimFrom(entries, used, order, limit, stuck)) <= used
  {
    if order != [] {
      var k := order[0];
      if k in entries && Evicts(entries[k], k, used, limit, stuck) {
        TotalRemove(entries, k);
        TrimTotal(entries - {k}, used - entries[k].size, order[1..], limit, stuck);
      } else {
        TrimTotal(entries, used, order[1..], limit, stuck);
      }
    }
  }

  /** Within the limit only pending entries are evicted. */
  lemma {:induction false} EvictedForSpace(entries: Entries, used: int, order: seq<string>, limit: int,
          stuck: set<string>, k: string)
    requires used == Total(entries) && used <= limit && k in entries && !entries[k].pending
    ensures k in TrimFrom(entries, used, order, limit, stuck)
  {
    if order != [] {
      var h := order[0];
      if h in entries && Evicts(entries[h], h, used, limit, stuck) {
        TotalRemove(entries, h);
        EvictedForSpace(entries - {h}, used - entries[h].size, order[1..], limit, stuck, k);
      } else {
        EvictedForSpace(entries, used, order[1..], limit, stuck, k);
      }
    }
  }

  /******* The steps *******/

  /** `order` and `stuck`: what sorting and file removal come up with during a trim. */
  datatype Action =
    | Take(worker: nat, key: string)                      // receive the key's lock token
    | GiveUp(worker: nat)                                 // cancelled while holding the token
    | Hit(worker: nat, lease: nat, now: int)              // a usable entry: lease it
    | Begin(worker: nat, job: nat, content: nat)          // no usable entry: start converting
    | Fail(worker: nat)                                   // conversion failed or was cancelled
    | Finish(worker: nat, lease: nat, size: nat, limit: int, now: int, order: seq<string>, stuck: set<string>,
        renamed: bool)
    | Leave(worker: nat)                                  // deferred: drop the job, return the token
    | Release(lease: nat, now: int)
    | Trim(limit: int, order: seq<string>, stuck: set<string>)
    | Clear(order: seq<string>, stuck: set<string>)

  function WithoutFiles(disk: map<Name, nat>, before: Entries, after: Entries): map<Name, nat> {
    map n | n in disk && !(n.Final? && n.key in before && n.key !in after) :: disk[n]
  }

  ghost function TrimStep(s: State, limit: int, order: seq<string>, stuck: set<string>): State {
    var after := Trimmed(s.entries, order, limit, stuck);
    s.(entries := after, disk := WithoutFiles(s.disk, s.entries, after))
  }

  /** The keys from `i` on are distinct and still have entries. */
  ghost predicate Ahead(entries: Entries, order: seq<string>, i: nat) {
    && (forall k | i <= k < |order| :: order[k] in entries)
    && (forall j, k | i <= j < k < |order| :: order[j] != order[k])
  }

  lemma AllAhead(entries: Entries, order: seq<string>)
    requires UseOrder(entries, order)
    ensures Ahead(entries, order, 0)
  {}

  lemma NextAhead(entries: Entries, order: seq<string>, i: nat)
    requires Ahead(entries, order, i) && i < |order|
    ensures order[i] in entries
    ensures Ahead(entries, order, i + 1) && Ahead(entries - {order[i]}, order, i + 1)
  {}

  lemma TrimOne(entries: Entries, used: int, order: seq<string>, i: nat, limit: int, stuck: set<string>)
    requires i < |order| && order[i] in entries
    ensures var k := order[i];
            TrimFrom(entries, used, order[i..], limit, stuck) ==
            if Evicts(entries[k], k, used, limit, stuck)
            then TrimFrom(entries - {k}, used - entries[k].size, order[i + 1..], limit, stuck)
            else TrimFrom(entries, used, order[i + 1..], limit, stuck)
  {
    assert order[i..][1..] == order[i + 1..];
  }

  lemma TrimNone(entries: Entries, used: int, order: seq<string>, limit: int, stuck: set<string>)
    ensures TrimFrom(entries, used, order[|order|..], limit, stuck) == entries
  {}

  lemma NoneWithout(disk: map<Name, nat>, entries: Entries)
    ensures WithoutFiles(disk, entries, entries) == disk
  {}

  lemma OneWithout(disk: map<Name, nat>, before: Entries, entries: Entries, k: string)
    requires k in entries && k in before
    ensures WithoutFiles(disk, before, entries - {k}) == WithoutFiles(disk, before, entries) - {Final(k)}
  {}

  function Spare(limit: int, size: nat): int { if limit - size > 0 then limit - size else 0 }

  ghost predicate Enabled(s: State, a: Action) {
    match a
    case Take(w, key) => w !in s.workers && (key in s.tokens ==> s.tokens[key])
    case GiveUp(w) => w in s.workers && s.workers[w].Holding?
    case Hit(w, l, _) =>
        w in s.workers && s.workers[w].Holding? && l !in s.leases && Usable(s.entries, s.workers[w].key)
    case Begin(w, job, _) =>
      && w in s.workers && s.workers[w].Holding? && !Usable(s.entries, s.workers[w].key)
      && job !in s.jobs && Part(job) !in s.disk
    case Fail(w) => w in s.workers && s.workers[w].Converting?
    case Finish(w, l, size, limit, _, order, _, _) =>
      w in s.workers && s.workers[w].Converting? && l !in s.leases && UseOrder(s.entries, order)
    case Leave(w) => w in s.workers && (s.workers[w].Leaving? || s.workers[w].Served?)
    case Release(l, _) => l in s.leases
    case Trim(_, order, _) => UseOrder(s.entries, order)
    case Clear(order, _) => UseOrder(s.entries, order)
  }

  predicate Usable(entries: Entries, key: string) { key in entries && !entries[key].pending }

  function Marked(entries: Entries): Entries { map k | k in entries :: entries[k].(pending := true) }

  /** The outcome of a finished conversion once the cache has been trimmed for it. */
  datatype Outcome = Kept | Cached | Lost

  ghost function OutcomeOf(t: State, key: string, job: nat, size: nat, limit: int, renamed: bool): Outcome {
    if Total(t.entries) + size > limit || (job in t.jobs && t.jobs[job]) then Kept
    else if key in t.entries && t.entries[key].active > 0 then Kept
    else if renamed then Cached
    else Lost
  }

  function ContentOf(disk: map<Name, nat>, n: Name): nat { if n in disk then disk[n] else 0 }

  ghost function FinishStep(t: State, w: nat, l: nat, size: nat, limit: int, now: int, renamed: bool): State
    requires w in t.workers && t.workers[w].Converting?
  {
    var Converting(key, job) := t.workers[w];
    var content := ContentOf(t.disk, Part(job));
    match OutcomeOf(t, key, job, size, limit, renamed)
    case Kept => t.(leases := t.leases[l := Private(job, content)], workers := t.workers[w := Leaving(key, job, true)])
    case Cached =>
      t.(entries := t.entries[key := Entry(size, now, 1, false)],
         disk := (t.disk - {Part(job)})[Final(key) := content],
         leases := t.leases[l := Shared(key, content)],
         workers := t.workers[w := Leaving(key, job, false)])
    case Lost => t.(disk := t.disk - {Part(job), Final(key)}, workers := t.workers[w := Leaving(key, job, false)])
  }

  ghost function Apply(s: State, a: Action): State
    requires Enabled(s, a)
  {
    match a
    case Take(w, key) => s.(tokens := s.tokens[key := false], workers := s.workers[w := Holding(key)])
    case GiveUp(w) => s.(tokens := s.tokens[s.workers[w].key := true], workers := s.workers - {w})
    case Hit(w, l, now) =>
      var key := s.workers[w].key;
      s.(entries := s.entries[key := s.entries[key].(active := s.entries[key].active + 1, used := now)],
         leases := s.leases[l := Shared(key, ContentOf(s.disk, Final(key)))],
         workers := s.workers[w := Served(key)])
    case Begin(w, job, content) =>
      s.(jobs := s.jobs[job := false], disk := s.disk[Part(job) := content],
          workers := s.workers[w := Converting(s.workers[w].key, job)])
    case Fail(w) =>
      var Converting(key, job) := s.workers[w];
      s.(disk := s.disk - {Part(job)}, workers := s.workers[w := Leaving(key, job, false)])
    case Finish(w, l, size, limit, now, order, stuck, renamed) =>
      FinishStep(TrimStep(s, Spare(limit, size), order, stuck), w, l, size, limit, now, renamed)
    case Leave(w) =>
      var me := s.workers[w];
      var jobs := if OwnsJob(me) then s.jobs - {me.job} else s.jobs;
      s.(jobs := jobs, tokens := s.tokens[me.key := true], workers := s.workers - {w})
    case Release(l, now) =>
      match s.leases[l] {
        case Shared(key, _) =>
          s.(leases := s.leases - {l},
             entries := if key in s.entries
                 then s.entries[key := s.entries[key].(active := s.entries[key].active - 1, used := now)]
                 else s.entries)
        case Private(job, _) => s.(leases := s.leases - {l}, disk := s.disk - {Part(job)}, jobs := s.jobs - {job})
      }
    case Trim(limit, order, stuck) => TrimStep(s, limit, order, stuck)
    case Clear(order, stuck) =>
      TrimStep(s.(entries := Marked(s.entries), jobs := map j | j in s.jobs :: true), 0, order, stuck)
  }

  /******* The invariant *******/

  function Holders(leases: map<nat, Lease>, key: string): set<nat> {
    set l | l in leases && leases[l].Shared? && leases[l].key == key
  }

  /** An entry's Active is the number of its outstanding leases; leased keys have entries. */
  ghost predicate Counted(entries: Entries, leases: map<nat, Lease>) {
    && (forall k | k in entries :: entries[k].active == |Holders(leases, k)|)
    && (forall l | l in leases && leases[l].Shared? :: leases[l].key in entries)
  }

  ghost predicate IntactLease(lease: Lease, disk: map<Name, nat>, jobs: map<nat, bool>) {
    match lease
    case Shared(key, content) => Final(key) in disk && disk[Final(key)] == content
    case Private(job, content) => Part(job) in disk && disk[Part(job)] == content && job in jobs
  }

  /** Every leased file is there with the content it was leased with. */
  ghost predicate Intact(leases: map<nat, Lease>, disk: map<Name, nat>, jobs: map<nat, bool>) {
    forall l | l in leases :: IntactLease(leases[l], disk, jobs)
  }

  /** Usable entries have files. */
  ghost predicate Backed(entries: Entries, disk: map<Name, nat>) { forall k | Usable(entries, k) :: Final(k) in disk }

  /** One owner per lock token. */
  ghost predicate Exclusive(workers: map<nat, Worker>, tokens: map<string, bool>) {
    && (forall w | w in workers :: workers[w].key in tokens && !tokens[workers[w].key])
    && (forall v, w | v in workers && w in workers && v != w :: workers[v].key != workers[w].key)
  }

  /** A worker's conversion has its job, its part file, and no usable entry to overwrite. */
  ghost predicate SoundWorker(w: Worker, entries: Entries, jobs: map<nat, bool>, disk: map<Name, nat>) {
    match w
    case Holding(_) | Served(_) => true
    case Converting(key, job) => job in jobs && Part(job) in disk && !Usable(entries, key)
    case Leaving(_, job, retained) => retained || job in jobs
  }

  predicate OwnsJob(w: Worker) { w.Converting? || (w.Leaving? && !w.retained) }

  /** No job is owned twice, by workers or by private leases. */
  ghost predicate Separate(workers: map<nat, Worker>, leases: map<nat, Lease>) {
    && (forall v, w | v in workers && w in workers && v != w && OwnsJob(workers[v]) && OwnsJob(workers[w]) ::
       workers[v].job != workers[w].job)
    && (forall l, w | l in leases && leases[l].Private? && w in workers && OwnsJob(workers[w]) ::
       leases[l].job != workers[w].job)
    && (forall l, m | l in leases && m in leases && l != m && leases[l].Private? && leases[m].Private? ::
       leases[l].job != leases[m].job)
  }

  ghost predicate Owned(s: State) {
    (forall w | w in s.workers :: SoundWorker(s.workers[w], s.entries, s.jobs, s.disk)) && Separate(s.workers, s.leases)
  }

  ghost predicate Inv(s: State) {
    && Counted(s.entries, s.leases) && Intact(s.leases, s.disk, s.jobs) && Backed(s.entries, s.disk)
    && Exclusive(s.workers, s.tokens) && Owned(s)
  }

  lemma TrimKeepsParts(s: State, limit: int, order: seq<string>, stuck: set<string>)
    ensures var t := TrimStep(s, limit, order, stuck);
            && Keeps(s.entries, t.entries) && t.workers == s.workers && t.leases == s.leases && t.jobs == s.jobs
               && t.tokens == s.tokens
            && (forall n | n in t.disk :: n in s.disk && t.disk[n] == s.disk[n])
            && (forall n | n in s.disk && n !in t.disk :: n.Final? && n.key in s.entries && n.key !in t.entries)
  {
    TrimKeeps(s.entries, Total(s.entries), order, limit, stuck);
  }

  lemma HoldersAdd(leases: map<nat, Lease>, l: nat, key: string, content: nat, k: string)
    requires l !in leases
    ensures |Holders(leases[l := Shared(key, content)], k)| == |Holders(leases, k)| + if k == key then 1 else 0
  {
    var after := leases[l := Shared(key, content)];
    if k == key {
      assert Holders(after, k) == Holders(leases, k) + {l};
    } else {
      assert Holders(after, k) == Holders(leases, k);
    }
  }

  lemma HoldersDrop(leases: map<nat, Lease>, l: nat, k: string)
    requires l in leases
    ensures |Holders(leases - {l}, k)| == |Holders(leases, k)| -
            if leases[l].Shared? && k == leases[l].key then 1 else 0
  {
    if leases[l].Shared? && k == leases[l].key {
      assert Holders(leases - {l}, k) == Holders(leases, k) - {l};
    } else {
      assert Holders(leases - {l}, k) == Holders(leases, k);
    }
  }

  lemma HoldersPrivate(leases: map<nat, Lease>, l: nat, job: nat, content: nat, k: string)
    requires l !in leases
    ensures |Holders(leases[l := Private(job, content)], k)| == |Holders(leases, k)|
  {
    assert Holders(leases[l := Private(job, content)], k) == Holders(leases, k);
  }

  /** A leased key's entry is in use. */
  lemma LeasedIsActive(entries: Entries, leases: map<nat, Lease>, l: nat)
    requires Counted(entries, leases) && l in leases && leases[l].Shared?
    ensures leases[l].key in entries && entries[leases[l].key].active > 0
  {
    assert l in Holders(leases, leases[l].key);
    assert {l} <= Holders(leases, leases[l].key);
    assert |Holders(leases, leases[l].key) - {l}| == |Holders(leases, leases[l].key)| - 1;
  }

  lemma CountedAfterShare(entries: Entries, leases: map<nat, Lease>, l: nat, key: string, content: nat, e: Entry)
    requires Counted(entries, leases) && l !in leases
    requires e.active == 1 + if key in entries then entries[key].active else 0
    ensures Counted(entries[key := e], leases[l := Shared(key, content)])
  {
    forall k
      ensures |Holders(leases[l := Shared(key, content)], k)| == |Holders(leases, k)| + if k == key then 1 else 0
    {
      HoldersAdd(leases, l, key, content, k);
    }
    if key !in entries {
      forall m | m in leases && leases[m].Shared? ensures leases[m].key != key { assert leases[m].key in entries; }
      assert Holders(leases, key) == {};
    }
  }

  lemma CountedAfterPrivate(entries: Entries, leases: map<nat, Lease>, l: nat, job: nat, content: nat)
    requires Counted(entries, leases) && l !in leases
    ensures Counted(entries, leases[l := Private(job, content)])
  {
    forall k
      ensures |Holders(leases[l := Private(job, content)], k)| == |Holders(leases, k)|
    {
      HoldersPrivate(leases, l, job, content, k);
    }
  }

  /** No lease is on a key whose entry is absent or idle. */
  lemma NobodyHolds(entries: Entries, leases: map<nat, Lease>, key: string)
    requires Counted(entries, leases) && (key in entries ==> entries[key].active <= 0)
    ensures forall l | l in leases && leases[l].Shared? :: leases[l].key != key
  {
    forall l | l in leases && leases[l].Shared? ensures leases[l].key != key { LeasedIsActive(entries, leases, l); }
  }

  lemma TrimKeepsInv(s: State, limit: int, order: seq<string>, stuck: set<string>)
    requires Inv(s)
    ensures Inv(TrimStep(s, limit, order, stuck))
  {
    hide TrimStep, Holders;
    TrimKeepsParts(s, limit, order, stuck);
    var t := TrimStep(s, limit, order, stuck);
    forall l | l in s.leases && s.leases[l].Shared?
      ensures s.leases[l].key in t.entries
    {
      LeasedIsActive(s.entries, s.leases, l);
    }
  }

  lemma HitKeepsInv(s: State, w: nat, l: nat, now: int)
    requires Inv(s) && Enabled(s, Hit(w, l, now))
    ensures Inv(Apply(s, Hit(w, l, now)))
  {
    hide Holders, Counted, Exclusive, Separate;
    var key := s.workers[w].key;
    var t := Apply(s, Hit(w, l, now));
    CountedAfterShare(s.entries, s.leases, l, key, ContentOf(s.disk, Final(key)),
        s.entries[key].(active := s.entries[key].active + 1, used := now));
    ServedKeeps(s.workers, s.tokens, s.leases, w, l, ContentOf(s.disk, Final(key)));
    forall v | v in t.workers ensures SoundWorker(t.workers[v], t.entries, t.jobs, t.disk) {
      assert SoundWorker(s.workers[v], s.entries, s.jobs, s.disk);
    }
  }

  /** A worker that is served keeps its token and owns no job. */
  lemma ServedKeeps(workers: map<nat, Worker>, tokens: map<string, bool>, leases: map<nat, Lease>, w: nat, l: nat,
                    content: nat)
    requires w in workers && workers[w].Holding? && l !in leases && Exclusive(workers, tokens)
             && Separate(workers, leases)
    ensures var key := workers[w].key;
            && Exclusive(workers[w := Served(key)], tokens)
            && Separate(workers[w := Served(key)], leases[l := Shared(key, content)])
  {}

  lemma BeginKeepsInv(s: State, w: nat, job: nat, content: nat)
    requires Inv(s) && Enabled(s, Begin(w, job, content))
    ensures Inv(Apply(s, Begin(w, job, content)))
  {
    hide Holders, Counted, Exclusive, Separate;
    var t := Apply(s, Begin(w, job, content));
    forall l | l in s.leases
      ensures IntactLease(t.leases[l], t.disk, t.jobs) && (s.leases[l].Private? ==> s.leases[l].job != job)
    {
      assert IntactLease(s.leases[l], s.disk, s.jobs);
    }
    forall v | v in s.workers
      ensures SoundWorker(t.workers[v], t.entries, t.jobs, t.disk)
              && (OwnsJob(s.workers[v]) ==> s.workers[v].job != job)
    {
      assert SoundWorker(s.workers[v], s.entries, s.jobs, s.disk);
    }
    BeginKeepsApart(s.workers, s.tokens, s.leases, w, job);
  }

  lemma BeginKeepsApart(workers: map<nat, Worker>, tokens: map<string, bool>, leases: map<nat, Lease>, w: nat, job: nat)
    requires Exclusive(workers, tokens) && Separate(workers, leases) && w in workers && workers[w].Holding?
    requires forall v | v in workers && OwnsJob(workers[v]) :: workers[v].job != job
    requires forall l | l in leases && leases[l].Private? :: leases[l].job != job
    ensures var begun := Converting(workers[w].key, job);
            Exclusive(workers[w := begun], tokens) && Separate(workers[w := begun], leases)
  {}

  lemma KeptKeepsInv(t: State, w: nat, l: nat)
    requires Inv(t) && w in t.workers && t.workers[w].Converting? && l !in t.leases
    ensures var Converting(key, job) := t.workers[w];
            Inv(t.(leases := t.leases[l := Private(job, ContentOf(t.disk, Part(job)))],
                workers := t.workers[w := Leaving(key, job, true)]))
  {
    hide Holders, Counted;
    var Converting(key, job) := t.workers[w];
    CountedAfterPrivate(t.entries, t.leases, l, job, ContentOf(t.disk, Part(job)));
  }

  lemma CachedKeepsInv(t: State, w: nat, l: nat, size: nat, now: int)
    requires Inv(t) && w in t.workers && t.workers[w].Converting? && l !in t.leases
    requires var key := t.workers[w].key; key in t.entries ==> t.entries[key].active <= 0
    ensures var Converting(key, job) := t.workers[w]; var content := ContentOf(t.disk, Part(job));
            Inv(t.(entries := t.entries[key := Entry(size, now, 1, false)],
                   disk := (t.disk - {Part(job)})[Final(key) := content],
                   leases := t.leases[l := Shared(key, content)],
                   workers := t.workers[w := Leaving(key, job, false)]))
  {
    var Converting(key, job) := t.workers[w];
    assert key in t.entries ==> t.entries[key].active == 0;
    hide Holders, Counted;
    CountedAfterShare(t.entries, t.leases, l, key, ContentOf(t.disk, Part(job)), Entry(size, now, 1, false));
    NobodyHolds(t.entries, t.leases, key);
  }

  lemma LostKeepsInv(t: State, w: nat)
    requires Inv(t) && w in t.workers && t.workers[w].Converting?
    requires var key := t.workers[w].key; key in t.entries ==> t.entries[key].active <= 0
    ensures var Converting(key, job) := t.workers[w];
            Inv(t.(disk := t.disk - {Part(job), Final(key)}, workers := t.workers[w := Leaving(key, job, false)]))
  {
    hide Holders, Counted;
    NobodyHolds(t.entries, t.leases, t.workers[w].key);
  }

  lemma FinishKeepsInv(t: State, w: nat, l: nat, size: nat, limit: int, now: int, renamed: bool)
    requires Inv(t) && w in t.workers && t.workers[w].Converting? && l !in t.leases
    ensures Inv(FinishStep(t, w, l, size, limit, now, renamed))
  {
    var key := t.workers[w].key;
    match OutcomeOf(t, key, t.workers[w].job, size, limit, renamed)
    case Kept => hide Inv; KeptKeepsInv(t, w, l);
    case Cached => hide Inv; CachedKeepsInv(t, w, l, size, now);
    case Lost => hide Inv; LostKeepsInv(t, w);
  }

  lemma CountedAfterRelease(entries: Entries, leases: map<nat, Lease>, l: nat, now: int)
    requires Counted(entries, leases) && l in leases
    ensures leases[l].Shared? ==>
              leases[l].key in entries &&
              Counted(entries[leases[l].key :=
                  entries[leases[l].key].(active := entries[leases[l].key].active - 1, used := now)], leases - {l})
    ensures leases[l].Private? ==> Counted(entries, leases - {l})
  {
    forall k
      ensures |Holders(leases - {l}, k)| == |Holders(leases, k)| -
              if leases[l].Shared? && k == leases[l].key then 1 else 0
    {
      HoldersDrop(leases, l, k);
    }
  }

  /** Lowering a count or touching the time of use leaves everything but the counting alone. */
  lemma TouchKeeps(s: State, key: string, e: Entry, l: nat)
    requires Inv(s) && key in s.entries && e.pending == s.entries[key].pending && l in s.leases && s.leases[l].Shared?
    requires Counted(s.entries[key := e], s.leases - {l})
    ensures Inv(s.(entries := s.entries[key := e], leases := s.leases - {l}))
  {
    hide Holders, Counted;
    var entries, leases := s.entries[key := e], s.leases - {l};
    assert forall k :: Usable(entries, k) <==> Usable(s.entries, k);
    hide Usable;
    assert Intact(leases, s.disk, s.jobs) by { hide IntactLease; }
    forall w | w in s.workers ensures SoundWorker(s.workers[w], entries, s.jobs, s.disk) {
      assert SoundWorker(s.workers[w], s.entries, s.jobs, s.disk);
    }
    assert Separate(s.workers, leases) by { hide SoundWorker, OwnsJob; }
  }

  lemma SharedReleaseKeepsInv(s: State, l: nat, now: int)
    requires Inv(s) && l in s.leases && s.leases[l].Shared?
    ensures Inv(Apply(s, Release(l, now)))
  {
    var key := s.leases[l].key;
    CountedAfterRelease(s.entries, s.leases, l, now);
    LeasedIsActive(s.entries, s.leases, l);
    hide Holders, Counted, Inv;
    var e := s.entries[key];
    TouchKeeps(s, key, e.(active := e.active - 1, used := now), l);
    assert Apply(s, Release(l, now)) ==
        s.(entries := s.entries[key := e.(active := e.active - 1, used := now)], leases := s.leases - {l});
  }

  lemma PrivateReleaseKeepsInv(s: State, l: nat, now: int)
    requires Inv(s) && l in s.leases && s.leases[l].Private?
    ensures Inv(Apply(s, Release(l, now)))
  {
    hide Holders, Counted, Exclusive, Separate;
    CountedAfterRelease(s.entries, s.leases, l, now);
    var t := Apply(s, Release(l, now));
    FewerLeases(s.workers, s.leases, l);
    forall m | m in t.leases ensures IntactLease(t.leases[m], t.disk, t.jobs) {
      TwoLeases(s.workers, s.leases, l, m);
      assert IntactLease(s.leases[m], s.disk, s.jobs);
    }
    forall w | w in t.workers ensures SoundWorker(t.workers[w], t.entries, t.jobs, t.disk) {
      OtherLease(s.workers, s.leases, l, w);
      assert SoundWorker(s.workers[w], s.entries, s.jobs, s.disk);
    }
  }

  lemma FewerLeases(workers: map<nat, Worker>, leases: map<nat, Lease>, l: nat)
    requires Separate(workers, leases)
    ensures Separate(workers, leases - {l})
  {}

  lemma TwoLeases(workers: map<nat, Worker>, leases: map<nat, Lease>, l: nat, m: nat)
    requires Separate(workers, leases) && l in leases && m in leases && l != m
    ensures leases[l].Private? && leases[m].Private? ==> leases[l].job != leases[m].job
  {}

  lemma ClearKeepsInv(s: State, order: seq<string>, stuck: set<string>)
    requires Inv(s) && UseOrder(s.entries, order)
    ensures Inv(Apply(s, Clear(order, stuck)))
  {
    hide Inv;
    MarkKeepsInv(s);
    TrimKeepsInv(s.(entries := Marked(s.entries), jobs := map j | j in s.jobs :: true), 0, order, stuck);
  }

  lemma MarkKeepsInv(s: State)
    requires Inv(s)
    ensures Inv(s.(entries := Marked(s.entries), jobs := map j | j in s.jobs :: true))
  {
    hide Holders, Exclusive, Separate;
    var t := s.(entries := Marked(s.entries), jobs := map j | j in s.jobs :: true);
    forall l | l in s.leases ensures IntactLease(t.leases[l], t.disk, t.jobs) {
      assert IntactLease(s.leases[l], s.disk, s.jobs);
    }
    forall w | w in s.workers ensures SoundWorker(t.workers[w], t.entries, t.jobs, t.disk) {
      assert SoundWorker(s.workers[w], s.entries, s.jobs, s.disk);
    }
  }

  lemma TakeKeepsInv(s: State, w: nat, key: string)
    requires Inv(s) && Enabled(s, Take(w, key))
    ensures Inv(Apply(s, Take(w, key)))
  {
    hide Holders, Counted, Intact, Backed, Exclusive, Separate, SoundWorker;
    TakeKeepsApart(s.workers, s.tokens, s.leases, w, key);
    IdleIsSound(Holding(key), s.entries, s.jobs, s.disk);
  }

  lemma TakeKeepsApart(workers: map<nat, Worker>, tokens: map<string, bool>, leases: map<nat, Lease>, w: nat,
          key: string)
    requires Exclusive(workers, tokens) && Separate(workers, leases) && w !in workers && (key in tokens ==> tokens[key])
    ensures Exclusive(workers[w := Holding(key)], tokens[key := false])
    ensures Separate(workers[w := Holding(key)], leases)
  {}

  lemma IdleIsSound(w: Worker, entries: Entries, jobs: map<nat, bool>, disk: map<Name, nat>)
    requires w.Holding? || w.Served?
    ensures SoundWorker(w, entries, jobs, disk)
  {}

  lemma GiveUpKeepsInv(s: State, w: nat)
    requires Inv(s) && Enabled(s, GiveUp(w))
    ensures Inv(Apply(s, GiveUp(w)))
  {
    hide Holders, Counted, Intact, Backed;
    assert forall v | v in s.workers :: SoundWorker(s.workers[v], s.entries, s.jobs, s.disk);
  }

  lemma FailKeepsInv(s: State, w: nat)
    requires Inv(s) && Enabled(s, Fail(w))
    ensures Inv(Apply(s, Fail(w)))
  {
    hide Holders, Counted, Exclusive, Separate;
    var job := s.workers[w].job;
    var t := Apply(s, Fail(w));
    FailKeepsApart(s.workers, s.tokens, s.leases, w);
    assert SoundWorker(s.workers[w], s.entries, s.jobs, s.disk);
    forall v | v in t.workers ensures SoundWorker(t.workers[v], t.entries, t.jobs, t.disk) {
      OtherJob(s.workers, s.leases, v, w);
      assert SoundWorker(s.workers[v], s.entries, s.jobs, s.disk);
    }
    forall l | l in t.leases ensures IntactLease(t.leases[l], t.disk, t.jobs) {
      OtherLease(s.workers, s.leases, l, w);
      assert IntactLease(s.leases[l], s.disk, s.jobs);
    }
  }

  lemma FailKeepsApart(workers: map<nat, Worker>, tokens: map<string, bool>, leases: map<nat, Lease>, w: nat)
    requires Exclusive(workers, tokens) && Separate(workers, leases) && w in workers && workers[w].Converting?
    ensures var left := Leaving(workers[w].key, workers[w].job, false);
            Exclusive(workers[w := left], tokens) && Separate(workers[w := left], leases)
  {}

  lemma OtherJob(workers: map<nat, Worker>, leases: map<nat, Lease>, v: nat, w: nat)
    requires Separate(workers, leases) && v in workers && w in workers
    ensures v != w && OwnsJob(workers[v]) && OwnsJob(workers[w]) ==> workers[v].job != workers[w].job
  {}

  lemma OtherLease(workers: map<nat, Worker>, leases: map<nat, Lease>, l: nat, w: nat)
    requires Separate(workers, leases) && l in leases && w in workers
    ensures leases[l].Private? && OwnsJob(workers[w]) ==> leases[l].job != workers[w].job
  {}

  lemma LeaveKeepsInv(s: State, w: nat)
    requires Inv(s) && Enabled(s, Leave(w))
    ensures Inv(Apply(s, Leave(w)))
  {
    hide Holders, Counted, Backed;
    var t := Apply(s, Leave(w));
    forall v | v in t.workers ensures SoundWorker(t.workers[v], t.entries, t.jobs, t.disk) {
      assert SoundWorker(s.workers[v], s.entries, s.jobs, s.disk);
      assert OwnsJob(s.workers[v]) && OwnsJob(s.workers[w]) ==> s.workers[v].job != s.workers[w].job;
    }
    forall l | l in t.leases ensures IntactLease(t.leases[l], t.disk, t.jobs) {
      assert IntactLease(s.leases[l], s.disk, s.jobs);
      assert s.leases[l].Private? && OwnsJob(s.workers[w]) ==> s.leases[l].job != s.workers[w].job;
    }
    assert Exclusive(t.workers, t.tokens) by { hide SoundWorker, IntactLease, Separate; }
    hide SoundWorker, IntactLease;
  }

  /** Every step keeps the invariant. */
  lemma StepKeepsInv(s: State, a: Action)
    requires Inv(s) && Enabled(s, a)
    ensures Inv(Apply(s, a))
  {
    match a
    case Hit(w, l, now) => hide Inv; HitKeepsInv(s, w, l, now);
    case Begin(w, job, content) => hide Inv; BeginKeepsInv(s, w, job, content);
    case Finish(w, l, size, limit, now, order, stuck, renamed) =>
      hide Inv;
      TrimKeepsInv(s, Spare(limit, size), order, stuck);
      TrimKeepsParts(s, Spare(limit, size), order, stuck);
      FinishKeepsInv(TrimStep(s, Spare(limit, size), order, stuck), w, l, size, limit, now, renamed);
    case Release(l, now) =>
      hide Inv;
      if s.leases[l].Shared? { SharedReleaseKeepsInv(s, l, now); } else { PrivateReleaseKeepsInv(s, l, now); }
    case Trim(limit, order, stuck) => hide Inv; TrimKeepsInv(s, limit, order, stuck);
    case Clear(order, stuck) => hide Inv; ClearKeepsInv(s, order, stuck);
    case Take(w, key) => hide Inv; TakeKeepsInv(s, w, key);
    case GiveUp(w) => hide Inv; GiveUpKeepsInv(s, w);
    case Fail(w) => hide Inv; FailKeepsInv(s, w);
    case Leave(w) => hide Inv; LeaveKeepsInv(s, w);
  }

  /******* Runs *******/

  /** NewCache: the files found on disk, unused. */
  ghost predicate Initial(s: State) {
    && s.jobs == map[] && s.tokens == map[] && s.workers == map[] && s.leases == map[]
    && (forall k | k in s.entries :: s.entries[k].active == 0 && !s.entries[k].pending && Final(k) in s.disk)
  }

  ghost predicate StepAt(states: seq<State>, actions: seq<Action>, i: nat)
    requires i < |actions| && |states| == |actions| + 1
  {
    Enabled(states[i], actions[i]) && states[i + 1] == Apply(states[i], actions[i])
  }

  /** States and the actions between them, in any interleaving. */
  ghost predicate Run(states: seq<State>, actions: seq<Action>) {
    && |states| == |actions| + 1 && Initial(states[0])
    && (forall i | 0 <= i < |actions| :: StepAt(states, actions, i))
  }

  lemma {:induction false} RunKeepsInv(states: seq<State>, actions: seq<Action>, i: nat)
    requires Run(states, actions) && i < |states|
    ensures Inv(states[i])
  {
    if i > 0 {
      hide Inv, Apply, Initial;
      RunKeepsInv(states, actions, i - 1);
      assert StepAt(states, actions, i - 1);
      StepKeepsInv(states[i - 1], actions[i - 1]);
    } else {
      forall k ensures Holders(states[0].leases, k) == {} {}
    }
  }

  /**
   In every interleaving: Active counts the outstanding leases, leased files keep their
   contents, and no key is being converted twice.
   */
  lemma CacheSafety(states: seq<State>, actions: seq<Action>, i: nat)
    requires Run(states, actions) && i < |states|
    ensures forall k | k in states[i].entries :: states[i].entries[k].active == |Holders(states[i].leases, k)|
    ensures forall l | l in states[i].leases :: IntactLease(states[i].leases[l], states[i].disk, states[i].jobs)
    ensures var workers := states[i].workers;
            forall v, w | v in workers && w in workers && workers[v].Converting? && workers[w].Converting?
                          && workers[v].key == workers[w].key :: v == w
  {
    RunKeepsInv(states, actions, i);
  }

  lemma TotalInsert(m: Entries, k: string, e: Entry)
    ensures Total(m[k := e]) <= Total(m) + e.size
  {
    TotalRemove(m[k := e], k);
    assert m[k := e] - {k} == m - {k};
    if k in m { TotalRemove(m, k); } else { assert m - {k} == m; }
  }

  /** Right after an insertion the cache is within the limit read for it. */
  lemma InsertionWithinLimit(s: State, a: Action)
    requires a.Finish? && Enabled(s, a)
    requires var key, t := s.workers[a.worker].key, TrimStep(s, Spare(a.limit, a.size), a.order, a.stuck);
             OutcomeOf(t, key, s.workers[a.worker].job, a.size, a.limit, a.renamed) == Cached
    ensures Total(Apply(s, a).entries) <= a.limit
  {
    var t := TrimStep(s, Spare(a.limit, a.size), a.order, a.stuck);
    TotalInsert(t.entries, s.workers[a.worker].key, Entry(a.size, a.now, 1, false));
  }

  /******* The cache object *******/

  class Cache {
    var entries: Entries
    var jobs: map<nat, bool>
    var locks: map<string, bool>
    ghost var workers: map<nat, Worker>
    ghost var leases: map<nat, Lease>
    ghost var disk: map<Name, nat>

    ghost function View(): State
      reads this
    {
      State(entries, jobs, locks, workers, leases, disk)
    }

    /** The running total of the sizes. */
    method Used() returns (used: nat)
      ensures used == Total(entries)
    {
      used := 0;
      var left := entries;
      while left != map[]
        invariant used + Total(left) == Total(entries) && left.Keys <= entries.Keys
        decreases |left|
      {
        var k :| k in left;
        TotalRemove(left, k);
        used := used + left[k].size;
        left := left - {k};
      }
    }

    /** trimLocked: one pass over the keys in order of use. */
    method TrimLocked(limit: int, order: seq<string>, stuck: set<string>)
      requires UseOrder(entries, order)
      modifies this`entries, this`disk
      ensures View() == TrimStep(old(View()), limit, order, stuck)
    {
      hide TrimFrom, WithoutFiles, Total, Evicts, UseOrder;
      var total := Used();
      var used: int := total;
      ghost var before, files := entries, disk;
      AllAhead(entries, order);
      NoneWithout(disk, entries);
      assert order[0..] == order;
      for i := 0 to |order|
        invariant TrimFrom(before, Total(before), order, limit, stuck) ==
                  TrimFrom(entries, used, order[i..], limit, stuck)
        invariant disk == WithoutFiles(files, before, entries)
        invariant Ahead(entries, order, i)
        invariant entries.Keys <= before.Keys
      {
        var k := order[i];
        TrimOne(entries, used, order, i, limit, stuck);
        NextAhead(entries, order, i);
        if Evicts(entries[k], k, used, limit, stuck) {
          OneWithout(files, before, entries, k);
          used := used - entries[k].size;
          disk := disk - {Final(k)};
          entries := entries - {k};
        }
      }
      TrimNone(entries, used, order, limit, stuck);
    }

    method Trim(limit: int, order: seq<string>, stuck: set<string>)
      requires UseOrder(entries, order)
      modifies this
      ensures View() == Apply(old(View()), Action.Trim(limit, order, stuck))
    {
      TrimLocked(limit, order, stuck);
    }

    /** Clear: everything becomes pending, running jobs are told to keep their files private. */
    method Clear(order: seq<string>, stuck: set<string>)
      requires UseOrder(entries, order)
      modifies this
      ensures View() == Apply(old(View()), Action.Clear(order, stuck))
    {
      entries := map k | k in entries :: entries[k].(pending := true);
      jobs := map j | j in jobs :: true;
      TrimLocked(0, order, stuck);
    }

    /** The first critical section of Acquire after the token: a hit, or a new job. */
    method Enter(ghost w: nat, key: string, ghost lease: nat, job: nat, ghost content: nat, now: int)
            returns (hit: bool)
      requires w in workers && workers[w] == Holding(key) && lease !in leases && job !in jobs && Part(job) !in disk
      modifies this
      ensures hit == Usable(old(entries), key)
      ensures View() == Apply(old(View()), if hit then Hit(w, lease, now) else Begin(w, job, content))
    {
      hit := key in entries && !entries[key].pending;
      if hit {
        var e := entries[key];
        entries := entries[key := e.(active := e.active + 1, used := now)];
        leases, workers := leases[lease := Shared(key, ContentOf(disk, Final(key)))], workers[w := Served(key)];
      } else {
        jobs := jobs[job := false];
        disk, workers := disk[Part(job) := content], workers[w := Converting(key, job)];
      }
    }

    /** The last critical section of Acquire: trim, then cache the file, keep it private, or lose it. */
    method Finish(ghost w: nat, key: string, job: nat, ghost lease: nat, size: nat, limit: int, now: int,
                  order: seq<string>, stuck: set<string>, renamed: bool) returns (outcome: Outcome)
      requires w in workers && workers[w] == Converting(key, job) && lease !in leases && UseOrder(entries, order)
      modifies this
      ensures View() == Apply(old(View()), Action.Finish(w, lease, size, limit, now, order, stuck, renamed))
      ensures outcome == Cached ==> Total(entries) <= limit
    {
      hide TrimStep, Total, UseOrder;
      TrimLocked(Spare(limit, size), order, stuck);
      ghost var t := View();
      var used := Used();
      ghost var content := ContentOf(disk, Part(job));
      if used + size > limit || (job in jobs && jobs[job]) || (key in entries && entries[key].active > 0) {
        outcome := Kept;
        leases, workers := leases[lease := Private(job, content)], workers[w := Leaving(key, job, true)];
      } else if !renamed {
        outcome := Lost;
        disk, workers := disk - {Part(job), Final(key)}, workers[w := Leaving(key, job, false)];
      } else {
        outcome := Cached;
        TotalInsert(entries, key, Entry(size, now, 1, false));
        entries := entries[key := Entry(size, now, 1, false)];
        disk := (disk - {Part(job)})[Final(key) := content];
        leases, workers := leases[lease := Shared(key, content)], workers[w := Leaving(key, job, false)];
      }
      assert View() == FinishStep(t, w, lease, size, limit, now, renamed);
    }

    /** The closure returned by release(key). */
    method ReleaseShared(ghost lease: nat, key: string, now: int)
      requires lease in leases && leases[lease].Shared? && leases[lease].key == key
      modifies this
      ensures View() == Apply(old(View()), Release(lease, now))
    {
      if key in entries {
        var e := entries[key];
        entries := entries[key := e.(active := e.active - 1, used := now)];
      }
      leases := leases - {lease};
    }
  }
}
