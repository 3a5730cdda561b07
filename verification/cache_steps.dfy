/**
 What the steps of the transcode cache do (internal/app/media.go): which files trimming may
 remove, when a converted file is cached, and what clearing means for conversions that run.
 */
module CacheSteps {
  import opened Collections
  import opened TranscodeCache

  /******* What trimming removes *******/

  ghost predicate Precedes(order: seq<string>, a: string, b: string) {
    exists i, j :: 0 <= i < j < |order| && order[i] == a && order[j] == b
  }

  /** What is left once these entries have gone. */
  function Without(entries: Entries, gone: set<string>): Entries { entries - gone }

  lemma PrecedesLater(h: string, rest: seq<string>, a: string, b: string)
    ensures Precedes(rest, a, b) ==> Precedes([h] + rest, a, b)
    ensures b in rest ==> Precedes([h] + rest, h, b)
  {
    var order := [h] + rest;
    if Precedes(rest, a, b) {
      var i, j :| 0 <= i < j < |rest| && rest[i] == a && rest[j] == b;
      assert order[i + 1] == a && order[j + 1] == b;
    }
    if b in rest {
      var j :| 0 <= j < |rest| && rest[j] == b;
      assert order[0] == h && order[j + 1] == b;
    }
  }

  /** These entries went before k, as the order has it. */
  ghost predicate WentBefore(entries: Entries, after: Entries, order: seq<string>, k: string, earlier: set<string>) {
    forall x | x in earlier :: x in entries && x !in after && Precedes(order, x, k)
  }

  lemma OneWentBefore(entries: Entries, after: Entries, h: string, rest: seq<string>, k: string, later: set<string>)
    requires WentBefore(entries - {h}, after, rest, k, later) && h in entries && h !in after && k in rest
    ensures WentBefore(entries, after, [h] + rest, k, later + {h})
    ensures Without(entries, later + {h}) == Without(entries - {h}, later)
  {
    hide Precedes;
    PrecedesLater(h, rest, h, k);
    forall x | x in later ensures Precedes([h] + rest, x, k) { PrecedesLater(h, rest, x, k); }
  }

  lemma NoneWentBefore(entries: Entries, after: Entries, h: string, rest: seq<string>, k: string, later: set<string>)
    requires WentBefore(entries, after, rest, k, later)
    ensures WentBefore(entries, after, [h] + rest, k, later)
  {
    hide Precedes;
    forall x | x in later ensures Precedes([h] + rest, x, k) { PrecedesLater(h, rest, x, k); }
  }

  lemma NothingWithout(entries: Entries)
    ensures Without(entries, {}) == entries
  {}

  /** An entry goes for space only if what older entries had left by then exceeded the limit. */
  lemma {:induction false} GoneForSpace(entries: Entries, used: int, order: seq<string>, limit: int, stuck: set<string>,
          k: string) returns (earlier: set<string>)
    requires used == Total(entries) && Distinct(order) && k in entries && !entries[k].pending
    requires k !in TrimFrom(entries, used, order, limit, stuck)
    ensures WentBefore(entries, TrimFrom(entries, used, order, limit, stuck), order, k, earlier)
    ensures k in order && entries[k].active <= 0 && k !in stuck && Total(Without(entries, earlier)) > limit
    decreases order
  {
    hide Precedes, Total, Without;
    var h, rest := order[0], order[1..];
    assert order == [h] + rest;
    if h in entries && Evicts(entries[h], h, used, limit, stuck) {
      TotalRemove(entries, h);
      TrimKeeps(entries - {h}, used - entries[h].size, rest, limit, stuck);
      if h == k {
        earlier := {};
        NothingWithout(entries);
      } else {
        var later := GoneForSpace(entries - {h}, used - entries[h].size, rest, limit, stuck, k);
        earlier := later + {h};
        hide WentBefore;
        OneWentBefore(entries, TrimFrom(entries, used, order, limit, stuck), h, rest, k, later);
      }
    } else {
      earlier := GoneForSpace(entries, used, rest, limit, stuck, k);
      NoneWentBefore(entries, TrimFrom(entries, used, order, limit, stuck), h, rest, k, earlier);
    }
  }

  /** What cannot be removed now: entries in use, and files that resist. */
  function Busy(entries: Entries, stuck: set<string>): Entries {
    map k | k in entries && (entries[k].active > 0 || k in stuck) :: entries[k]
  }

  lemma {:induction false} BusyStays(entries: Entries, used: int, order: seq<string>, limit: int, stuck: set<string>,
          k: string)
    requires k in Busy(entries, stuck)
    ensures k in TrimFrom(entries, used, order, limit, stuck)
    decreases order
  {
    if order != [] {
      var h := order[0];
      if h in entries && Evicts(entries[h], h, used, limit, stuck) {
        BusyStays(entries - {h}, used - entries[h].size, order[1..], limit, stuck, k);
      } else {
        BusyStays(entries, used, order[1..], limit, stuck, k);
      }
    }
  }

  lemma {:induction false} TotalGrows(a: Entries, b: Entries)
    requires forall k | k in a :: k in b && b[k] == a[k]
    ensures Total(a) <= Total(b)
    decreases b
  {
    if b == map[] {
      assert a == b;
    } else {
      var k :| k in b;
      TotalRemove(b, k);
      if k in a { TotalRemove(a, k); } else { assert a - {k} == a; }
      TotalGrows(a - {k}, b - {k});
    }
  }

  /** Room for a new file is made exactly when what cannot be removed leaves it. */
  lemma {:induction false} RoomIsMadeExactly(entries: Entries, order: seq<string>, limit: int, size: nat,
          stuck: set<string>)
    requires UseOrder(entries, order)
    ensures Total(Trimmed(entries, order, Max(0, limit - size), stuck)) + size <= limit <==>
            Total(Busy(entries, stuck)) + size <= limit
  {
    hide TrimFrom, Total;
    var after := Trimmed(entries, order, Max(0, limit - size), stuck);
    TrimKeeps(entries, Total(entries), order, Max(0, limit - size), stuck);
    forall k | k in Busy(entries, stuck) ensures k in after {
      BusyStays(entries, Total(entries), order, Max(0, limit - size), stuck, k);
    }
    TotalGrows(Busy(entries, stuck), after);
    if k :| k in after && k !in Busy(entries, stuck) {
      TrimReachesLimit(entries, Total(entries), order, Max(0, limit - size), stuck, k);
    } else {
      assert after == Busy(entries, stuck);
    }
  }

  /** An idle entry, not told to go, is removed only when those used before it had left too much. */
  ghost predicate OnlyForSpace(before: Entries, after: Entries, limit: int, own: string, k: string)
    requires k in before
  {
    exists earlier: set<string> :: FullWithout(before, after, limit, own, k, earlier)
  }

  /** Without these entries, all used no later and gone themselves, the total exceeds the limit. */
  ghost predicate FullWithout(before: Entries, after: Entries, limit: int, own: string, k: string, earlier: set<string>)
    requires k in before
  {
    && (forall x | x in earlier :: x in before && before[x].used <= before[k].used && (x !in after || x == own))
    && Total(Without(before, earlier)) > limit
  }

  lemma PrecedesByAge(entries: Entries, order: seq<string>, a: string, b: string)
    requires UseOrder(entries, order) && a in entries && b in entries
    ensures Precedes(order, a, b) ==> entries[a].used <= entries[b].used
    ensures entries[a].used < entries[b].used ==> Precedes(order, a, b)
  {
    if entries[a].used < entries[b].used {
      var i, j :| 0 <= i < |order| && 0 <= j < |order| && order[i] == a && order[j] == b;
    }
  }

  lemma {:induction false} GoneByAge(entries: Entries, order: seq<string>, limit: int, stuck: set<string>, k: string)
    requires UseOrder(entries, order) && k in entries && !entries[k].pending
             && k !in Trimmed(entries, order, limit, stuck)
    ensures OnlyForSpace(entries, Trimmed(entries, order, limit, stuck), limit, k, k)
    ensures forall x | x in entries && entries[x].active <= 0 && x !in stuck && entries[x].used < entries[k].used ::
            x !in Trimmed(entries, order, limit, stuck)
  {
    var earlier := GoneForSpace(entries, Total(entries), order, limit, stuck, k);
    hide Total, TrimFrom, Precedes;
    forall x | x in earlier ensures entries[x].used <= entries[k].used { PrecedesByAge(entries, order, x, k); }
    assert FullWithout(entries, Trimmed(entries, order, limit, stuck), limit, k, k, earlier);
    forall x | x in entries && entries[x].active <= 0 && x !in stuck && entries[x].used < entries[k].used
      ensures x !in Trimmed(entries, order, limit, stuck)
    {
      PrecedesByAge(entries, order, x, k);
      OlderIsGone(entries, order, limit, stuck, x, k);
    }
  }

  lemma OlderIsGone(entries: Entries, order: seq<string>, limit: int, stuck: set<string>, x: string, k: string)
    requires UseOrder(entries, order) && Precedes(order, x, k) && x in entries && k in entries
    requires entries[x].active <= 0 && x !in stuck && !entries[k].pending
             && k !in Trimmed(entries, order, limit, stuck)
    ensures x !in Trimmed(entries, order, limit, stuck)
  {
    var i, j :| 0 <= i < j < |order| && order[i] == x && order[j] == k;
    hide TrimFrom, Total;
    TrimByAge(entries, Total(entries), order, limit, stuck, i, j);
  }

  /******* The end of a conversion *******/

  /** The entries after a conversion's last section, but for that of its own key. */
  lemma {:induction false} OthersAfterFinish(s: State, a: Action, k: string)
    requires a.Finish? && Enabled(s, a) && k in s.entries && k != s.workers[a.worker].key
    ensures var limit, after := if a.limit > a.size then a.limit - a.size else 0, Apply(s, a).entries;
            && (k in after <==> k in Trimmed(s.entries, a.order, limit, a.stuck))
            && (k in after ==> after[k] == s.entries[k])
  {
    hide TrimFrom, Total;
    TrimKeeps(s.entries, Total(s.entries), a.order, Spare(a.limit, a.size), a.stuck);
  }

  /**
   Trimming for a converted file goes by age and removes no more than it must: an idle entry
   goes only after those used before it, and only if what was left just before it exceeded the
   limit less the file's size.
   */
  lemma {:induction false} FinishTrimsNoMore(s: State, a: Action, k: string)
    requires a.Finish? && Enabled(s, a) && k in s.entries && !s.entries[k].pending && k != s.workers[a.worker].key
    ensures k in Apply(s, a).entries ==> Apply(s, a).entries[k] == s.entries[k]
    ensures k !in Apply(s, a).entries ==>
              && s.entries[k].active <= 0 && k !in a.stuck
              && OnlyForSpace(s.entries, Apply(s, a).entries, Max(0, a.limit - a.size), s.workers[a.worker].key, k)
              && (forall x | x in s.entries && s.entries[x].active <= 0 && x !in a.stuck && x != s.workers[a.worker].key
                      && s.entries[x].used < s.entries[k].used :: x !in Apply(s, a).entries)
    ensures 0 <= a.limit && Total(s.entries) + a.size <= a.limit ==> k in Apply(s, a).entries
  {
    hide TrimFrom, Total, Apply, Precedes, Trimmed, Without;
    var limit, own := Max(0, a.limit - a.size), s.workers[a.worker].key;
    OthersAfterFinish(s, a, k);
    if k !in Apply(s, a).entries {
      GoneAfterFinish(s, a, k);
      FullBefore(s.entries, Apply(s, a).entries, limit, own, k);
    }
  }

  lemma {:induction false} GoneAfterFinish(s: State, a: Action, k: string)
    requires a.Finish? && Enabled(s, a) && k in s.entries && !s.entries[k].pending && k != s.workers[a.worker].key
             && k !in Apply(s, a).entries
    ensures var limit := if a.limit > a.size then a.limit - a.size else 0;
            && k !in Trimmed(s.entries, a.order, limit, a.stuck)
            && k !in Busy(s.entries, a.stuck)
            && OnlyForSpace(s.entries, Apply(s, a).entries, limit, s.workers[a.worker].key, k)
            && (forall x | x in s.entries && s.entries[x].active <= 0 && x !in a.stuck && x != s.workers[a.worker].key
                    && s.entries[x].used < s.entries[k].used :: x !in Apply(s, a).entries)
  {
    hide TrimFrom, Total, Apply, Precedes, Trimmed, Without;
    var limit := if a.limit > a.size then a.limit - a.size else 0;
    var after, trimmed := Apply(s, a).entries, Trimmed(s.entries, a.order, limit, a.stuck);
    OthersAfterFinish(s, a, k);
    GoneByAge(s.entries, a.order, limit, a.stuck, k);
    BusyKept(s.entries, a.order, limit, a.stuck, k);
    forall x | x in s.entries && x != s.workers[a.worker].key ensures x in after <==> x in trimmed {
      OthersAfterFinish(s, a, x);
    }
    var earlier :| FullWithout(s.entries, trimmed, limit, k, k, earlier);
    assert FullWithout(s.entries, after, limit, s.workers[a.worker].key, k, earlier);
  }

  lemma BusyKept(entries: Entries, order: seq<string>, limit: int, stuck: set<string>, k: string)
    ensures k in Busy(entries, stuck) ==> k in Trimmed(entries, order, limit, stuck)
  {
    hide TrimFrom, Total;
    if k in Busy(entries, stuck) { BusyStays(entries, Total(entries), order, limit, stuck, k); }
  }

  /** Something goes for space only when the total is over the limit. */
  lemma FullBefore(before: Entries, after: Entries, limit: int, own: string, k: string)
    requires k in before && OnlyForSpace(before, after, limit, own, k)
    ensures Total(before) > limit
  {
    var earlier :| FullWithout(before, after, limit, own, k, earlier);
    hide Total;
    TotalGrows(Without(before, earlier), before);
  }

  /** A conversion's file is kept out of the cache: it was cleared meanwhile, or its key is in use. */
  ghost predicate KeptOut(s: State, key: string, job: nat) {
    (job in s.jobs && s.jobs[job]) || (key in s.entries && s.entries[key].active > 0)
  }

  /**
   The converted file is handed out privately exactly when the cache was cleared meanwhile, its
   key is in use, or what cannot be removed leaves it no room; otherwise it enters the cache,
   unless renaming it fails.
   */
  lemma {:induction false} FinishMeans(s: State, a: Action)
    requires a.Finish? && Enabled(s, a)
    ensures var (w, l) := (a.worker, a.lease);
            var (key, job) := (s.workers[w].key, s.workers[w].job);
            var t, content := Apply(s, a), ContentOf(s.disk, Part(job));
            var room := Total(Busy(s.entries, a.stuck)) + a.size <= a.limit;
            && t.tokens == s.tokens && t.jobs == s.jobs
            && (KeptOut(s, key, job) || !room ==>
                  && t.leases == s.leases[l := Private(job, content)]
                     && t.workers == s.workers[w := Leaving(key, job, true)]
                  && (Part(job) in s.disk ==> Part(job) in t.disk && t.disk[Part(job)] == content))
            && (!KeptOut(s, key, job) && room && a.renamed ==>
                  && t.leases == s.leases[l := Shared(key, content)]
                     && t.workers == s.workers[w := Leaving(key, job, false)]
                  && key in t.entries && t.entries[key] == Entry(a.size, a.now, 1, false)
                  && Part(job) !in t.disk && Final(key) in t.disk && t.disk[Final(key)] == content
                  && Total(t.entries) <= a.limit)
            && (!KeptOut(s, key, job) && room && !a.renamed ==>
                  && t.leases == s.leases && t.workers == s.workers[w := Leaving(key, job, false)]
                  && Part(job) !in t.disk && Final(key) !in t.disk)
  {
    hide TrimFrom, Total, Trimmed, UseOrder, WithoutFiles, Busy, Marked, Usable;
    var trimmed := TrimStep(s, Spare(a.limit, a.size), a.order, a.stuck);
    RoomIsMadeExactly(s.entries, a.order, a.limit, a.size, a.stuck);
    TrimKeepsParts(s, Spare(a.limit, a.size), a.order, a.stuck);
    TotalInsert(trimmed.entries, s.workers[a.worker].key, Entry(a.size, a.now, 1, false));
  }

  /******* The other steps *******/

  /** Trimming to a limit, and clearing: what goes, and that nothing else changes. */
  lemma {:induction false} TrimMeans(s: State, limit: int, order: seq<string>, stuck: set<string>, k: string)
    requires UseOrder(s.entries, order) && k in s.entries
    ensures var t := Apply(s, Trim(limit, order, stuck));
            && t == s.(entries := t.entries, disk := t.disk) && t.entries.Keys <= s.entries.Keys
            && (forall n | n in t.disk :: n in s.disk && t.disk[n] == s.disk[n])
            && (forall n | n in s.disk && n !in t.disk :: n.Final? && n.key in s.entries && n.key !in t.entries)
            && (k in t.entries ==> t.entries[k] == s.entries[k])
            && (k !in t.entries ==>
                  s.entries[k].active <= 0 && k !in stuck && Final(k) !in t.disk
                  && (s.entries[k].pending || OnlyForSpace(s.entries, t.entries, limit, k, k))
                  && (s.entries[k].pending || forall x | x in s.entries && s.entries[x].active <= 0 && x !in stuck
                         && s.entries[x].used < s.entries[k].used :: x !in t.entries))
            && (k in t.entries && s.entries[k].active <= 0 && k !in stuck ==>
                  !s.entries[k].pending && Total(t.entries) <= limit)
  {
    hide TrimFrom, Total;
    TrimKeeps(s.entries, Total(s.entries), order, limit, stuck);
    var t := Apply(s, Trim(limit, order, stuck));
    if k !in t.entries {
      if k in Busy(s.entries, stuck) { BusyStays(s.entries, Total(s.entries), order, limit, stuck, k); }
      if !s.entries[k].pending { GoneByAge(s.entries, order, limit, stuck, k); }
    } else if s.entries[k].active <= 0 && k !in stuck {
      TrimReachesLimit(s.entries, Total(s.entries), order, limit, stuck, k);
      if s.entries[k].pending { TrimDropsPending(s.entries, Total(s.entries), order, limit, stuck, k); }
    }
  }

  /** Clearing: what stays is what cannot be removed, marked to go; running conversions are told. */
  lemma {:induction false} ClearMeans(s: State, order: seq<string>, stuck: set<string>)
    requires UseOrder(s.entries, order)
    ensures var t := Apply(s, Clear(order, stuck));
            && t == s.(entries := t.entries, disk := t.disk, jobs := t.jobs)
            && t.jobs.Keys == s.jobs.Keys && (forall j | j in t.jobs :: t.jobs[j])
            && t.entries.Keys == (set k | k in s.entries && (s.entries[k].active > 0 || k in stuck))
            && (forall k | k in t.entries :: t.entries[k] == s.entries[k].(pending := true))
            && (forall n | n in t.disk :: n in s.disk && t.disk[n] == s.disk[n])
            && (forall n | n in s.disk && n !in t.disk :: n.Final? && n.key in s.entries && n.key !in t.entries)
  {
    hide TrimFrom, Total;
    var marked := Marked(s.entries);
    TrimKeeps(marked, Total(marked), order, 0, stuck);
    var t := Apply(s, Clear(order, stuck));
    forall k | k in s.entries
      ensures k in t.entries <==> s.entries[k].active > 0 || k in stuck
    {
      if s.entries[k].active > 0 || k in stuck {
        BusyStays(marked, Total(marked), order, 0, stuck, k);
      } else {
        TrimDropsPending(marked, Total(marked), order, 0, stuck, k);
      }
    }
  }

  /** A hit leases the entry and makes it the one used last; a release gives the lease back. */
  lemma LeaseMeans(s: State, a: Action)
    requires Inv(s) && Enabled(s, a) && (a.Hit? || a.Release?)
    ensures a.Hit? ==>
              var t, key := Apply(s, a), s.workers[a.worker].key;
              && key in s.entries && Final(key) in s.disk
              && t == s.(entries :=
                 s.entries[key := s.entries[key].(active := s.entries[key].active + 1, used := a.now)],
                         leases := s.leases[a.lease := Shared(key, s.disk[Final(key)])],
                         workers := s.workers[a.worker := Served(key)])
    ensures a.Release? && s.leases[a.lease].Shared? ==>
              var t, key := Apply(s, a), s.leases[a.lease].key;
              && key in s.entries
              && t == s.(entries :=
                 s.entries[key := s.entries[key].(active := s.entries[key].active - 1, used := a.now)],
                         leases := s.leases - {a.lease})
    ensures a.Release? && s.leases[a.lease].Private? ==>
              var t, job := Apply(s, a), s.leases[a.lease].job;
              t == s.(leases := s.leases - {a.lease}, disk := s.disk - {Part(job)}, jobs := s.jobs - {job})
  {
    hide Owned, Exclusive, Intact;
    if a.Release? && s.leases[a.lease].Shared? { LeasedIsActive(s.entries, s.leases, a.lease); }
  }

  /**
   A caller waits for its key's token, leases a usable entry or converts, and returns the token,
   whether it gives up, fails or succeeds.
   */
  lemma WorkerGoesOn(s: State, w: nat, key: string, lease: nat, job: nat, content: nat, now: int)
    requires Inv(s) && lease !in s.leases && job !in s.jobs && Part(job) !in s.disk
    ensures w !in s.workers ==>
              && (Enabled(s, Take(w, key)) <==> key !in s.tokens || s.tokens[key])
              && (Enabled(s, Take(w, key)) ==>
                    Apply(s, Take(w, key)) ==
                        s.(tokens := s.tokens[key := false], workers := s.workers[w := Holding(key)]))
    ensures w in s.workers && s.workers[w].Holding? ==>
              var key := s.workers[w].key;
              && Enabled(s, GiveUp(w))
              && Apply(s, GiveUp(w)) == s.(tokens := s.tokens[key := true], workers := s.workers - {w})
              && Enabled(s, if key in s.entries && !s.entries[key].pending then Hit(w, lease, now)
                 else Begin(w, job, content))
              && (Enabled(s, Begin(w, job, content)) ==>
                    Apply(s, Begin(w, job, content)) ==
                    s.(jobs := s.jobs[job := false], disk := s.disk[Part(job) := content],
                       workers := s.workers[w := Converting(key, job)]))
    ensures w in s.workers && s.workers[w].Converting? ==>
              && Enabled(s, Fail(w)) && !Enabled(s, Leave(w))
              && Apply(s, Fail(w)) ==
                 s.(disk := s.disk - {Part(s.workers[w].job)},
                    workers := s.workers[w := Leaving(s.workers[w].key, s.workers[w].job, false)])
              && forall order, size: nat, limit, stuck, renamed | UseOrder(s.entries, order) ::
                   Enabled(s, Finish(w, lease, size, limit, now, order, stuck, renamed))
    ensures w in s.workers && (s.workers[w].Leaving? || s.workers[w].Served?) ==>
              var me := s.workers[w];
              && Enabled(s, Leave(w))
              && Apply(s, Leave(w)) ==
                 s.(tokens := s.tokens[me.key := true], workers := s.workers - {w},
                    jobs := if me.Leaving? && !me.retained then s.jobs - {me.job} else s.jobs)
  {
    hide Owned, Exclusive, Intact, Counted, Backed;
  }

  /** The sizes of the entries, added up. */
  lemma TotalMeans(entries: Entries, k: string, e: Entry)
    ensures Total(map[]) == 0
    ensures k !in entries ==> Total(entries[k := e]) == Total(entries) + e.size
  {
    TotalRemove(entries[k := e], k);
    if k !in entries { assert entries[k := e] - {k} == entries; }
  }

  /******* Conversions that were cleared *******/

  /** This worker's conversion is under way and has been told that the cache was cleared. */
  ghost predicate Told(s: State, w: nat, job: nat) {
    w in s.workers && s.workers[w].Converting? && s.workers[w].job == job && job in s.jobs && s.jobs[job]
  }

  /** Until it ends, nothing untells it. */
  lemma ToldStays(s: State, a: Action, w: nat, job: nat)
    requires Inv(s) && Enabled(s, a) && Told(s, w, job)
    requires w in Apply(s, a).workers && Apply(s, a).workers[w] == s.workers[w]
    ensures Told(Apply(s, a), w, job)
  {
    hide Trimmed, UseOrder, Usable, Counted, Intact, Backed, Exclusive, Separate;
    match a
    case Leave(v) => if v != w && OwnsJob(s.workers[v]) { OtherJob(s.workers, s.leases, v, w); }
    case Release(l, _) => if s.leases[l].Private? { OtherLease(s.workers, s.leases, l, w); }
    case _ =>
  }

  lemma {:induction false} ToldLasts(states: seq<State>, actions: seq<Action>, i: nat, j: nat, w: nat, job: nat)
    requires Run(states, actions) && i <= j < |states| && Told(states[i], w, job)
    requires forall k | i <= k <= j :: w in states[k].workers && states[k].workers[w] == states[i].workers[w]
    ensures Told(states[j], w, job)
    decreases j
  {
    hide Inv, Apply, Enabled, Initial;
    if i < j {
      ToldLasts(states, actions, i, j - 1, w, job);
      RunKeepsInv(states, actions, j - 1);
      assert StepAt(states, actions, j - 1);
      ToldStays(states[j - 1], actions[j - 1], w, job);
    }
  }

  /** A conversion that was running when the cache was cleared never brings its file into the cache. */
  lemma {:induction false} ClearedStaysOut(states: seq<State>, actions: seq<Action>, i: nat, j: nat, w: nat)
    requires Run(states, actions) && i < j < |actions| && actions[i].Clear? && actions[j].Finish?
             && actions[j].worker == w
    requires w in states[i].workers && states[i].workers[w].Converting?
    requires forall k | i < k <= j :: w in states[k].workers && states[k].workers[w] == states[i].workers[w]
    ensures actions[j].lease in states[j + 1].leases && states[j + 1].leases[actions[j].lease].Private?
    ensures states[j + 1].leases[actions[j].lease].job == states[i].workers[w].job
  {
    hide *;
    RunStep(states, actions, i);
    var job := states[i].workers[w].job;
    RunKeepsInv(states, actions, i);
    RunStep(states, actions, j);
    ClearTells(states[i], actions[i].order, actions[i].stuck, w);
    ToldLasts(states, actions, i + 1, j, w, job);
    ToldFinish(states[j], actions[j]);
  }

  lemma RunStep(states: seq<State>, actions: seq<Action>, i: nat)
    requires Run(states, actions) && i < |actions|
    ensures |states| == |actions| + 1 && Enabled(states[i], actions[i]) && states[i + 1] == Apply(states[i], actions[i])
  {
    assert StepAt(states, actions, i);
  }

  lemma ClearTells(s: State, order: seq<string>, stuck: set<string>, w: nat)
    requires Inv(s) && Enabled(s, Clear(order, stuck)) && w in s.workers && s.workers[w].Converting?
    ensures Told(Apply(s, Clear(order, stuck)), w, s.workers[w].job)
  {
    hide Apply, Counted, Intact, Backed, Exclusive;
    ClearMeans(s, order, stuck);
    assert SoundWorker(s.workers[w], s.entries, s.jobs, s.disk);
  }

  lemma ToldFinish(s: State, a: Action)
    requires Enabled(s, a) && a.Finish? && Told(s, a.worker, s.workers[a.worker].job)
    ensures a.lease in Apply(s, a).leases && Apply(s, a).leases[a.lease].Private?
            && Apply(s, a).leases[a.lease].job == s.workers[a.worker].job
  {
    hide Apply, Total, UseOrder;
    FinishMeans(s, a);
  }
}
