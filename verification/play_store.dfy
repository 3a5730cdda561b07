/**
 The store's writers (internal/app/store.go), each proved to do to the published state and to the
 rows what PlayHistory says.
 */
module PlayStore {
  import opened Wrappers
  import opened H = PlayHistory

  datatype Outcome = Unavailable | Nothing | Refused | Done

  lemma FoundAt(tracks: seq<Track>, id: string, i: nat)
    requires UniqueIds(tracks) && i < |tracks| && tracks[i].id == id
    ensures Find(tracks, id) == Some(i)
  {}

  ghost predicate Indexed(tracks: seq<Track>, index: map<string, nat>) {
    && (forall id | id in index :: index[id] < |tracks| && tracks[index[id]].id == id)
    && (forall i | 0 <= i < |tracks| :: tracks[i].id in index)
  }

  /** The published state is what the database holds, and the index finds every track. */
  ghost predicate Good(e: Env, s: H.State, t: Tables, index: map<string, nat>) {
    Sorts(e) && Agree(s, t) && Indexed(s.tracks, index)
  }

  lemma Lookup(e: Env, s: H.State, t: Tables, index: map<string, nat>, id: string)
    requires Good(e, s, t, index)
    ensures Find(s.tracks, id) == if id in index then Some(index[id]) else None
    ensures id in index ==> index[id] < |s.tracks| && id in t.rows
  {
    AgreeUnique(s, t);
    if id in index {
      FoundAt(s.tracks, id, index[id]);
      CountedAgrees(s, t, index[id], 0);
    }
  }

  lemma StaysGood(e: Env, s: H.State, t: Tables, index: map<string, nat>, op: Op)
    requires Good(e, s, t, index)
    ensures Good(e, Published(e, s, op), Stored(e, s, t, op), index) <==>
            (op.ClearRecent? && !op.fails ==> Timely(s.tracks))
  {
    hide Published, Stored, Agree, Sorts, Timely;
    AgreeUnique(s, t);
    if op.ClearRecent? && !op.fails { ClearRecentAgreesExactly(e, s, t); } else { OperationsAgree(e, s, t, op); }
    StepKeepsTracks(e, s, op);
    forall i | 0 <= i < |s.tracks|
      ensures Published(e, s, op).tracks[i].id == s.tracks[i].id
    {
      TrackStep(e, s, op, i);
    }
  }

  lemma GoodPlay(e: Env, s: H.State, t: Tables, index: map<string, nat>, op: Op)
    requires Good(e, s, t, index) && op.Play? && Counts(s, op)
    ensures |Recent(Stored(e, s, t, op).rows)| <= RETAINED
  {
    PlayAgrees(e, s, t, op);
  }

  lemma WhenUncounted(e: Env, s: H.State, t: Tables, op: Op)
    requires op.Play? && !Counts(s, op)
    ensures Published(e, s, op) == s && Stored(e, s, t, op) == t
  {}

  lemma WhenCounted(e: Env, s: H.State, t: Tables, op: Op, i: nat)
    requires op.Play? && Find(s.tracks, op.id) == Some(i) && op.id in t.rows
    ensures var played := PlayedAt(s.tracks, i, op.at);
            Published(e, s, op) ==
                if Counts(s, op) then H.State(Zeroed(played, Rest(e.sort(played))), WithSession(s.sessions, op)) else s
    ensures Stored(e, s, t, op) ==
            if Counts(s, op) then Tables(Retain(e.less, Counted(t.rows, op.id, op.at)), WithSession(t.sessions, op))
            else t
  {}

  lemma WhenFavored(e: Env, s: H.State, t: Tables, op: Op)
    requires op.Favor? && (Find(s.tracks, op.id).Some? ==> op.id in t.rows)
    ensures var i := Find(s.tracks, op.id);
            if i.None? || s.tracks[i.value].missing || s.tracks[i.value].favorite == op.favorite || op.fails
            then Published(e, s, op) == s && Stored(e, s, t, op) == t
            else Published(e, s, op) == s.(tracks := s.tracks[i.value := s.tracks[i.value].(favorite := op.favorite)])
                 && Stored(e, s, t, op) == t.(rows := t.rows[op.id := t.rows[op.id].(favorite := op.favorite)])
  {}

  lemma WhenCleared(e: Env, s: H.State, t: Tables, fails: bool, next: seq<Track>)
    requires |next| == |s.tracks| && forall j | 0 <= j < |next| :: next[j] == s.tracks[j].(last := 0)
    ensures Published(e, s, H.ClearRecent(fails)) == if fails then s else s.(tracks := next)
    ensures Stored(e, s, t, H.ClearRecent(fails)) == if fails then t else t.(rows := Cleared(t.rows))
  {
    assert next == Published(e, s, H.ClearRecent(false)).tracks;
  }

  function Cleared(rows: map<string, Row>): map<string, Row> {
    map id | id in rows :: if rows[id].last > 0 then rows[id].(last := 0) else rows[id]
  }

  /** The i-th track has been played once more, at this time; others keep all but perhaps their time of last play. */
  ghost predicate Played(before: seq<Track>, after: seq<Track>, i: nat, at: int)
    requires |before| == |after| && i < |before|
  {
    && after[i] == before[i].(plays := before[i].plays + 1, last := after[i].last)
    && (after[i].last == at || after[i].last == 0)
    && forall j | 0 <= j < |before| && j != i ::
         after[j] == before[j].(last := after[j].last) && (after[j].last == before[j].last || after[j].last == 0)
  }

  /** At most 500 rows keep a time of last play: the latest, and among equal ones those with the smaller ids. */
  ghost predicate LatestKept(less: Order, before: map<string, Row>, after: map<string, Row>) {
    && after.Keys == before.Keys
    && (forall k | k in after :: after[k] == before[k].(last := after[k].last))
    && (forall k | k in after :: after[k].last == before[k].last || after[k].last == 0)
    && |set k | k in after && after[k].last > 0| <= 500
    && (|set k | k in before && before[k].last > 0| <= 500 ==> after == before)
    && (forall a, b | a in after && b in after && after[a].last > 0 && before[b].last > 0 && after[b].last == 0 ::
          before[a].last > before[b].last || (before[a].last == before[b].last && less(a, b)))
  }

  lemma PlayedMeans(e: Env, s: H.State, t: Tables, index: map<string, nat>, op: Op)
    requires Good(e, s, t, index) && op.Play? && op.id in index
    ensures index[op.id] < |s.tracks| && op.id in t.rows
    ensures var played := PlayedAt(s.tracks, index[op.id], op.at);
            var after := Zeroed(played, Rest(e.sort(played)));
            |after| == |s.tracks| && Played(s.tracks, after, index[op.id], op.at)
    ensures LatestKept(e.less, Counted(t.rows, op.id, op.at), Retain(e.less, Counted(t.rows, op.id, op.at)))
  {
    hide Agree, Sorts, Retain, Rest, Find, StrictTotal, LatestKept, Counted, Played, Zeroed, PlayedAt;
    Lookup(e, s, t, index, op.id);
    SortsTotal(e);
    RetainedAreLatest(e.less, Counted(t.rows, op.id, op.at));
    PlayedTracks(s.tracks, index[op.id], op.at, Rest(e.sort(PlayedAt(s.tracks, index[op.id], op.at))));
  }

  lemma RetainedAreLatest(less: Order, rows: map<string, Row>)
    requires StrictTotal(less)
    ensures LatestKept(less, rows, Retain(less, rows))
  {
    hide Retain, StrictTotal;
    LatestAreRetained(less, rows);
  }

  lemma PlayedTracks(tracks: seq<Track>, i: nat, at: int, rest: seq<nat>)
    requires i < |tracks|
    ensures var after := Zeroed(PlayedAt(tracks, i, at), rest); |after| == |tracks| && Played(tracks, after, i, at)
  {}

  lemma SortsTotal(e: Env)
    requires Sorts(e)
    ensures StrictTotal(e.less)
  {}

  class Store {
    const env: Env
    var tracks: seq<Track>
    var sessions: set<string>
    var index: map<string, nat>
    var revision: nat
    var rows: map<string, Row>        // tracks
    var played: set<string>           // playback_sessions

    ghost function View(): H.State
      reads this
    {
      H.State(tracks, sessions)
    }

    ghost function Database(): H.Tables
      reads this
    {
      H.Tables(rows, played)
    }

    ghost predicate Valid()
      reads this
    {
      Good(env, View(), Database(), index)
    }

    method Publish(next: seq<Track>, nextSessions: set<string>)
      modifies this`revision, this`tracks, this`sessions
      ensures tracks == next && sessions == nextSessions && revision == old(revision) + 1
    {
      revision := revision + 1;
      tracks, sessions := next, nextSessions;
    }

    method SetFavorite(id: string, favorite: bool, fails: bool) returns (o: Outcome)
      requires Valid()
      modifies this`tracks, this`sessions, this`revision, this`rows
      ensures Valid()
      ensures View() == Published(env, old(View()), Favor(id, favorite, fails))
      ensures Database() == Stored(env, old(View()), old(Database()), Favor(id, favorite, fails))
      ensures revision == old(revision) + if o == Done then 1 else 0
      ensures o == if id !in index || old(tracks)[index[id]].missing then Unavailable
                   else if old(tracks)[index[id]].favorite == favorite then Nothing
                   else if fails then Refused else Done
      ensures sessions == old(sessions)
      ensures o != Done ==> tracks == old(tracks) && rows == old(rows)
      ensures o == Done ==>
                && id in old(rows)
                && tracks == old(tracks)[index[id] := old(tracks)[index[id]].(favorite := favorite)]
                && rows == old(rows)[id := old(rows)[id].(favorite := favorite)]
    {
      hide Good, Find, Published, Stored;
      Lookup(env, View(), Database(), index, id);
      WhenFavored(env, View(), Database(), Favor(id, favorite, fails));
      StaysGood(env, View(), Database(), index, Favor(id, favorite, fails));
      if id !in index || tracks[index[id]].missing { return Unavailable; }
      var i := index[id];
      if tracks[i].favorite == favorite { return Nothing; }
      if fails { return Refused; }
      rows := rows[id := rows[id].(favorite := favorite)];
      Publish(tracks[i := tracks[i].(favorite := favorite)], sessions);
      o := Done;
    }

    /** ClearRecent: memory and database still agree exactly if it fails or no time was negative. */
    method ClearRecent(fails: bool) returns (o: Outcome)
      requires Valid()
      modifies this`tracks, this`sessions, this`revision, this`rows
      ensures Valid() <==> fails || Timely(old(tracks))
      ensures View() == Published(env, old(View()), H.ClearRecent(fails))
      ensures Database() == Stored(env, old(View()), old(Database()), H.ClearRecent(fails))
      ensures revision == old(revision) + if o == Done then 1 else 0
      ensures o == (if fails then Refused else Done) && sessions == old(sessions)
      ensures fails ==> tracks == old(tracks) && rows == old(rows)
      ensures !fails ==>
                && |tracks| == |old(tracks)|
                   && (forall j | 0 <= j < |tracks| :: tracks[j] == old(tracks)[j].(last := 0))
                && rows.Keys == old(rows).Keys
                && (forall k | k in rows ::
                      rows[k] == if old(rows)[k].last > 0 then old(rows)[k].(last := 0) else old(rows)[k])
    {
      hide Good, Published, Stored;
      StaysGood(env, View(), Database(), index, H.ClearRecent(fails));
      var next := tracks;
      for i := 0 to |next|
        invariant |next| == |tracks|
        invariant forall j | 0 <= j < |tracks| :: next[j] == if j < i then tracks[j].(last := 0) else tracks[j]
      {
        next := next[i := next[i].(last := 0)];
      }
      WhenCleared(env, View(), Database(), fails, next);
      if fails { return Refused; }
      rows := map id | id in rows :: if rows[id].last > 0 then rows[id].(last := 0) else rows[id];
      Publish(next, sessions);
      o := Done;
    }

    /** RecordPlayed: the statements of one transaction, then the same changes to the published tracks. */
    method RecordPlayed(id: string, session: string, seconds: real, completed: bool, seeked: bool, at: int,
            fails: bool) returns (o: Outcome)
      requires Valid()
      modifies this
      ensures Valid()
      ensures View() == Published(env, old(View()), Play(id, session, seconds, completed, seeked, at, fails))
      ensures Database() ==
              Stored(env, old(View()), old(Database()), Play(id, session, seconds, completed, seeked, at, fails))
      ensures o == Done <==> Counts(old(View()), Play(id, session, seconds, completed, seeked, at, fails))
      ensures index == old(index)
      ensures o == Unavailable <==> id !in index || old(tracks)[index[id]].missing
      ensures o != Unavailable && session != "" && id + ":" + session in old(sessions) ==> o == Nothing
      ensures o != Unavailable && !(session != "" && id + ":" + session in old(sessions)) ==>
                var t, done := old(tracks)[index[id]], if fails then Refused else Done;
                && (seconds >= 15.0 ==> o == done)
                && (seconds < 15.0 && !(0.0 < t.duration < 15.0) ==> o == Nothing)
                && (seconds < 15.0 && 0.0 < t.duration < 15.0 ==>
                      o == if completed && !seeked && seconds >= t.duration - 0.25 then done else Nothing)
      ensures o != Done ==>
                tracks == old(tracks) && sessions == old(sessions) && rows == old(rows) && played == old(played)
                && revision == old(revision)
      ensures o == Done ==>
                && revision == old(revision) + 1
                && sessions == old(sessions) + (if session == "" then {} else {id + ":" + session})
                && |tracks| == |old(tracks)| && Played(old(tracks), tracks, index[id], at)
                && LatestKept(env.less, old(rows)[id := old(rows)[id].(plays := old(rows)[id].plays + 1, last := at)],
                   rows)
    {
      ghost var op := Play(id, session, seconds, completed, seeked, at, fails);
      hide Good, Find, Published, Stored, Agree, Sorts, Retain, Zeroed, Rest, Recent, LatestKept, Played;
      Lookup(env, View(), Database(), index, id);
      StaysGood(env, View(), Database(), index, op);
      if id in index {
        WhenCounted(env, View(), Database(), op, index[id]);
        PlayedMeans(env, View(), Database(), index, op);
      }
      if Counts(View(), op) {
        GoodPlay(env, View(), Database(), index, op);
      } else {
        WhenUncounted(env, View(), Database(), op);
      }
      if id !in index || tracks[index[id]].missing { return Unavailable; }
      var i := index[id];
      var t := tracks[i];
      if session != "" && SessionKey(id, session) in sessions { return Nothing; }
      if seconds < 15.0 && !(t.duration > 0.0 && t.duration < 15.0 && completed && !seeked
          && seconds >= t.duration - 0.25) {
        return Nothing;
      }
      if fails { return Refused; }
      rows := Retain(env.less, rows[id := rows[id].(plays := rows[id].plays + 1, last := at)]);
      if session != "" { played := played + {SessionKey(id, session)}; }
      var next := tracks[i := t.(plays := t.plays + 1, last := at)];
      next := ZeroRest(next, env.sort(next));
      Publish(next, if session != "" then sessions + {SessionKey(id, session)} else sessions);
      o := Done;
    }
  }

  /** The loop over what is ranked after 500. */
  method ZeroRest(tracks: seq<Track>, order: seq<nat>) returns (next: seq<Track>)
    ensures next == Zeroed(tracks, Rest(order))
  {
    next := tracks;
    var rest := Rest(order);
    for k := 0 to |rest|
      invariant |next| == |tracks|
      invariant forall j | 0 <= j < |tracks| :: next[j] == if j in rest[..k] then tracks[j].(last := 0) else tracks[j]
    {
      assert rest[..k + 1] == rest[..k] + [rest[k]];
      if rest[k] < |next| { next := next[rest[k] := next[rest[k]].(last := 0)]; }
    }
    assert rest[..|rest|] == rest;
  }
}
