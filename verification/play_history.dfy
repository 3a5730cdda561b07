/**
 Counting plays (internal/app/store.go): the published tracks and sessions, and the SQL rows
 they mirror. `less` is the order of ids, the same for strings.Compare and for SQLite's
 binary collation.
 */
module PlayHistory {
  import opened Wrappers

  datatype Track = Track(id: string, missing: bool, favorite: bool, plays: nat, last: int, duration: real)

  datatype Row = Row(favorite: bool, plays: nat, last: int)

  datatype State = State(tracks: seq<Track>, sessions: set<string>)

  datatype Tables = Tables(rows: map<string, Row>, sessions: set<string>)

  type Order = (string, string) -> bool

  const RETAINED := 500

  ghost predicate StrictTotal(less: Order) {
    && (forall a :: !less(a, a))
    && (forall a, b, c :: less(a, b) && less(b, c) ==> less(a, c))
    && (forall a, b :: a == b || less(a, b) || less(b, a))
  }

  ghost predicate UniqueIds(tracks: seq<Track>) { forall i, j | 0 <= i < j < |tracks| :: tracks[i].id != tracks[j].id }

  function RowOf(t: Track): Row { Row(t.favorite, t.plays, t.last) }

  ghost predicate Mirrored(tracks: seq<Track>, rows: map<string, Row>) {
    forall i | 0 <= i < |tracks| :: tracks[i].id in rows && rows[tracks[i].id] == RowOf(tracks[i])
  }

  ghost predicate Present(tracks: seq<Track>, id: string) { exists i :: 0 <= i < |tracks| && tracks[i].id == id }

  /** The published tracks are the rows, and the published sessions the rows of playback_sessions. */
  ghost predicate Agree(s: State, t: Tables) {
    && UniqueIds(s.tracks) && Mirrored(s.tracks, t.rows)
    && (forall id | id in t.rows :: Present(s.tracks, id))
    && s.sessions == t.sessions
  }

  /** Changing tracks in place, and their rows with them, keeps the agreement. */
  lemma StillAgree(s: State, t: Tables, tracks: seq<Track>, rows: map<string, Row>)
    requires Agree(s, t) && |tracks| == |s.tracks| && rows.Keys == t.rows.Keys
    requires forall i | 0 <= i < |tracks| :: tracks[i].id == s.tracks[i].id
    requires Mirrored(tracks, rows)
    ensures Agree(s.(tracks := tracks), t.(rows := rows))
  {
    hide Mirrored;
    forall id | id in rows ensures Present(tracks, id) {
      assert Present(s.tracks, id);
      var i :| 0 <= i < |s.tracks| && s.tracks[i].id == id;
      assert tracks[i].id == id;
    }
  }

  /******* SQL *******/

  /** ORDER BY last_played DESC, id. */
  predicate Before(less: Order, rows: map<string, Row>, a: string, b: string)
    requires a in rows && b in rows
  {
    rows[a].last > rows[b].last || (rows[a].last == rows[b].last && less(a, b))
  }

  function Recent(rows: map<string, Row>): set<string> { set id | id in rows && rows[id].last > 0 }

  function Preceding(less: Order, rows: map<string, Row>, id: string): set<string>
    requires id in rows
  {
    set o | o in rows && rows[o].last > 0 && Before(less, rows, o, id)
  }

  /** Among the first 500 of SELECT id FROM tracks WHERE last_played>0 ORDER BY last_played DESC,id. */
  predicate Selected(less: Order, rows: map<string, Row>, id: string)
    requires id in rows
  {
    rows[id].last > 0 && |Preceding(less, rows, id)| < RETAINED
  }

  /** UPDATE tracks SET last_played=0 WHERE last_played>0 AND id NOT IN (that selection). */
  function Retain(less: Order, rows: map<string, Row>): map<string, Row> {
    map id | id in rows :: if rows[id].last > 0 && !Selected(less, rows, id) then rows[id].(last := 0) else rows[id]
  }

  function Counted(rows: map<string, Row>, id: string, at: int): map<string, Row>
    requires id in rows
  {
    rows[id := rows[id].(plays := rows[id].plays + 1, last := at)]
  }

  lemma BeforeChains(less: Order, rows: map<string, Row>, a: string, b: string, c: string)
    requires StrictTotal(less) && a in rows && b in rows && c in rows
    requires Before(less, rows, a, b) && Before(less, rows, b, c)
    ensures Before(less, rows, a, c)
  {}

  /** The last of a nonempty set of ids. */
  lemma {:induction false} LastOf(less: Order, rows: map<string, Row>, ids: set<string>) returns (last: string)
    requires StrictTotal(less) && ids != {} && ids <= rows.Keys
    ensures last in ids && forall o | o in ids && o != last :: Before(less, rows, o, last)
    decreases ids
  {
    var any :| any in ids;
    var others := ids - {any};
    if others == {} {
      last := any;
      assert ids == {any};
    } else {
      var best := LastOf(less, rows, others);
      last := if Before(less, rows, best, any) then any else best;
      forall o | o in ids && o != last ensures Before(less, rows, o, last) {
        if last == any {
          assert o in others;
          if o != best { BeforeChains(less, rows, o, best, any); }
        } else if o == any {
          assert best != any;
        }
      }
    }
  }

  /** After the retention statement at most 500 tracks have a time of last play. */
  lemma AtMostRetained(less: Order, rows: map<string, Row>)
    requires StrictTotal(less)
    ensures |Recent(Retain(less, rows))| <= RETAINED
  {
    var kept := Recent(Retain(less, rows));
    if kept != {} {
      var last := LastOf(less, rows, kept);
      assert Selected(less, rows, last);
      assert kept - {last} <= Preceding(less, rows, last);
      SubsetSize(kept - {last}, Preceding(less, rows, last));
    }
  }

  /** One more of these would be too many: when a track loses its time, 500 others have kept theirs. */
  lemma {:induction false} DroppedAfterFull(less: Order, rows: map<string, Row>, id: string)
    requires StrictTotal(less) && id in rows && rows[id].last > 0 && Retain(less, rows)[id].last == 0
    ensures |Recent(Retain(less, rows))| == 500
    decreases |Preceding(less, rows, id)|
  {
    var kept, ahead := Recent(Retain(less, rows)), Preceding(less, rows, id);
    if ahead <= kept {
      SubsetSize(ahead, kept);
      AtMostRetained(less, rows);
    } else {
      var o :| o in ahead && o !in kept;
      forall a | a in Preceding(less, rows, o) ensures a in ahead { BeforeChains(less, rows, a, o, id); }
      assert Preceding(less, rows, o) <= ahead - {o};
      SubsetSize(Preceding(less, rows, o), ahead - {o});
      DroppedAfterFull(less, rows, o);
    }
  }

  /**
   The retention statement keeps the 500 latest times of last play, the smaller id first among
   equal ones, and everything else about every row.
   */
  lemma {:induction false} LatestAreRetained(less: Order, rows: map<string, Row>)
    requires StrictTotal(less)
    ensures var after := Retain(less, rows);
            && after.Keys == rows.Keys
            && (forall id | id in rows ::
                  after[id] == rows[id] || (rows[id].last > 0 && after[id] == rows[id].(last := 0)))
            && |set id | id in rows && after[id].last > 0| <= 500
            && (|set id | id in rows && rows[id].last > 0| <= 500 ==> after == rows)
            && (|set id | id in rows && rows[id].last > 0| >= 500 ==>
               |set id | id in rows && after[id].last > 0| == 500)
            && (forall a, b | a in rows && b in rows && after[a].last > 0 && rows[b].last > 0 && after[b].last == 0 ::
                  rows[a].last > rows[b].last || (rows[a].last == rows[b].last && less(a, b)))
  {
    hide Retain, StrictTotal;
    var after := Retain(less, rows);
    RetainedRows(less, rows);
    RetainedCount(less, rows);
    assert (set id | id in rows && after[id].last > 0) == Recent(after);
    assert (set id | id in rows && rows[id].last > 0) == Recent(rows);
    forall a, b | a in rows && b in rows && after[a].last > 0 && rows[b].last > 0 && after[b].last == 0
      ensures rows[a].last > rows[b].last || (rows[a].last == rows[b].last && less(a, b))
    {
      KeptBeforeDropped(less, rows, a, b);
    }
  }

  lemma RetainedRows(less: Order, rows: map<string, Row>)
    ensures var after := Retain(less, rows);
            after.Keys == rows.Keys && forall id | id in rows ::
                after[id] == rows[id] || (rows[id].last > 0 && after[id] == rows[id].(last := 0))
  {}

  lemma {:induction false} RetainedCount(less: Order, rows: map<string, Row>)
    requires StrictTotal(less)
    ensures var after := Retain(less, rows);
            && |Recent(after)| <= 500 && (|Recent(rows)| <= 500 ==> after == rows)
            && (|Recent(rows)| >= 500 ==> |Recent(after)| == 500)
  {
    hide Retain, StrictTotal;
    var after := Retain(less, rows);
    AtMostRetained(less, rows);
    RetainedRows(less, rows);
    if b :| b in rows && rows[b].last > 0 && after[b].last == 0 {
      DroppedAfterFull(less, rows, b);
      assert b in Recent(rows) && b !in Recent(after) && Recent(after) <= Recent(rows) - {b};
      SubsetSize(Recent(after), Recent(rows) - {b});
    } else {
      assert after == rows;
    }
  }

  lemma {:induction false} KeptBeforeDropped(less: Order, rows: map<string, Row>, a: string, b: string)
    requires StrictTotal(less) && a in rows && b in rows
    requires Retain(less, rows)[a].last > 0 && rows[b].last > 0 && Retain(less, rows)[b].last == 0
    ensures Before(less, rows, a, b)
  {
    if !Before(less, rows, a, b) {
      assert Before(less, rows, b, a) by { assert a != b; }
      forall o | o in Preceding(less, rows, b) ensures o in Preceding(less, rows, a) {
        BeforeChains(less, rows, o, b, a);
      }
      SubsetSize(Preceding(less, rows, b), Preceding(less, rows, a));
    }
  }

  lemma SubsetSize(a: set<string>, b: set<string>)
    requires a <= b
    ensures |a| <= |b|
  {
    assert |b - a| == |b| - |a|;
  }

  /******* The published state *******/

  /** RecordPlayed's comparison of two tracks. */
  predicate Newer(less: Order, a: Track, b: Track) { a.last > b.last || (a.last == b.last && less(a.id, b.id)) }

  ghost predicate Inside(tracks: seq<Track>, order: seq<nat>) { forall k | 0 <= k < |order| :: order[k] < |tracks| }

  ghost predicate Descending(less: Order, tracks: seq<Track>, order: seq<nat>)
    requires Inside(tracks, order)
  {
    forall j, k | 0 <= j < k < |order| :: Newer(less, tracks[order[j]], tracks[order[k]])
  }

  /** What collecting and sorting the indices of the played tracks leaves. */
  ghost predicate Ranking(less: Order, tracks: seq<Track>, order: seq<nat>) {
    && Inside(tracks, order) && Descending(less, tracks, order)
    && (forall k | 0 <= k < |order| :: tracks[order[k]].last > 0)
    && (forall i | 0 <= i < |tracks| && tracks[i].last > 0 :: i in order)
  }

  /** The tracks at these positions lose their time of last play. */
  function Zeroed(tracks: seq<Track>, positions: seq<nat>): seq<Track> {
    seq(|tracks|, i requires 0 <= i < |tracks| => if i in positions then tracks[i].(last := 0) else tracks[i])
  }

  function Rest(order: seq<nat>): seq<nat> { if |order| > RETAINED then order[RETAINED..] else [] }

  /** The ids of the first n in the order. */
  function FirstIds(tracks: seq<Track>, order: seq<nat>, n: nat): set<string>
    requires n <= |order| && forall k | 0 <= k < |order| :: order[k] < |tracks|
  {
    if n == 0 then {} else FirstIds(tracks, order, n - 1) + {tracks[order[n - 1]].id}
  }

  lemma {:induction false} FirstIdsAre(less: Order, tracks: seq<Track>, order: seq<nat>, n: nat, id: string)
    requires n <= |order| && Inside(tracks, order)
    ensures id in FirstIds(tracks, order, n) <==> exists k :: 0 <= k < n && tracks[order[k]].id == id
  {
    if n > 0 { FirstIdsAre(less, tracks, order, n - 1, id); }
  }

  lemma DifferentIds(less: Order, tracks: seq<Track>, order: seq<nat>, j: nat, k: nat)
    requires StrictTotal(less) && UniqueIds(tracks) && Inside(tracks, order) && Descending(less, tracks, order)
             && j < k < |order|
    ensures order[j] != order[k] && tracks[order[j]].id != tracks[order[k]].id
  {
    assert Newer(less, tracks[order[j]], tracks[order[k]]);
  }

  lemma {:induction false} FirstIdsSize(less: Order, tracks: seq<Track>, order: seq<nat>, n: nat)
    requires StrictTotal(less) && UniqueIds(tracks) && Inside(tracks, order) && Descending(less, tracks, order)
             && n <= |order|
    ensures |FirstIds(tracks, order, n)| == n
  {
    if n > 0 {
      FirstIdsSize(less, tracks, order, n - 1);
      FirstIdsAre(less, tracks, order, n - 1, tracks[order[n - 1]].id);
      forall k | 0 <= k < n - 1
        ensures tracks[order[k]].id != tracks[order[n - 1]].id
      {
        DifferentIds(less, tracks, order, k, n - 1);
      }
    }
  }

  lemma Precedes(less: Order, s: State, t: Tables, order: seq<nat>, k: nat, o: string)
    requires StrictTotal(less) && Agree(s, t) && Ranking(less, s.tracks, order) && k < |order|
             && s.tracks[order[k]].id in t.rows
    ensures o in Preceding(less, t.rows, s.tracks[order[k]].id) <==>
            exists j :: 0 <= j < k && s.tracks[order[j]].id == o
  {
    if o in Preceding(less, t.rows, s.tracks[order[k]].id) {
      PrecedingIsRanked(less, s, t, order, k, o);
    }
    if j :| 0 <= j < k && s.tracks[order[j]].id == o {
      assert Newer(less, s.tracks[order[j]], s.tracks[order[k]]);
    }
  }

  lemma Compared(less: Order, tracks: seq<Track>, order: seq<nat>, j: nat, k: nat)
    requires Inside(tracks, order) && Descending(less, tracks, order) && j < |order| && k < |order|
    ensures k < j ==> Newer(less, tracks[order[k]], tracks[order[j]])
  {}

  lemma PrecedingIsRanked(less: Order, s: State, t: Tables, order: seq<nat>, k: nat, o: string)
    requires StrictTotal(less) && Agree(s, t) && Ranking(less, s.tracks, order) && k < |order|
             && s.tracks[order[k]].id in t.rows
    requires o in Preceding(less, t.rows, s.tracks[order[k]].id)
    ensures exists j :: 0 <= j < k && s.tracks[order[j]].id == o
  {
    var i :| 0 <= i < |s.tracks| && s.tracks[i].id == o;
    assert i in order;
    var j :| 0 <= j < |order| && order[j] == i;
    Compared(less, s.tracks, order, j, k);
  }

  /** A track is ranked after as many others as rows precede its own. */
  lemma RankIsPosition(less: Order, s: State, t: Tables, order: seq<nat>, k: nat)
    requires StrictTotal(less) && Agree(s, t) && Ranking(less, s.tracks, order) && k < |order|
    ensures s.tracks[order[k]].id in t.rows && |Preceding(less, t.rows, s.tracks[order[k]].id)| == k
  {
    var id := s.tracks[order[k]].id;
    forall o ensures o in Preceding(less, t.rows, id) <==> o in FirstIds(s.tracks, order, k) {
      Precedes(less, s, t, order, k, o);
      FirstIdsAre(less, s.tracks, order, k, o);
    }
    FirstIdsSize(less, s.tracks, order, k);
    assert Preceding(less, t.rows, id) == FirstIds(s.tracks, order, k);
  }

  lemma InRest(less: Order, tracks: seq<Track>, order: seq<nat>, k: nat)
    requires StrictTotal(less) && UniqueIds(tracks) && Inside(tracks, order) && Descending(less, tracks, order)
             && k < |order|
    ensures order[k] in Rest(order) <==> k >= RETAINED
  {
    hide StrictTotal, UniqueIds, Descending;
    if k >= RETAINED {
      assert Rest(order)[k - RETAINED] == order[k];
    } else if order[k] in Rest(order) {
      var j :| 0 <= j < |Rest(order)| && Rest(order)[j] == order[k];
      assert Rest(order)[j] == order[RETAINED + j];
      DifferentIds(less, tracks, order, k, RETAINED + j);
    }
  }

  lemma RestIsPlayed(less: Order, tracks: seq<Track>, order: seq<nat>, i: nat)
    requires Ranking(less, tracks, order) && i in Rest(order)
    ensures i < |tracks| && tracks[i].last > 0
  {
    var j :| 0 <= j < |Rest(order)| && Rest(order)[j] == i;
    assert order[RETAINED + j] == i;
  }

  lemma ZeroedAsRetained(less: Order, s: State, t: Tables, order: seq<nat>, i: nat)
    requires StrictTotal(less) && Agree(s, t) && Ranking(less, s.tracks, order) && i < |s.tracks|
    ensures s.tracks[i].id in t.rows
    ensures RowOf(Zeroed(s.tracks, Rest(order))[i]) == Retain(less, t.rows)[s.tracks[i].id]
  {
    if s.tracks[i].last > 0 {
      assert i in order;
      var k :| 0 <= k < |order| && order[k] == i;
      RankIsPosition(less, s, t, order, k);
      InRest(less, s.tracks, order, k);
    } else if i in Rest(order) {
      RestIsPlayed(less, s.tracks, order, i);
    }
  }

  /** Zeroing what is ranked after 500 mirrors the retention statement. */
  lemma RetentionAgrees(less: Order, s: State, t: Tables, order: seq<nat>)
    requires StrictTotal(less) && Agree(s, t) && Ranking(less, s.tracks, order)
    ensures Agree(s.(tracks := Zeroed(s.tracks, Rest(order))), t.(rows := Retain(less, t.rows)))
  {
    var after, rows := Zeroed(s.tracks, Rest(order)), Retain(less, t.rows);
    forall i | 0 <= i < |after| ensures after[i].id in rows && rows[after[i].id] == RowOf(after[i]) {
      ZeroedAsRetained(less, s, t, order, i);
    }
    assert Mirrored(after, rows);
    hide Ranking, StrictTotal, Mirrored, Agree, Rest;
    StillAgree(s, t, after, rows);
  }

  /******* The operations *******/

  /** `sort` is what collecting and sorting the indices of the played tracks comes up with. */
  datatype Env = Env(less: Order, sort: seq<Track> -> seq<nat>)

  ghost predicate Sorts(e: Env) {
    StrictTotal(e.less) && forall tracks | UniqueIds(tracks) :: Ranking(e.less, tracks, e.sort(tracks))
  }

  /** `fails`: the database refuses the statement, or the commit. */
  datatype Op =
    | Play(id: string, session: string, seconds: real, completed: bool, seeked: bool, at: int, fails: bool)
    | Favor(id: string, favorite: bool, fails: bool)
    | ClearRecent(fails: bool)

  function Find(tracks: seq<Track>, id: string): (r: Option<nat>)
    ensures r.Some? ==> r.value < |tracks| && tracks[r.value].id == id
    ensures r.None? ==> forall i | 0 <= i < |tracks| :: tracks[i].id != id
  {
    if tracks == [] then None
    else if tracks[|tracks| - 1].id == id then Some(|tracks| - 1)
    else Find(tracks[..|tracks| - 1], id)
  }

  /** Long enough, or the whole of a short song. */
  predicate Heard(t: Track, seconds: real, completed: bool, seeked: bool) {
    seconds >= 15.0 || (t.duration > 0.0 && t.duration < 15.0 && completed && !seeked && seconds >= t.duration - 0.25)
  }

  function SessionKey(id: string, session: string): string { id + ":" + session }

  /** Whether a call of RecordPlayed counts a play. */
  predicate Counts(s: State, op: Op)
    requires op.Play?
  {
    var i := Find(s.tracks, op.id);
    && i.Some? && !s.tracks[i.value].missing
    && !(op.session != "" && SessionKey(op.id, op.session) in s.sessions)
    && Heard(s.tracks[i.value], op.seconds, op.completed, op.seeked)
    && !op.fails
  }

  function WithSession(sessions: set<string>, op: Op): set<string>
    requires op.Play?
  {
    if op.session != "" then sessions + {SessionKey(op.id, op.session)} else sessions
  }

  function PlayedAt(tracks: seq<Track>, i: nat, at: int): seq<Track>
    requires i < |tracks|
  {
    tracks[i := tracks[i].(plays := tracks[i].plays + 1, last := at)]
  }

  /** What is published. */
  function Published(e: Env, s: State, op: Op): State {
    match op
    case Play(id, session, _, _, _, at, _) =>
      if !Counts(s, op) then s
      else
        var played := PlayedAt(s.tracks, Find(s.tracks, id).value, at);
        State(Zeroed(played, Rest(e.sort(played))), WithSession(s.sessions, op))
    case Favor(id, favorite, fails) =>
      var i := Find(s.tracks, id);
      if i.None? || s.tracks[i.value].missing || s.tracks[i.value].favorite == favorite || fails then s
      else s.(tracks := s.tracks[i.value := s.tracks[i.value].(favorite := favorite)])
    case ClearRecent(fails) =>
      if fails then s else s.(tracks := seq(|s.tracks|, i requires 0 <= i < |s.tracks| => s.tracks[i].(last := 0)))
  }

  /** What the statements leave in the database. */
  function Stored(e: Env, s: State, t: Tables, op: Op): Tables {
    match op
    case Play(id, _, _, _, _, at, _) =>
      if !Counts(s, op) || id !in t.rows then t
      else Tables(Retain(e.less, Counted(t.rows, id, at)), WithSession(t.sessions, op))
    case Favor(id, favorite, fails) =>
      var i := Find(s.tracks, id);
      if i.None? || s.tracks[i.value].missing || s.tracks[i.value].favorite == favorite || fails || id !in t.rows then t
      else t.(rows := t.rows[id := t.rows[id].(favorite := favorite)])
    case ClearRecent(fails) =>
      if fails then t else t.(rows := map id | id in t.rows ::
          if t.rows[id].last > 0 then t.rows[id].(last := 0) else t.rows[id])
  }

  /** Times of last play are never negative, so that clearing the positive ones clears them all. */
  ghost predicate Timely(tracks: seq<Track>) { forall i | 0 <= i < |tracks| :: tracks[i].last >= 0 }

  lemma AgreeUnique(s: State, t: Tables)
    requires Agree(s, t)
    ensures UniqueIds(s.tracks)
  {}

  lemma CountedAgrees(s: State, t: Tables, i: nat, at: int)
    requires Agree(s, t) && i < |s.tracks|
    ensures s.tracks[i].id in t.rows
    ensures Agree(s.(tracks := PlayedAt(s.tracks, i, at)), t.(rows := Counted(t.rows, s.tracks[i].id, at)))
  {
    assert s.tracks[i].id in t.rows;
    var played, rows := PlayedAt(s.tracks, i, at), Counted(t.rows, s.tracks[i].id, at);
    assert rows.Keys == t.rows.Keys && Mirrored(played, rows);
    hide Mirrored;
    StillAgree(s, t, played, rows);
  }

  lemma SessionAgrees(s: State, t: Tables, op: Op)
    requires Agree(s, t) && op.Play?
    ensures Agree(s.(sessions := WithSession(s.sessions, op)), t.(sessions := WithSession(t.sessions, op)))
  {}

  lemma PlayAgrees(e: Env, s: State, t: Tables, op: Op)
    requires Sorts(e) && Agree(s, t) && op.Play? && Counts(s, op)
    ensures op.id in t.rows && Agree(Published(e, s, op), Stored(e, s, t, op))
    ensures |Recent(Stored(e, s, t, op).rows)| <= RETAINED
  {
    var i := Find(s.tracks, op.id).value;
    CountedAgrees(s, t, i, op.at);
    var s1, t1 := s.(tracks := PlayedAt(s.tracks, i, op.at)), t.(rows := Counted(t.rows, op.id, op.at));
    assert StrictTotal(e.less) && Ranking(e.less, s1.tracks, e.sort(s1.tracks)) by { AgreeUnique(s1, t1); }
    hide Agree, StrictTotal, Ranking, Retain, Zeroed, Sorts, Recent;
    RetentionAgrees(e.less, s1, t1, e.sort(s1.tracks));
    SessionAgrees(s1.(tracks := Zeroed(s1.tracks, Rest(e.sort(s1.tracks)))), t1.(rows := Retain(e.less, t1.rows)), op);
    AtMostRetained(e.less, t1.rows);
  }

  lemma FavorAgrees(e: Env, s: State, t: Tables, op: Op)
    requires Agree(s, t) && op.Favor?
    ensures Agree(Published(e, s, op), Stored(e, s, t, op))
  {
    var i := Find(s.tracks, op.id);
    if i.Some? {
      var tracks := s.tracks[i.value := s.tracks[i.value].(favorite := op.favorite)];
      assert s.tracks[i.value].id in t.rows;
      var rows := t.rows[op.id := t.rows[op.id].(favorite := op.favorite)];
      assert rows.Keys == t.rows.Keys && Mirrored(tracks, rows);
      hide Mirrored;
      StillAgree(s, t, tracks, rows);
    }
  }

  /** Clearing clears the positive rows and every published track: the same exactly when no time is negative. */
  lemma ClearRecentAgreesExactly(e: Env, s: State, t: Tables)
    requires Agree(s, t)
    ensures Agree(Published(e, s, ClearRecent(false)), Stored(e, s, t, ClearRecent(false))) <==> Timely(s.tracks)
  {
    var tracks, rows := Published(e, s, ClearRecent(false)).tracks, Stored(e, s, t, ClearRecent(false)).rows;
    if Timely(s.tracks) {
      assert Mirrored(tracks, rows);
      StillAgree(s, t, tracks, rows);
    } else {
      var i :| 0 <= i < |s.tracks| && s.tracks[i].last < 0;
      assert s.tracks[i].id in t.rows && tracks[i].id == s.tracks[i].id;
      assert !Mirrored(tracks, rows);
    }
  }

  /** Publishing and storing go together: the published state still is what the database holds. */
  lemma OperationsAgree(e: Env, s: State, t: Tables, op: Op)
    requires Sorts(e) && Agree(s, t) && (op.ClearRecent? && !op.fails ==> Timely(s.tracks))
    ensures Agree(Published(e, s, op), Stored(e, s, t, op))
  {
    match op
    case Play(_, _, _, _, _, _, _) => if Counts(s, op) { PlayAgrees(e, s, t, op); }
    case Favor(_, _, _) => FavorAgrees(e, s, t, op);
    case ClearRecent(fails) => if !fails { ClearRecentAgreesExactly(e, s, t); }
  }

  /******* Runs *******/

  ghost predicate Clocked(ops: seq<Op>) { forall i | 0 <= i < |ops| :: ops[i].Play? ==> ops[i].at >= 0 }

  function After(e: Env, s: State, ops: seq<Op>): State
    decreases |ops|
  {
    if ops == [] then s else After(e, Published(e, s, ops[0]), ops[1..])
  }

  function TablesAfter(e: Env, s: State, t: Tables, ops: seq<Op>): Tables
    decreases |ops|
  {
    if ops == [] then t else TablesAfter(e, Published(e, s, ops[0]), Stored(e, s, t, ops[0]), ops[1..])
  }

  /** What one operation does to one track. */
  lemma TrackStep(e: Env, s: State, op: Op, i: nat)
    requires UniqueIds(s.tracks) && i < |s.tracks|
    ensures var t := Published(e, s, op);
            && |t.tracks| == |s.tracks| && t.tracks[i].id == s.tracks[i].id
            && t.tracks[i].plays ==
               s.tracks[i].plays + (if op.Play? && op.id == s.tracks[i].id && Counts(s, op) then 1 else 0)
            && (s.tracks[i].last >= 0 && (op.Play? ==> op.at >= 0) ==> t.tracks[i].last >= 0)
    ensures s.sessions <= Published(e, s, op).sessions
  {}

  lemma StepKeepsTracks(e: Env, s: State, op: Op)
    requires UniqueIds(s.tracks)
    ensures UniqueIds(Published(e, s, op).tracks) && |Published(e, s, op).tracks| == |s.tracks|
    ensures Timely(s.tracks) && (op.Play? ==> op.at >= 0) ==> Timely(Published(e, s, op).tracks)
  {
    forall i | 0 <= i < |s.tracks|
      ensures Published(e, s, op).tracks[i].id == s.tracks[i].id
      ensures s.tracks[i].last >= 0 && (op.Play? ==> op.at >= 0) ==> Published(e, s, op).tracks[i].last >= 0
    {
      TrackStep(e, s, op, i);
    }
    if s.tracks != [] { TrackStep(e, s, op, 0); }
    hide Published;
  }

  /** Over every run of plays, favourites and clearings the published state equals the rows. */
  lemma {:induction false} RunAgrees(e: Env, s: State, t: Tables, ops: seq<Op>)
    requires Sorts(e) && Agree(s, t) && Timely(s.tracks) && Clocked(ops)
    ensures Agree(After(e, s, ops), TablesAfter(e, s, t, ops))
    decreases |ops|
  {
    hide Agree, Sorts, Published, Stored, Timely;
    if ops != [] {
      assert UniqueIds(s.tracks) by { AgreeUnique(s, t); }
      OperationsAgree(e, s, t, ops[0]);
      StepKeepsTracks(e, s, ops[0]);
      assert Clocked(ops[1..]);
      RunAgrees(e, Published(e, s, ops[0]), Stored(e, s, t, ops[0]), ops[1..]);
    }
  }

  /** The counted plays of a track, among a run's operations. */
  function PlaysCounted(e: Env, s: State, ops: seq<Op>, id: string): nat
    decreases |ops|
  {
    if ops == [] then 0
    else (if ops[0].Play? && ops[0].id == id && Counts(s, ops[0]) then 1
        else 0) + PlaysCounted(e, Published(e, s, ops[0]), ops[1..], id)
  }

  /** Each track's count is what it was and one for each of its plays counted since. */
  lemma {:induction false} PlaysAreConserved(e: Env, s: State, ops: seq<Op>, i: nat)
    requires UniqueIds(s.tracks) && i < |s.tracks|
    ensures var t := After(e, s, ops);
            |t.tracks| == |s.tracks| && t.tracks[i].id == s.tracks[i].id &&
            t.tracks[i].plays == s.tracks[i].plays + PlaysCounted(e, s, ops, s.tracks[i].id)
    decreases |ops|
  {
    hide Published, Counts;
    if ops != [] {
      TrackStep(e, s, ops[0], i);
      StepKeepsTracks(e, s, ops[0]);
      PlaysAreConserved(e, Published(e, s, ops[0]), ops[1..], i);
    }
  }

  lemma {:induction false} SessionsStay(e: Env, s: State, ops: seq<Op>)
    ensures s.sessions <= After(e, s, ops).sessions
    decreases |ops|
  {
    if ops != [] { SessionsStay(e, Published(e, s, ops[0]), ops[1..]); }
  }

  /** A nonempty session counts at most once for a track, whatever happens in between. */
  lemma SessionCountsOnce(e: Env, s: State, first: Op, between: seq<Op>, second: Op)
    requires first.Play? && second.Play? && first.id == second.id && first.session == second.session != ""
    requires Counts(s, first)
    ensures !Counts(After(e, s, [first] + between), second)
  {
    assert ([first] + between)[1..] == between;
    SessionsStay(e, Published(e, s, first), between);
  }
}
