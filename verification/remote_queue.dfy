/**
 The continuous queue reader (internal/app/remote_queue.go): songs joined sample by sample
 into one stream, with the next song prepared in the background. A step is one thing the
 reader or a preparation does; `Handle` numbers what openPCM opened, so that releases can be
 counted.
 */
module RemoteQueue {
  import opened Collections
  import opened Wrappers
  import opened PlayQueue
  import opened StreamTime

  type Bytes = seq<bv8>

  datatype Song = Song(handle: nat, saved: Saved, pcm: Bytes, start: int, frames: int)

  /** A preparation: the planned place, whether it has ended, and the song it owns. */
  datatype Prepared = Prepared(ended: bool, plan: Option<Saved>, track: Option<Song>)

  datatype Reader = Reader(
    current: Song, held: bool, rest: Bytes,         // `held`: current.release is not nil; `rest`: unread PCM
    pending: seq<Song>, next: Prepared, eof: bool,
    joined: seq<Song>, delivered: Bytes,            // every song read from, and every byte read
    used: set<nat>, released: seq<nat>)             // handles opened, and releases in order

  const MAX_PENDING := 128

  function Frames(pcm: Bytes): int { |pcm| / 4 }

  /** prepareTrack's plan on a copy of the saved state: none when playback is to stop or nothing follows. */
  function Plan(saved: Saved, pick: nat, session: string): Option<Saved>
    requires InRange(saved)
  {
    if saved.waiting || saved.deadline > 0 || saved.finish then None
    else
      match Advance(saved, false, pick)
      case None => None
      case Some(next) => Some(ResetHistory(next.(position := 0), 0, session))
  }

  function Preparing(saved: Saved, pick: nat, session: string): Prepared
    requires InRange(saved)
  {
    var plan := Plan(saved, pick, session);
    Prepared(plan.None?, plan, None)
  }

  datatype Opening = NotOpened | Opens(handle: nat, pcm: Bytes)

  datatype Step =
    | EndPreparation(opening: Opening)             // the preparation's goroutine ends
    | Deliver(count: nat)                          // bytes of the current song are read
    | Drain                                        // the current song is at its end: release it
    | Adopt(pick: nat, session: string)            // go on with the prepared song
    | Heard                                        // progress drops a completed song
    | DropNext | DropCurrent                       // close

  predicate May(q: Reader, a: Step) {
    match a
    case EndPreparation(o) => !q.next.ended && (o.Opens? ==> o.handle !in q.used)
    case Deliver(n) => !q.eof && n <= |q.rest|
    case Drain => !q.eof && q.rest == []
    case Adopt(_, _) =>
        q.eof && !q.held && q.rest == [] && q.next.ended && q.next.track.Some? && |q.pending| < MAX_PENDING
        && InRange(q.next.track.value.saved)
    case Heard => |q.pending| > 1
    case DropNext => q.next.ended
    case DropCurrent => true
  }

  function Apply(q: Reader, a: Step): Reader
    requires May(q, a)
  {
    match a
    case EndPreparation(o) =>
      (match o
       case NotOpened => q.(next := q.next.(ended := true))
       case Opens(h, pcm) =>
         var used := q.used + {h};
         if q.next.plan.Some? && Frames(pcm) > 0
         then q.(used := used,
             next := q.next.(ended := true, track := Some(Song(h, q.next.plan.value, pcm, 0, Frames(pcm)))))
         else q.(used := used, released := q.released + [h], next := q.next.(ended := true)))
    case Deliver(n) => q.(delivered := q.delivered + q.rest[..n], rest := q.rest[n..])
    case Drain => Unheld(q).(eof := true)
    case Adopt(pick, session) =>
      var song := q.next.track.value.(start := q.current.start + q.current.frames);
      q.(current := song, held := true, rest := song.pcm, pending := q.pending + [song], joined := q.joined + [song],
         next := Preparing(song.saved, pick, session), eof := false)
    case Heard => q.(pending := q.pending[1..])
    case DropNext =>
      (match q.next.track
       case None => q
       case Some(song) => q.(released := q.released + [song.handle], next := q.next.(track := None)))
    case DropCurrent => Unheld(q).(eof := true)
  }

  function Unheld(q: Reader): Reader {
    if q.held then q.(released := q.released + [q.current.handle], held := false) else q
  }

  /******* What holds of every reader *******/

  function Concat(songs: seq<Song>): Bytes {
    if songs == [] then [] else Concat(songs[..|songs| - 1]) + songs[|songs| - 1].pcm
  }

  function TotalFrames(songs: seq<Song>): int {
    if songs == [] then 0 else TotalFrames(songs[..|songs| - 1]) + songs[|songs| - 1].frames
  }

  ghost predicate PlacedAt(joined: seq<Song>, k: nat)
    requires k < |joined|
  {
    joined[k].start == TotalFrames(joined[..k]) && joined[k].frames == Frames(joined[k].pcm)
  }

  /** Each song starts where the ones before it end. */
  ghost predicate Placed(joined: seq<Song>) { forall k | 0 <= k < |joined| :: PlacedAt(joined, k) }

  /** `to` is what the queue's rules let follow `from`. */
  ghost predicate Follows(from: Saved, to: Saved) {
    InRange(from) && exists pick: nat, session :: Plan(from, pick, session) == Some(to)
  }

  ghost predicate PlannedAt(joined: seq<Song>, k: nat)
    requires 0 < k < |joined|
  {
    Follows(joined[k - 1].saved, joined[k].saved)
  }

  /** Each song follows the one before it as the queue's rules plan it. */
  ghost predicate Planned(joined: seq<Song>) { forall k | 0 < k < |joined| :: PlannedAt(joined, k) }

  /** What the reader still has to release. */
  predicate Owns(q: Reader, h: nat) {
    (q.held && q.current.handle == h) || (q.next.track.Some? && q.next.track.value.handle == h)
  }

  /** Every song opened is owned or has been released: one of them, and once. */
  ghost predicate Accounted(q: Reader) {
    && Distinct(q.released)
    && (forall h :: h in q.used <==> h in q.released || Owns(q, h))
    && (forall h | h in q.released :: !Owns(q, h))
    && (q.held && q.next.track.Some? ==> q.current.handle != q.next.track.value.handle)
  }

  ghost predicate Streamed(current: Song, rest: Bytes, joined: seq<Song>, delivered: Bytes) {
    && joined != [] && joined[|joined| - 1] == current
    && |rest| <= |current.pcm| && rest == current.pcm[|current.pcm| - |rest|..]
    && delivered == Concat(joined[..|joined| - 1]) + current.pcm[..|current.pcm| - |rest|]
  }

  /** Pending songs are the last ones joined; the current one is always among them. */
  ghost predicate Tail(pending: seq<Song>, joined: seq<Song>) {
    0 < |pending| <= |joined| && pending == joined[|joined| - |pending|..]
  }

  /** A preparation plans what follows the current song. */
  ghost predicate Prepares(saved: Saved, next: Prepared) {
    && InRange(saved)
    && (next.plan.Some? ==> InRange(next.plan.value) && Follows(saved, next.plan.value))
    && (next.plan.None? ==> next.track.None? && next.ended)
    && (next.track.Some? ==> next.ended && next.track.value.saved == next.plan.value
                             && next.track.value.frames == Frames(next.track.value.pcm) > 0)
  }

  ghost predicate Valid(q: Reader) {
    && Streamed(q.current, q.rest, q.joined, q.delivered) && Placed(q.joined) && Planned(q.joined)
    && Tail(q.pending, q.joined) && Prepares(q.current.saved, q.next)
    && Accounted(q)
    && (q.held ==> !q.eof)
    && (q.eof || q.held)
  }

  /** The reader streamQueue builds around the song that is already open. */
  ghost function Begin(first: Song, pick: nat, session: string): (q: Reader)
    requires InRange(first.saved) && first.start == 0 && first.frames == Frames(first.pcm)
    ensures Valid(q)
  {
    PreparingPlans(first.saved, pick, session);
    assert [first][..0] == [] && [first][..1 - 1] == [];
    Reader(first, true, first.pcm, [first], Preparing(first.saved, pick, session), false, [first], [],
           {first.handle}, [])
  }

  /**
   What is prepared, read off the saved state: nothing when playback is to stop or has come to
   its end, else the same song under repeat-single, the next index without shuffle, and an id
   not played in this round with it.
   */
  lemma PreparingPlans(saved: Saved, pick: nat, session: string)
    requires InRange(saved)
    ensures var p := Preparing(saved, pick, session);
            && (p.plan.Some? ==> InRange(p.plan.value) && Follows(saved, p.plan.value))
            && (p.plan.None? <==> p.ended) && p.track.None?
    ensures Preparing(saved, pick, session).plan.None? <==>
            saved.waiting || saved.deadline > 0 || saved.finish || saved.queue == []
                || (saved.repeat == Off && if saved.shuffle then forall id | id in saved.queue :: id in saved.visited
                                           else saved.index + 1 == |saved.queue|)
    ensures Preparing(saved, pick, session).plan.Some? ==>
              var next := Preparing(saved, pick, session).plan.value;
              Succeeds(saved, next) && next.history == History(session, 0.0, false, false)
  {
    if saved.queue != [] { AdvanceMeans(saved, false, pick); }
    AdvanceKeeps(saved, false, pick);
    hide Advance;
    assert Plan(saved, pick, session) == Preparing(saved, pick, session).plan;
  }

  /** The song that follows in the queue's order: what is played, and with what record of the round. */
  ghost predicate Succeeds(from: Saved, to: Saved) {
    && 0 <= from.index < |from.queue| == |to.queue| && 0 <= to.index < |to.queue|
    && to == from.(index := to.index, visited := to.visited, position := 0, history := to.history)
    && (from.repeat == Single ==> to.index == from.index && to.visited == from.visited)
    && (from.repeat != Single && !from.shuffle ==>
            to.index == if from.index + 1 < |from.queue| then from.index + 1 else 0)
    && (from.repeat != Single && from.shuffle ==>
          var song := to.queue[to.index];
          if exists id :: id in from.queue && id !in from.visited
          then song !in from.visited && to.visited == from.visited + [song]
          else to.visited == [song]
               && ((exists id :: id in from.queue && id != from.queue[from.index]) ==> song != from.queue[from.index]))
  }

  lemma PlacedOneMore(joined: seq<Song>, song: Song)
    requires Placed(joined) && song.frames == Frames(song.pcm) && song.start == TotalFrames(joined)
    ensures Placed(joined + [song])
  {
    var more := joined + [song];
    forall k | 0 <= k < |more| ensures PlacedAt(more, k) {
      assert more[..k] == joined[..k];
      if k == |joined| { assert joined[..k] == joined; } else { assert PlacedAt(joined, k); }
    }
  }

  lemma EndFrame(joined: seq<Song>)
    requires Placed(joined) && joined != []
    ensures TotalFrames(joined) == joined[|joined| - 1].start + joined[|joined| - 1].frames
  {
    assert PlacedAt(joined, |joined| - 1);
  }

  lemma ConcatOneMore(joined: seq<Song>, song: Song)
    ensures Concat(joined + [song]) == Concat(joined) + song.pcm
  {
    assert (joined + [song])[..|joined|] == joined;
  }

  lemma PlannedOneMore(joined: seq<Song>, song: Song)
    requires Planned(joined) && joined != [] && Follows(joined[|joined| - 1].saved, song.saved)
    ensures Planned(joined + [song])
  {
    hide Follows;
    var more := joined + [song];
    forall k | 0 < k < |more| ensures PlannedAt(more, k) {
      if k < |joined| { assert PlannedAt(joined, k); }
    }
  }

  lemma AllButLast(joined: seq<Song>)
    requires joined != []
    ensures Concat(joined) == Concat(joined[..|joined| - 1]) + joined[|joined| - 1].pcm
  {}

  lemma AdoptKeepsValid(q: Reader, pick: nat, session: string)
    requires Valid(q) && May(q, Adopt(pick, session))
    ensures Valid(Apply(q, Adopt(pick, session)))
  {
    hide Placed, Planned, TotalFrames, Concat, Follows, InRange;
    var song := q.next.track.value.(start := q.current.start + q.current.frames);
    EndFrame(q.joined);
    PlacedOneMore(q.joined, song);
    PlannedOneMore(q.joined, song);
    PreparingPlans(song.saved, pick, session);
    AllButLast(q.joined);
    hide Preparing;
    var t := Apply(q, Adopt(pick, session));
    assert t.joined[..|t.joined| - 1] == q.joined;
    assert Tail(t.pending, t.joined);
    assert Streamed(t.current, t.rest, t.joined, t.delivered);
    hide Tail, Streamed;
  }

  lemma CutFurther(pcm: Bytes, at: nat, n: nat)
    requires at + n <= |pcm|
    ensures pcm[at..][n..] == pcm[at + n..] && pcm[..at + n] == pcm[..at] + pcm[at..][..n]
  {}

  lemma DeliverKeepsStreamed(q: Reader, n: nat)
    requires Streamed(q.current, q.rest, q.joined, q.delivered) && n <= |q.rest|
    ensures Streamed(q.current, q.rest[n..], q.joined, q.delivered + q.rest[..n])
  {
    hide Concat;
    var pcm, at := q.current.pcm, |q.current.pcm| - |q.rest|;
    CutFurther(pcm, at, n);
    var before := Concat(q.joined[..|q.joined| - 1]);
    assert (before + pcm[..at]) + q.rest[..n] == before + (pcm[..at] + q.rest[..n]);
  }

  lemma OpeningKeepsAccount(q: Reader, opening: Opening)
    requires Accounted(q) && q.next.track.None? && May(q, EndPreparation(opening))
    ensures Accounted(Apply(q, EndPreparation(opening)))
  {}

  /** What the reader's own code relies on. */
  lemma ValidFacts(q: Reader)
    requires Valid(q)
    ensures |q.pending| > 0 && (q.eof || q.held) && (q.held ==> !q.eof)
    ensures !q.next.ended ==> q.next.plan.Some?
    ensures q.next.track.Some? ==> q.next.ended && InRange(q.next.track.value.saved) && q.next.track.value.pcm != []
  {
    hide Streamed, Placed, Planned, Accounted, Follows, InRange;
  }

  lemma EndPreparationKeepsValid(q: Reader, opening: Opening)
    requires Valid(q) && May(q, EndPreparation(opening))
    ensures Valid(Apply(q, EndPreparation(opening)))
  {
    OpeningKeepsAccount(q, opening);
    hide Placed, Planned, Streamed, Tail, Follows, InRange, Accounted;
  }

  lemma DeliverKeepsValid(q: Reader, n: nat)
    requires Valid(q) && May(q, Deliver(n))
    ensures Valid(Apply(q, Deliver(n)))
  {
    DeliverKeepsStreamed(q, n);
    hide Placed, Planned, Streamed, Follows, InRange, Tail;
  }

  /** Releasing what is owned, once, keeps the account. */
  lemma ReleaseKeepsAccount(q: Reader, t: Reader, h: nat)
    requires Accounted(q) && Owns(q, h) && t.used == q.used && t.released == q.released + [h]
    requires forall k :: Owns(t, k) <==> Owns(q, k) && k != h
    requires t.held && t.next.track.Some? ==> t.current.handle != t.next.track.value.handle
    ensures Accounted(t)
  {
    assert h !in q.released;
    assert t.released[|q.released|] == h;
    assert forall k :: k in t.released <==> k in q.released || k == h;
    hide Owns;
  }

  lemma UnholdKeepsValid(q: Reader)
    requires Valid(q)
    ensures Valid(Unheld(q).(eof := true))
  {
    hide Placed, Planned, Streamed, Tail, Follows, InRange;
    if q.held { ReleaseKeepsAccount(q, Unheld(q).(eof := true), q.current.handle); }
  }

  lemma DropNextKeepsValid(q: Reader)
    requires Valid(q) && May(q, DropNext)
    ensures Valid(Apply(q, DropNext))
  {
    hide Placed, Planned, Streamed, Tail, Follows, InRange;
    if q.next.track.Some? { ReleaseKeepsAccount(q, Apply(q, DropNext), q.next.track.value.handle); }
  }

  lemma HeardKeepsValid(q: Reader)
    requires Valid(q) && May(q, Heard)
    ensures Valid(Apply(q, Heard))
  {
    hide Placed, Planned, Streamed, Follows, InRange;
  }

  /** Every step keeps the stream, the places, the plan and the releases right. */
  lemma StepKeepsValid(q: Reader, a: Step)
    requires Valid(q) && May(q, a)
    ensures Valid(Apply(q, a))
  {
    hide Valid, Unheld;
    match a
    case Adopt(pick, session) => AdoptKeepsValid(q, pick, session);
    case Deliver(n) => DeliverKeepsValid(q, n);
    case Heard => HeardKeepsValid(q);
    case EndPreparation(o) => EndPreparationKeepsValid(q, o);
    case DropNext => DropNextKeepsValid(q);
    case _ => UnholdKeepsValid(q);
  }

  ghost function After(q: Reader, steps: seq<Step>): (r: Reader)
    requires Valid(q) && Allowed(q, steps)
    ensures Valid(r)
    decreases |steps|
  {
    if steps == [] then q else StepKeepsValid(q, steps[0]); After(Apply(q, steps[0]), steps[1..])
  }

  ghost predicate Allowed(q: Reader, steps: seq<Step>)
    requires Valid(q)
    decreases |steps|
  {
    steps != [] ==> May(q, steps[0]) && (StepKeepsValid(q, steps[0]); Allowed(Apply(q, steps[0]), steps[1..]))
  }

  /******* What the steps do *******/

  /** The end of a preparation: a song of some length that was opened for a plan is kept, any other released. */
  lemma PreparationMeans(q: Reader, o: Opening)
    requires Valid(q) && May(q, EndPreparation(o))
    ensures var t := Apply(q, EndPreparation(o));
            && t == q.(next := t.next, used := t.used, released := t.released)
            && t.next.ended && t.next.plan == q.next.plan
            && (o.NotOpened? ==> t.next.track == q.next.track && t.used == q.used && t.released == q.released)
            && (o.Opens? && |o.pcm| >= 4 ==>
                  && q.next.plan.Some?
                  && t.next.track == Some(Song(o.handle, q.next.plan.value, o.pcm, 0, |o.pcm| / 4))
                  && t.used == q.used + {o.handle} && t.released == q.released)
            && (o.Opens? && |o.pcm| < 4 ==>
                  t.next.track == q.next.track && t.used == q.used + {o.handle}
                      && t.released == q.released + [o.handle])
  {
    ValidFacts(q);
    hide Streamed, Placed, Planned, Accounted, Follows, InRange, Prepares, Tail, Valid;
  }

  /**
   Going on with the prepared song: it is read from its first byte, from where the one before
   it ended, and the song after it is prepared. It is possible exactly at a song's end, with a
   successor that is ready and fewer than 128 songs not yet heard.
   */
  lemma AdoptMeans(q: Reader, pick: nat, session: string)
    requires Valid(q)
    ensures May(q, Adopt(pick, session)) <==>
            q.eof && q.rest == [] && q.next.ended && q.next.track.Some? && |q.pending| < 128
    ensures May(q, Adopt(pick, session)) ==>
              var t, song := Apply(q, Adopt(pick, session)), q.next.track.value;
              && t.current == song.(start := q.current.start + q.current.frames) && t.rest == song.pcm
              && t.held && !t.eof && t.joined == q.joined + [t.current] && t.pending == q.pending + [t.current]
              && t.next == Preparing(song.saved, pick, session)
              && t.delivered == q.delivered && t.used == q.used && t.released == q.released
  {
    ValidFacts(q);
    hide Streamed, Placed, Planned, Accounted, Follows, InRange, Prepares, Tail, Valid, Preparing;
  }

  /** Reading takes bytes off the front of what is left; at its end, and on closing, a song is let go of. */
  lemma ReadingMeans(q: Reader, n: nat)
    requires Valid(q)
    ensures May(q, Deliver(n)) <==> !q.eof && n <= |q.rest|
    ensures May(q, Deliver(n)) ==>
              Apply(q, Deliver(n)) == q.(delivered := q.delivered + q.rest[..n], rest := q.rest[n..])
    ensures May(q, Drain) <==> !q.eof && q.rest == []
    ensures var t := Apply(q, DropCurrent);
            && (May(q, Drain) ==> Apply(q, Drain) == t)
            && t == q.(eof := true, held := false, released :=
               if q.held then q.released + [q.current.handle] else q.released)
    ensures |q.pending| > 1 ==> May(q, Heard) && Apply(q, Heard) == q.(pending := q.pending[1..])
    ensures q.next.ended ==>
              && May(q, DropNext)
              && Apply(q, DropNext) ==
                 if q.next.track.None? then q
                 else q.(released := q.released + [q.next.track.value.handle], next := q.next.(track := None))
  {
    hide Streamed, Placed, Planned, Accounted, Follows, InRange, Prepares, Tail, Valid;
  }

  /******* What a listener gets *******/

  lemma {:induction false} AlignedLength(songs: seq<Song>)
    requires forall k | 0 <= k < |songs| :: |songs[k].pcm| % 4 == 0 && songs[k].frames == Frames(songs[k].pcm)
    ensures |Concat(songs)| == 4 * TotalFrames(songs)
  {
    if songs != [] { AlignedLength(songs[..|songs| - 1]); }
  }

  lemma {:induction false} ConcatPrefix(songs: seq<Song>, n: nat)
    requires n <= |songs|
    ensures Concat(songs[..n]) <= Concat(songs)
  {
    if n < |songs| {
      var front := songs[..|songs| - 1];
      ConcatPrefix(front, n);
      assert front[..n] == songs[..n];
    } else {
      assert songs[..n] == songs;
    }
  }

  lemma {:induction false} JoinedStay(q: Reader, steps: seq<Step>)
    requires Valid(q) && Allowed(q, steps)
    ensures q.joined <= After(q, steps).joined
    decreases |steps|
  {
    hide Valid, Preparing;
    if steps != [] {
      StepKeepsValid(q, steps[0]);
      assert q.joined <= Apply(q, steps[0]).joined;
      JoinedStay(Apply(q, steps[0]), steps[1..]);
    }
  }

  lemma FollowsMeans(from: Saved, to: Saved)
    requires Follows(from, to)
    ensures Succeeds(from, to)
    ensures from.repeat == Off && !from.shuffle ==> from.index + 1 < |from.queue|
  {
    var pick: nat, session :| Plan(from, pick, session) == Some(to);
    PreparingPlans(from, pick, session);
    hide Plan, Succeeds, Follows;
  }

  /** The k-th of the songs joined from `first` on, where the order leaves no choice. */
  ghost predicate InOrder(first: Saved, to: Saved, k: nat) {
    && to.queue == first.queue && to.repeat == first.repeat && to.shuffle == first.shuffle
    && (first.repeat == Single ==> to.index == first.index)
    && (first.repeat == Off && !first.shuffle ==> to.index == first.index + k < |first.queue|)
    && (first.repeat == All && !first.shuffle && k > 0 ==>
          0 < |first.queue| && to.index == (first.index + k) % |first.queue|)
  }

  lemma {:induction false} JoinedInOrder(joined: seq<Song>, k: nat)
    requires Planned(joined) && k < |joined| && InRange(joined[0].saved) && joined[0].saved.queue != []
    ensures InOrder(joined[0].saved, joined[k].saved, k)
  {
    hide Follows, Plan;
    if k > 0 {
      JoinedInOrder(joined, k - 1);
      assert PlannedAt(joined, k);
      FollowsMeans(joined[k - 1].saved, joined[k].saved);
      var first, n := joined[0].saved, |joined[0].saved.queue|;
      if first.repeat == All && !first.shuffle {
        if k == 1 { Remainder(0, first.index, n); }
        NextInRound(first.index + (k - 1), n);
      }
    }
  }

  /**
   Whatever was read in whatever pieces, and however the preparations were timed: the bytes
   delivered are a prefix of the songs' PCM joined, and the songs joined are the one the reader
   began with and those the queue's order has follow it.
   */
  lemma DeliveredIsPrefix(first: Song, pick: nat, session: string, steps: seq<Step>)
    requires InRange(first.saved) && first.start == 0 && first.frames == Frames(first.pcm)
    requires Allowed(Begin(first, pick, session), steps)
    ensures var q := After(Begin(first, pick, session), steps);
            q.delivered <= Concat(q.joined) && Planned(q.joined) && |Concat(q.joined)| - |q.delivered| == |q.rest|
    ensures var joined := After(Begin(first, pick, session), steps).joined;
            joined != [] && joined[0] == first && forall k | 0 < k < |joined| ::
                Succeeds(joined[k - 1].saved, joined[k].saved) && InOrder(first.saved, joined[k].saved, k)
  {
    var begin := Begin(first, pick, session);
    var q := After(begin, steps);
    JoinedStay(begin, steps);
    assert begin.joined == [first];
    hide Concat, After, Allowed, Placed, Prepares, Begin, InOrder, Succeeds, Follows, Streamed;
    DeliveredPart(q);
    assert q.joined[0] == first;
    forall k | 0 < k < |q.joined|
      ensures Succeeds(q.joined[k - 1].saved, q.joined[k].saved) && InOrder(first.saved, q.joined[k].saved, k)
    {
      assert PlannedAt(q.joined, 1) && PlannedAt(q.joined, k);
      FollowsMeans(first.saved, q.joined[1].saved);
      FollowsMeans(q.joined[k - 1].saved, q.joined[k].saved);
      FollowersNeedSongs(first.saved, q.joined[1].saved);
      JoinedInOrder(q.joined, k);
    }
  }

  lemma FollowersNeedSongs(from: Saved, to: Saved)
    requires Succeeds(from, to)
    ensures from.queue != []
  {}

  lemma DeliveredPart(q: Reader)
    requires Valid(q)
    ensures q.joined != []
    ensures q.delivered <= Concat(q.joined) && |Concat(q.joined)| - |q.delivered| == |q.rest|
  {
    hide Concat, Placed, Prepares, Planned;
    AllButLast(q.joined);
  }

  /** Each song starts at the sum of the earlier frame counts, which is where its bytes start. */
  lemma BoundariesAreExact(q: Reader, k: nat)
    requires Valid(q) && k < |q.joined|
    requires forall j | 0 <= j < |q.joined| :: |q.joined[j].pcm| % 4 == 0
    ensures q.joined[k].start == TotalFrames(q.joined[..k]) && 4 * q.joined[k].start == |Concat(q.joined[..k])|
    ensures Concat(q.joined[..k]) + q.joined[k].pcm <= Concat(q.joined)
  {
    assert PlacedAt(q.joined, k);
    forall j | 0 <= j < k ensures q.joined[..k][j].frames == Frames(q.joined[j].pcm) { assert PlacedAt(q.joined, j); }
    hide Valid, Concat, TotalFrames;
    AlignedLength(q.joined[..k]);
    ConcatPrefix(q.joined, k + 1);
    assert q.joined[..k + 1] == q.joined[..k] + [q.joined[k]];
    ConcatOneMore(q.joined[..k], q.joined[k]);
  }

  /** Once nothing is owned, as after close, every opened song has been released exactly once. */
  lemma ReleasedExactlyOnce(q: Reader)
    requires Valid(q) && !q.held && q.next.track.None?
    ensures Distinct(q.released) && forall h :: h in q.released <==> h in q.used
  {}

  datatype Outcome = NoError | EndOfStream | Failed

  /** What one turn of Read's loop meets: the song's reader, the live state, the session. */
  datatype Moment = Moment(
    cancelled: bool, chunk: nat, broken: bool, live: bool, refused: bool, pick: nat, session: string)

  function EndOf(song: Song): int { song.start + song.frames }

  /** progress takes the song for heard. */
  predicate Complete(song: Song, position: int) { position >= At(EndOf(song)) }

  /** Its end is told from the real one by no position. */
  ghost predicate EndsOnTime(song: Song)
    requires EndOf(song) >= 0
  {
    forall position: nat :: Complete(song, position) <==> position >= TimeOf(EndOf(song))
  }

  /**
   progress takes a song for heard exactly when it has been, whatever the position, exactly while
   the stream is short enough.
   */
  lemma EndsOnTimeExactly(song: Song)
    requires EndOf(song) >= 0
    ensures EndsOnTime(song) <==> EndOf(song) <= LAST_FRAME
  {
    hide At, TimeOf;
    AtIsTime(EndOf(song));
    var early, late := At(EndOf(song)), TimeOf(EndOf(song));
    if EndOf(song) > LAST_FRAME {
      AtIsEarly(EndOf(song));
      var position: nat := Max(early, 0);
      assert Complete(song, position) && position < late;
    }
  }

  /** One frame further a song counts as heard before a sample of it was. */
  lemma LongStreamWraps(song: Song)
    requires EndOf(song) == LAST_FRAME + 1
    ensures At(EndOf(song)) < 0 && TimeOf(EndOf(song)) > 58 * 3600 * SECOND
  {
    FirstWrap();
  }

  function Elapsed(song: Song, position: int): int {
    Min(Max(position - At(song.start), 0), At(EndOf(song)) - At(song.start))
  }

  /** The time into a song, within its length. */
  lemma ElapsedMeans(position: int)
    requires position >= 0
    ensures forall song: Song ::
              var from, to, elapsed := At(song.start), At(EndOf(song)), Elapsed(song, position);
              && (from <= position <= to ==> elapsed == position - from) && (position < from <= to ==> elapsed == 0)
              && (position >= to ==> elapsed == to - from)
  {
    hide At;
  }

  class QueueReader {
    var current: Song
    var held: bool
    var rest: Bytes
    var pending: seq<Song>
    var next: Prepared
    var eof: bool
    ghost var joined: seq<Song>
    ghost var delivered: Bytes
    ghost var used: set<nat>
    ghost var released: seq<nat>

    ghost function View(): Reader
      reads this
    {
      Reader(current, held, rest, pending, next, eof, joined, delivered, used, released)
    }

    /** The reader of streamQueue, around the song that is already open. */
    constructor (first: Song, pick: nat, session: string)
      requires InRange(first.saved) && first.start == 0 && first.frames == Frames(first.pcm)
      ensures View() == Begin(first, pick, session)
      ensures current == first && held && rest == first.pcm && pending == [first] && !eof
              && joined == [first] && delivered == [] && used == {first.handle} && released == []
    {
      hide Valid, Preparing;
      current, held, rest, pending, eof := first, true, first.pcm, [first], false;
      next := Preparing(first.saved, pick, session);
      joined, delivered, used, released := [first], [], {first.handle}, [];
    }

    /** The preparation's goroutine ends: with a song it owns, or having closed what it opened. */
    method EndPreparation(opening: Opening)
      requires Valid(View()) && May(View(), Step.EndPreparation(opening))
      modifies this`next, this`used, this`released
      ensures View() == Apply(old(View()), Step.EndPreparation(opening)) && Valid(View())
    {
      StepKeepsValid(View(), Step.EndPreparation(opening));
      hide Valid;
      match opening {
        case NotOpened =>
        case Opens(h, pcm) =>
          used := used + {h};
          if Frames(pcm) <= 0 || next.plan.None? {
            released := released + [h];
          } else {
            next := next.(track := Some(Song(h, next.plan.value, pcm, 0, Frames(pcm))));
          }
      }
      next := next.(ended := true);
    }

    method ReleaseCurrent()
      modifies this`held, this`released
      ensures View() == Unheld(old(View()))
    {
      if held {
        released := released + [current.handle];
        held := false;
      }
    }

    /** preparedTrack.close: wait for the goroutine, release what it left. */
    method CloseNext(opening: Opening)
      requires Valid(View()) && (!next.ended ==> May(View(), Step.EndPreparation(opening)))
      modifies this`next, this`used, this`released
      ensures Valid(View()) && next.ended && next.track.None?
    {
      hide Valid;
      if !next.ended { EndPreparation(opening); }
      StepKeepsValid(View(), DropNext);
      if next.track.Some? {
        released := released + [next.track.value.handle];
        next := next.(track := None);
      }
    }

    /** close: afterwards every song ever opened has been released exactly once. */
    method Close(opening: Opening)
      requires Valid(View()) && (!next.ended ==> May(View(), Step.EndPreparation(opening)))
      modifies this
      ensures Valid(View()) && delivered == old(delivered)
      ensures Distinct(released) && forall h :: h in released <==> h in used
    {
      CloseNext(opening);
      UnholdKeepsValid(View());
      hide Valid;
      ReleaseCurrent();
      eof := true;
      ReleasedExactlyOnce(View());
    }

    /** One turn's read of the current song: at most `size` bytes, none exactly at its end. */
    method ReadSong(size: nat, chunk: nat) returns (data: Bytes)
      requires Valid(View()) && !eof
      modifies this`rest, this`delivered
      ensures |data| <= size && |data| <= |old(rest)| && data == old(rest)[..|data|]
      ensures data == [] <==> chunk == 0 || size == 0 || old(rest) == []
      ensures Valid(View()) && View() == Apply(old(View()), Deliver(|data|))
    {
      var n := Min(Min(chunk, size), |rest|);
      StepKeepsValid(View(), Deliver(n));
      hide Valid;
      data := rest[..n];
      delivered := delivered + data;
      rest := rest[n..];
    }

    /** The song is at its end: its file is released at once. */
    method Finish()
      requires Valid(View()) && !eof && rest == []
      modifies this`held, this`released, this`eof
      ensures Valid(View()) && View() == Apply(old(View()), Drain)
    {
      StepKeepsValid(View(), Drain);
      hide Valid;
      ReleaseCurrent();
      eof := true;
    }

    /** Ownership of the prepared song passes to the reader, which prepares the one after it. */
    method AdoptNext(pick: nat, session: string)
      requires Valid(View()) && May(View(), Adopt(pick, session))
      modifies this
      ensures Valid(View()) && View() == Apply(old(View()), Adopt(pick, session))
    {
      hide Valid, InRange, Preparing;
      StepKeepsValid(View(), Adopt(pick, session));
      var song := next.track.value.(start := current.start + current.frames);
      current, held, rest := song, true, song.pcm;
      pending, joined := pending + [song], joined + [song];
      next := Preparing(song.saved, pick, session);
      eof := false;
    }

    /**
     Read: bytes of the current song, or of its successor when it is at its end. What is
     returned is what follows in the stream; the end is reported only when the successor is
     not there to be adopted.
     */
    method Read(size: nat, moments: nat -> Moment) returns (data: Bytes, outcome: Outcome, last: nat)
      requires Valid(View())
      modifies this
      ensures Valid(View()) && |data| <= size && delivered == old(delivered) + data
      ensures data != [] ==> outcome == NoError
      ensures old(joined) <= joined
      ensures outcome == EndOfStream ==>
                eof && (old(eof) || (rest == []
                    && (!next.ended || next.track.None? || |pending| >= 128 || !moments(last).live)))
      ensures size > 0 && !old(eof) && old(rest) != [] && !moments(0).cancelled && moments(0).chunk > 0 ==>
                data != [] && data <= old(rest)
      ensures outcome == NoError && data == [] ==> size == 0 || moments(last).chunk == 0
      ensures outcome == Failed ==> moments(last).cancelled || moments(last).broken || moments(last).refused
    {
      hide Valid, InRange, Preparing;
      data, last := [], 0;
      if size == 0 { return [], NoError, 0; }
      while !eof
        invariant Valid(View()) && data == [] && delivered == old(delivered) && old(joined) <= joined
        invariant eof ==> old(eof)
        invariant if last == 0 then rest == old(rest) else old(rest) == []
        decreases MAX_PENDING - |pending|
      {
        var m := moments(last);
        if m.cancelled { return [], Failed, last; }
        data := ReadSong(size, m.chunk);
        if data != [] { return data, NoError, last; }
        if m.broken { return [], Failed, last; }
        if rest != [] { return [], NoError, last; }
        Finish();
        ValidFacts(View());
        if !next.ended { return [], EndOfStream, last; }
        if next.track.None? || |pending| >= MAX_PENDING { return [], EndOfStream, last; }
        if !m.live { return [], EndOfStream, last; }
        if m.refused { return [], Failed, last; }
        AdoptNext(m.pick, m.session);
        last := last + 1;
      }
      outcome := EndOfStream;
    }

    /**
     progress: songs that have been heard to their end leave `pending`; what is written to
     the saved state is the place of the song now heard, no earlier than its start.
     */
    method Progress(position: int, live: Song -> bool) returns (writes: seq<(Song, int)>, ghost dropped: nat)
      requires Valid(View()) && position >= 0
      modifies this`pending
      ensures Valid(View())
      ensures Passed(old(pending), dropped, position) && pending == old(pending)[dropped..]
      ensures Short(old(pending)) ==>
                HeardToEnd(old(pending), dropped, position)
                    && (|pending| == 1 || position < TimeOf(EndOf(old(pending)[dropped])))
      ensures |pending| == 1 || position < At(EndOf(pending[0]))
      ensures live(pending[0]) ==> writes != [] && writes[|writes| - 1] == (pending[0], Elapsed(pending[0], position))
      ensures live(pending[0]) ==>
                var from, to := At(pending[0].start), At(EndOf(pending[0]));
                && (from <= position <= to ==> writes[|writes| - 1].1 == position - from)
                && (position < from <= to ==> writes[|writes| - 1].1 == 0)
                && (position >= to ==> writes[|writes| - 1].1 == to - from)
      ensures forall k | 0 <= k < |writes| :: live(writes[k].0)
    {
      hide Valid, At, Elapsed, TimeOf, Short, HeardToEnd;
      ElapsedMeans(position);
      writes, dropped := [], 0;
      ValidFacts(View());
      while true
        invariant Valid(View()) && Passed(old(pending), dropped, position) && pending == old(pending)[dropped..]
        invariant forall k | 0 <= k < |writes| :: live(writes[k].0)
        decreases |pending|
      {
        var song := pending[0];
        var complete := Complete(song, position);
        if live(song) { writes := writes + [(song, Elapsed(song, position))]; }
        if !complete || |pending| == 1 {
          if Short(old(pending)) { PassedIsHeard(old(pending), dropped, position); }
          return;
        }
        PendingAdjoin(View());
        StepKeepsValid(View(), Heard);
        dropped := dropped + 1;
        pending := pending[1..];
      }
    }
  }

  /** The first n have been heard to their end, and the one after them has begun. */
  ghost predicate Passed(songs: seq<Song>, n: nat, position: int) {
    && n < |songs|
    && (forall k | 0 <= k < n :: At(EndOf(songs[k])) <= position)
    && (n > 0 ==> At(songs[n].start) <= position)
  }

  /** All of the songs end before the time wraps. */
  ghost predicate Short(songs: seq<Song>)
  {
    forall k | 0 <= k < |songs| :: 0 <= songs[k].start <= EndOf(songs[k]) <= LAST_FRAME
  }

  /** The same of the real times: no song leaves before its last frame was heard. */
  ghost predicate HeardToEnd(songs: seq<Song>, n: nat, position: int)
    requires Short(songs)
  {
    && n < |songs|
    && (forall k | 0 <= k < n :: TimeOf(EndOf(songs[k])) <= position)
    && (n > 0 ==> TimeOf(songs[n].start) <= position)
  }

  lemma PassedIsHeard(songs: seq<Song>, n: nat, position: int)
    requires Short(songs) && Passed(songs, n, position)
    ensures HeardToEnd(songs, n, position)
    ensures position < At(EndOf(songs[n])) <==> position < TimeOf(EndOf(songs[n]))
  {
    hide At, TimeOf;
    forall k | 0 <= k < |songs|
      ensures At(EndOf(songs[k])) == TimeOf(EndOf(songs[k])) && At(songs[k].start) == TimeOf(songs[k].start)
    {
      AtIsTime(EndOf(songs[k]));
      AtIsTime(songs[k].start);
    }
  }

  /** Pending songs follow each other without a gap. */
  lemma PendingAdjoin(q: Reader)
    requires Valid(q) && |q.pending| > 1
    ensures q.pending[1].start == q.pending[0].start + q.pending[0].frames
  {
    var k := |q.joined| - |q.pending|;
    assert PlacedAt(q.joined, k) && PlacedAt(q.joined, k + 1);
    assert q.joined[..k + 1][..k] == q.joined[..k];
  }
}
