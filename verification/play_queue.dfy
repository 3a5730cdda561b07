/**
 The saved queue of remote playback: shuffle rounds, queue edits and the skipping of songs
 that fail (internal/app/remote_shuffle.go, internal/app/remote.go). Random picks, the
 clock, new history ids and what starting a song yields are parameters.
 */
module PlayQueue {
  import opened Collections
  import opened Wrappers

  datatype Repeat = Off | All | Single

  datatype History = History(session: string, listened: real, counted: bool, seeked: bool)

  datatype Saved = Saved(
    queue: seq<string>, index: int, visited: seq<string>, repeat: Repeat, shuffle: bool,
    position: int, waiting: bool, deadline: int, finish: bool, skipping: bool, history: History)

  predicate Current(s: Saved) { 0 <= s.index < |s.queue| }

  predicate InRange(s: Saved) { if s.queue == [] then s.index == 0 else Current(s) }

  function Song(s: Saved): string
    requires Current(s)
  {
    s.queue[s.index]
  }

  function Ids(q: seq<string>): set<string> { set id | id in q }

  function ResetHistory(s: Saved, position: int, session: string): Saved {
    s.(history := History(session, 0.0, false, position > 0))
  }

  /******* Shuffling *******/

  function Mark(s: Saved): Saved
    requires InRange(s)
  {
    if s.queue == [] || Song(s) in s.visited then s else s.(visited := s.visited + [Song(s)])
  }

  function ResetShuffle(s: Saved): Saved
    requires InRange(s)
  {
    Mark(s.(visited := []))
  }

  /** The first occurrences, among the first n, of ids that are not in `seen`. */
  function Candidates(queue: seq<string>, seen: set<string>, n: nat): seq<nat>
    requires n <= |queue|
  {
    if n == 0 then []
    else
      var last := queue[n - 1];
      Candidates(queue, seen, n - 1) + if last !in seen && last !in queue[..n - 1] then [n - 1] else []
  }

  function Drawn(from: seq<nat>, pick: nat): nat
    requires from != []
  {
    from[pick % |from|]
  }

  /** advanceShuffleLocked; None when it returns false. */
  function AdvanceShuffle(s: Saved, pick: nat): Option<Saved>
    requires Current(s)
  {
    var left := Candidates(s.queue, Ids(s.visited), |s.queue|);
    CandidatesAreFirsts(s.queue, Ids(s.visited), |s.queue|);
    if left != [] then Some(Mark(s.(index := Drawn(left, pick))))
    else if s.repeat != All then None
    else
      var others := Candidates(s.queue, {Song(s)}, |s.queue|);
      CandidatesAreFirsts(s.queue, {Song(s)}, |s.queue|);
      Some(Mark(s.(index := if others == [] then s.index else Drawn(others, pick), visited := [])))
  }

  /** Candidates are positions, with ids outside `seen`, and every id outside `seen` has one. */
  lemma {:induction false} CandidatesAreFirsts(queue: seq<string>, seen: set<string>, n: nat)
    requires n <= |queue|
    ensures forall k | 0 <= k < |Candidates(queue, seen, n)| ::
            Candidates(queue, seen, n)[k] < n && queue[Candidates(queue, seen, n)[k]] !in seen
    ensures (exists j :: 0 <= j < n && queue[j] !in seen) ==> Candidates(queue, seen, n) != []
  {
    if n > 0 {
      CandidatesAreFirsts(queue, seen, n - 1);
      if queue[n - 1] !in seen && queue[n - 1] in queue[..n - 1] {
        var j :| 0 <= j < n - 1 && queue[j] == queue[n - 1];
      }
    }
  }

  /** Each candidate is the first position of its id, so a draw is uniform over the ids left. */
  lemma {:induction false} CandidatesExactly(queue: seq<string>, seen: set<string>, n: nat, j: nat)
    requires n <= |queue|
    ensures j in Candidates(queue, seen, n) <==> j < n && queue[j] !in seen && queue[j] !in queue[..j]
  {
    if n > 0 { CandidatesExactly(queue, seen, n - 1, j); }
  }

  ghost predicate Exhausted(s: Saved) { Ids(s.queue) <= Ids(s.visited) }

  lemma NoneLeft(queue: seq<string>, seen: set<string>)
    ensures Candidates(queue, seen, |queue|) == [] <==> Ids(queue) <= seen
  {
    CandidatesAreFirsts(queue, seen, |queue|);
    var left := Candidates(queue, seen, |queue|);
    if left != [] { assert queue[left[0]] in Ids(queue); }
    if !(Ids(queue) <= seen) {
      var id :| id in Ids(queue) && id !in seen;
      var j :| 0 <= j < |queue| && queue[j] == id;
    }
  }

  lemma DrawnIsOutside(queue: seq<string>, seen: set<string>, pick: nat)
    requires Candidates(queue, seen, |queue|) != []
    ensures Drawn(Candidates(queue, seen, |queue|), pick) < |queue|
    ensures queue[Drawn(Candidates(queue, seen, |queue|), pick)] !in seen
  {
    CandidatesAreFirsts(queue, seen, |queue|);
  }

  /** What one shuffled advance does: an unplayed song while there is one, else a new round. */
  lemma AdvanceShuffleStep(s: Saved, pick: nat)
    requires Current(s)
    ensures AdvanceShuffle(s, pick).None? <==> Exhausted(s) && s.repeat != All
    ensures AdvanceShuffle(s, pick).Some? ==> StepOn(s, AdvanceShuffle(s, pick).value)
  {
    if Exhausted(s) { NewRoundStep(s, pick); } else { SameRoundStep(s, pick); }
  }

  lemma SameRoundStep(s: Saved, pick: nat)
    requires Current(s) && !Exhausted(s)
    ensures AdvanceShuffle(s, pick).Some? && StepOn(s, AdvanceShuffle(s, pick).value)
  {
    NoneLeft(s.queue, Ids(s.visited));
    DrawnIsOutside(s.queue, Ids(s.visited), pick);
    hide Candidates, Drawn;
  }

  lemma NewRoundStep(s: Saved, pick: nat)
    requires Current(s) && Exhausted(s)
    ensures AdvanceShuffle(s, pick).None? <==> s.repeat != All
    ensures AdvanceShuffle(s, pick).Some? ==> StepOn(s, AdvanceShuffle(s, pick).value)
  {
    hide Candidates, Drawn;
    NoneLeft(s.queue, Ids(s.visited));
    NoneLeft(s.queue, {Song(s)});
    if Candidates(s.queue, {Song(s)}, |s.queue|) != [] { DrawnIsOutside(s.queue, {Song(s)}, pick); }
    assert Song(s) in Ids(s.queue);
  }

  ghost predicate StepOn(s: Saved, t: Saved)
    requires Current(s)
  {
    && Current(t) && t == s.(index := t.index, visited := t.visited)
    && (!Exhausted(s) ==> Song(t) !in s.visited && t.visited == s.visited + [Song(t)])
    && (Exhausted(s) ==> t.visited == [Song(t)] && (Ids(s.queue) != {Song(s)} ==> Song(t) != Song(s)))
  }

  /******* Rounds *******/

  ghost predicate DrawnAt(states: seq<Saved>, picks: seq<nat>, i: nat)
    requires i < |picks| && |states| == |picks| + 1
  {
    Current(states[i]) && AdvanceShuffle(states[i], picks[i]) == Some(states[i + 1])
  }

  /** Shuffled advances on a fixed queue from a fresh shuffle record. */
  ghost predicate ShuffleRun(states: seq<Saved>, picks: seq<nat>) {
    && |states| == |picks| + 1
    && (forall i | 0 <= i < |states| ::
       Current(states[i]) && states[i].queue == states[0].queue && states[i].repeat == states[0].repeat)
    && states[0].visited == [Song(states[0])]
    && (forall i | 0 <= i < |picks| :: DrawnAt(states, picks, i))
  }

  lemma ResetStartsRun(s: Saved)
    requires Current(s)
    ensures ShuffleRun([ResetShuffle(s)], [])
  {}

  ghost function Played(states: seq<Saved>): (r: seq<string>)
    requires forall i | 0 <= i < |states| :: Current(states[i])
    ensures |r| == |states|
  {
    seq(|states|, i requires 0 <= i < |states| => Song(states[i]))
  }

  lemma {:induction false} DistinctCount(q: seq<string>)
    requires Distinct(q)
    ensures |Ids(q)| == |q|
  {
    if q != [] {
      var last, rest := q[|q| - 1], q[..|q| - 1];
      DistinctCount(rest);
      assert Ids(q) == Ids(rest) + {last};
    }
  }

  lemma SubsetOfSameSize<T>(a: set<T>, b: set<T>)
    requires a <= b && |a| >= |b|
    ensures a == b
  {
    assert |b - a| == |b| - |a|;
  }

  lemma SameRemainder(q: int, r: nat, p: int, t: nat, d: nat)
    requires q * d + r == p * d + t && r < d && t < d
    ensures r == t
  {
    assert (q - p) * d == t - r;
    Multiples(q - p, d);
  }

  lemma Remainder(q: nat, r: nat, d: nat)
    requires r < d
    ensures (q * d + r) % d == r
  {
    var x := q * d + r;
    SameRemainder(q, r, x / d, x % d, d);
  }

  lemma NextInRound(i: nat, d: nat)
    requires d > 0
    ensures (i + 1) % d == if i % d + 1 == d then 0 else i % d + 1
  {
    var q, r := i / d, i % d;
    if r + 1 == d {
      assert i + 1 == (q + 1) * d + 0;
      Remainder(q + 1, 0, d);
    } else {
      assert i + 1 == q * d + (r + 1);
      Remainder(q, r + 1, d);
    }
  }

  /** The record holds ids of the queue, each once. */
  lemma {:induction false} RecordIsDistinct(states: seq<Saved>, picks: seq<nat>, i: nat)
    requires ShuffleRun(states, picks) && i < |states|
    ensures Distinct(states[i].visited) && Ids(states[i].visited) <= Ids(states[0].queue) && states[i].visited != []
  {
    if i > 0 {
      RecordIsDistinct(states, picks, i - 1);
      StepOfRun(states, picks, i - 1);
      assert Song(states[i]) in Ids(states[0].queue);
    }
  }

  lemma StepOfRun(states: seq<Saved>, picks: seq<nat>, i: nat)
    requires ShuffleRun(states, picks) && i < |picks|
    ensures StepOn(states[i], states[i + 1])
  {
    assert DrawnAt(states, picks, i);
    AdvanceShuffleStep(states[i], picks[i]);
  }

  /** A record of all the ids is as long as there are ids. */
  lemma RecordIsFull(states: seq<Saved>, picks: seq<nat>, i: nat)
    requires ShuffleRun(states, picks) && i < |states|
    ensures 0 < |states[i].visited| <= |Ids(states[0].queue)|
    ensures Exhausted(states[i]) <==> |states[i].visited| == |Ids(states[0].queue)|
    ensures Exhausted(states[i]) ==> Ids(states[i].visited) == Ids(states[0].queue)
  {
    hide AdvanceShuffle;
    RecordIsDistinct(states, picks, i);
    DistinctCount(states[i].visited);
    var a, b := Ids(states[i].visited), Ids(states[0].queue);
    assert |b - a| == |b| - |a|;
    if |a| == |b| { SubsetOfSameSize(a, b); }
  }

  /** Rounds are as long as there are ids. */
  lemma {:induction false} RoundLength(states: seq<Saved>, picks: seq<nat>, i: nat)
    requires ShuffleRun(states, picks) && i < |states|
    ensures var d := |Ids(states[0].queue)|; d > 0 && |states[i].visited| == i % d + 1 <= i + 1
  {
    hide AdvanceShuffle, Ids, Distinct;
    var d := |Ids(states[0].queue)|;
    RecordIsFull(states, picks, i);
    if i > 0 {
      RoundLength(states, picks, i - 1);
      RecordIsFull(states, picks, i - 1);
      StepOfRun(states, picks, i - 1);
      NextInRound(i - 1, d);
    } else {
      Remainder(0, 0, d);
    }
  }

  lemma RecordStep(heard: seq<string>, s: Saved, t: Saved, i: nat)
    requires 0 < i < |heard| && |s.visited| <= i && s.visited == heard[i - |s.visited|..i]
    requires Current(s) && StepOn(s, t) && heard[i] == Song(t)
    ensures |t.visited| <= i + 1 && t.visited == heard[i + 1 - |t.visited|..i + 1]
  {
    hide Exhausted, Ids;
    var from := i - |s.visited|;
    assert heard[from..i + 1] == heard[from..i] + [heard[i]];
    assert heard[i..i + 1] == [heard[i]];
  }

  lemma PlayedAt(states: seq<Saved>, picks: seq<nat>, i: nat)
    requires ShuffleRun(states, picks) && i < |states|
    ensures |Played(states)| == |states| && Current(states[i]) && Played(states)[i] == Song(states[i])
  {
    hide AdvanceShuffle;
  }

  lemma FirstRecord(states: seq<Saved>, picks: seq<nat>)
    requires ShuffleRun(states, picks)
    ensures |Played(states)| == |states| > 0 && |states[0].visited| == 1 && states[0].visited == Played(states)[0..1]
  {
    hide AdvanceShuffle;
    assert Played(states)[0..1] == [Song(states[0])];
  }

  /** The record is what has been played since the round began. */
  lemma {:induction false} RecordOfRound(states: seq<Saved>, picks: seq<nat>, i: nat)
    requires ShuffleRun(states, picks) && i < |states|
    ensures |Played(states)| == |states| && |states[i].visited| <= i + 1
    ensures states[i].visited == Played(states)[i + 1 - |states[i].visited|..i + 1]
  {
    hide StepOn, Song, Played, Current, AdvanceShuffle, DrawnAt;
    PlayedAt(states, picks, i);
    if i > 0 {
      RecordOfRound(states, picks, i - 1);
      PlayedAt(states, picks, i - 1);
      StepOfRun(states, picks, i - 1);
      RecordStep(Played(states), states[i - 1], states[i], i);
    } else {
      FirstRecord(states, picks);
    }
  }

  /** Every round plays every id of the queue exactly once. */
  lemma EachIdOncePerRound(states: seq<Saved>, picks: seq<nat>, start: nat, round: nat)
    requires ShuffleRun(states, picks)
    requires start == round * |Ids(states[0].queue)| && start + |Ids(states[0].queue)| <= |states|
    ensures var heard := Played(states)[start..start + |Ids(states[0].queue)|];
            Distinct(heard) && Ids(heard) == Ids(states[0].queue)
  {
    hide AdvanceShuffle;
    var d := |Ids(states[0].queue)|;
    assert Song(states[0]) in Ids(states[0].queue);
    var last := start + d - 1;
    RecordOfRound(states, picks, last);
    RoundLength(states, picks, last);
    Remainder(round, d - 1, d);
    RecordIsFull(states, picks, last);
    RecordIsDistinct(states, picks, last);
  }

  /** A run ends exactly when everything has been played and repeat is not "all". */
  lemma RunEnds(states: seq<Saved>, picks: seq<nat>, pick: nat)
    requires ShuffleRun(states, picks)
    ensures var d := |Ids(states[0].queue)|;
            d > 0 && (AdvanceShuffle(states[|states| - 1], pick).None? <==>
                states[0].repeat != All && |states| % d == 0)
  {
    hide AdvanceShuffle;
    var n, d := |states| - 1, |Ids(states[0].queue)|;
    RoundLength(states, picks, n);
    RecordIsFull(states, picks, n);
    AdvanceShuffleStep(states[n], pick);
    NextInRound(n, d);
  }

  /** A new round never opens with the id that closed the last one, if there is another. */
  lemma NewRoundOpensElsewhere(states: seq<Saved>, picks: seq<nat>, i: nat)
    requires ShuffleRun(states, picks) && 0 < i < |states| && |Ids(states[0].queue)| > 1
    requires i % |Ids(states[0].queue)| == 0
    ensures Song(states[i]) != Song(states[i - 1])
  {
    hide AdvanceShuffle;
    var d := |Ids(states[0].queue)|;
    RoundLength(states, picks, i - 1);
    RecordIsFull(states, picks, i - 1);
    NextInRound(i - 1, d);
    StepOfRun(states, picks, i - 1);
  }

  /******* Advancing *******/

  /** advanceLocked; None when it returns false. */
  function Advance(s: Saved, manual: bool, pick: nat): Option<Saved>
    requires InRange(s)
  {
    if s.queue == [] then None
    else if !manual && s.repeat == Single then Some(s)
    else if s.shuffle then AdvanceShuffle(s, pick)
    else if s.index + 1 < |s.queue| then Some(Mark(s.(index := s.index + 1)))
    else if s.repeat == All then Some(ResetShuffle(s.(index := 0)))
    else None
  }

  lemma AdvanceKeeps(s: Saved, manual: bool, pick: nat)
    requires InRange(s)
    ensures Advance(s, manual, pick).Some? ==>
              var t := Advance(s, manual, pick).value;
              Current(t) && t == s.(index := t.index, visited := t.visited)
  {
    if s.queue != [] && s.shuffle { AdvanceShuffleStep(s, pick); }
  }

  /** The same song under repeat-single, the next index without shuffle, and an unplayed id with it. */
  lemma AdvanceMeans(s: Saved, manual: bool, pick: nat)
    requires Current(s)
    ensures Advance(s, manual, pick).None? <==>
            s.repeat != All && (manual || s.repeat != Single)
            && if s.shuffle then forall id | id in s.queue :: id in s.visited else s.index + 1 == |s.queue|
    ensures Advance(s, manual, pick).Some? ==>
              var t := Advance(s, manual, pick).value;
              && 0 <= t.index < |s.queue| && t == s.(index := t.index, visited := t.visited)
              && (!manual && s.repeat == Single ==> t == s)
              && ((manual || s.repeat != Single) && !s.shuffle ==>
                    && t.index == (if s.index + 1 < |s.queue| then s.index + 1 else 0)
                    && t.visited == (if s.index + 1 == |s.queue| then [s.queue[0]]
                                     else if s.queue[t.index] in s.visited then s.visited
                                     else s.visited + [s.queue[t.index]]))
              && ((manual || s.repeat != Single) && s.shuffle ==>
                    var song := s.queue[t.index];
                    if exists id :: id in s.queue && id !in s.visited
                    then song !in s.visited && t.visited == s.visited + [song]
                    else t.visited == [song]
                         && ((exists id :: id in s.queue && id != s.queue[s.index]) ==> song != s.queue[s.index]))
  {
    if s.shuffle {
      hide AdvanceShuffle;
      AdvanceShuffleStep(s, pick);
      if id :| id in s.queue && id !in s.visited { assert id in Ids(s.queue) && id !in Ids(s.visited); }
      if id :| id in s.queue && id != s.queue[s.index] { assert id in Ids(s.queue); }
    }
  }

  /******* Queue edits *******/

  function Inserted<T>(q: seq<T>, at: nat, ids: seq<T>): seq<T>
    requires at <= |q|
  {
    q[..at] + ids + q[at..]
  }

  function Without<T>(q: seq<T>, at: nat): seq<T>
    requires at < |q|
  {
    q[..at] + q[at + 1..]
  }

  function Relocated<T>(q: seq<T>, from: nat, to: nat): seq<T>
    requires from < |q| && to < |q|
  {
    Inserted(Without(q, from), to, [q[from]])
  }

  function IndexAfterInsert(index: int, at: int, count: nat): int { if at <= index then index + count else index }

  function IndexAfterMove(index: int, from: int, to: int): int {
    if index == from then to
    else if from < index && to >= index then index - 1
    else if from > index && to <= index then index + 1
    else index
  }

  function IndexAfterRemove(index: int, at: int): int { if at < index then index - 1 else index }

  /** The song at the index stays the same occurrence, whatever is put in front of it. */
  lemma InsertKeepsOccurrence<T>(q: seq<T>, at: nat, ids: seq<T>, index: int)
    requires at <= |q| && 0 <= index < |q|
    ensures var i := IndexAfterInsert(index, at, |ids|);
            0 <= i < |Inserted(q, at, ids)| && Inserted(q, at, ids)[i] == q[index]
  {}

  lemma RemoveKeepsOccurrence<T>(q: seq<T>, at: nat, index: int)
    requires at < |q| && 0 <= index < |q| && at != index
    ensures var i := IndexAfterRemove(index, at); 0 <= i < |Without(q, at)| && Without(q, at)[i] == q[index]
  {}

  /** A move takes one item to its place, keeps the order of the others and the current occurrence. */
  lemma MoveKeepsOccurrence<T>(q: seq<T>, from: nat, to: nat, index: int)
    requires from < |q| && to < |q| && 0 <= index < |q|
    ensures |Relocated(q, from, to)| == |q| && Relocated(q, from, to)[to] == q[from]
    ensures Without(Relocated(q, from, to), to) == Without(q, from)
    ensures var i := IndexAfterMove(index, from, to); 0 <= i < |q| && Relocated(q, from, to)[i] == q[index]
  {
    var rest := Without(q, from);
    if index != from {
      RemoveKeepsOccurrence(q, from, index);
      InsertKeepsOccurrence(rest, to, [q[from]], IndexAfterRemove(index, from));
    }
  }

  datatype Edit =
    | Append(ids: seq<string>, at: int, valid: bool)
    | Move(from: int, to: int)
    | Remove(at: int, pick: nat)
    | Select(at: int)
    | Next(pick: nat)
    | Previous
    | Start(ids: seq<string>, at: int, position: int, valid: bool)
    | Clear

  const MAX_QUEUE := 10000

  function Selected(s: Saved, at: int, session: string): Saved
    requires 0 <= at < |s.queue|
  {
    ResetHistory(Mark(s.(index := at)), 0, session).(position := 0, waiting := false)
  }

  /** The removal of the current song: the song moved into its place, or a shuffled one, is next. */
  function AfterCurrent(s: Saved, pick: nat, session: string): Saved
    requires InRange(s)
  {
    var t := if s.shuffle && s.queue != [] then
               match AdvanceShuffle(s, pick) { case Some(u) => u case None => s }
             else s;
    ResetHistory(t, 0, session).(position := 0, waiting := false)
  }

  function Appended(s: Saved, ids: seq<string>, at: int, valid: bool): Result<Saved>
    requires InRange(s)
  {
    var n := |s.queue|;
    if n + |ids| > MAX_QUEUE || !valid then Bad
    else
      var place := if at < 0 || at > n then n else at;
      var t := s.(queue := Inserted(s.queue, place, ids), index :=
          if n > 0 then IndexAfterInsert(s.index, place, |ids|) else s.index);
      Ok(if n == 0 then ResetShuffle(t) else t)
  }

  function Moved(s: Saved, from: int, to: int): Result<Saved> {
    if !(0 <= from < |s.queue| && 0 <= to < |s.queue|) then Bad
    else Ok(s.(queue := Relocated(s.queue, from, to), index := IndexAfterMove(s.index, from, to)))
  }

  /** The removal as the source does it: `seen` is the index when the command looked at the queue. */
  function RemovedSince(s: Saved, seen: int, at: int, pick: nat, session: string): Result<Saved>
    requires InRange(s)
  {
    if !(0 <= at < |s.queue|) then Bad
    else
      var t := s.(queue := Without(s.queue, at), index := IndexAfterRemove(s.index, at));
      Ok(if at == seen then AfterCurrent(t.(index := Min(t.index, Max(0, |s.queue| - 2))), pick, session) else t)
  }

  function Removed(s: Saved, at: int, pick: nat, session: string): Result<Saved>
    requires InRange(s)
  {
    RemovedSince(s, s.index, at, pick, session)
  }

  /**
   Progress may move the index between the command's look at the queue and its edit. The index
   then stays in the queue unless the song removed is the last one and has just become current.
   */
  lemma LateRemovalExactly(s: Saved, seen: int, at: int, pick: nat, session: string)
    requires InRange(s) && 0 <= at < |s.queue| && 0 <= seen < |s.queue|
    ensures InRange(RemovedSince(s, seen, at, pick, session).value) <==>
            at == seen || !(at == s.index == |s.queue| - 1)
  {
    hide AdvanceShuffle;
    var t := s.(queue := Without(s.queue, at), index := IndexAfterRemove(s.index, at));
    if at == seen {
      var u := t.(index := Min(t.index, Max(0, |s.queue| - 2)));
      if u.shuffle && u.queue != [] { AdvanceShuffleStep(u, pick); }
    }
  }

  /** The second song of two is removed just after it became current: no song stands at the index. */
  lemma LateRemovalLeaves(s: Saved, a: string, b: string, pick: nat, session: string)
    requires s.queue == [a, b] && s.index == 1
    ensures var t := RemovedSince(s, 0, 1, pick, session).value; t.queue == [a] && t.index == 1
  {
    assert Without(s.queue, 1) == [a];
  }

  function Stepped(s: Saved, pick: nat, session: string): Saved
    requires InRange(s)
  {
    match Advance(s, true, pick)
    case None => s
    case Some(t) => AdvanceKeeps(s, true, pick); Selected(t, t.index, session)
  }

  function Started(s: Saved, ids: seq<string>, at: int, position: int, valid: bool, session: string): Result<Saved> {
    if !(0 <= at < |ids|) || position < 0 || |ids| > MAX_QUEUE || !valid then Bad
    else Ok(ResetHistory(ResetShuffle(s.(queue := ids, index := at)), position, session).(position := position,
        waiting := false))
  }

  /** The cases of `command` that edit or step through the queue; Bad when the command is refused. */
  function Edited(s: Saved, e: Edit, session: string): Result<Saved>
    requires InRange(s)
  {
    match e
    case Append(ids, at, valid) => Appended(s, ids, at, valid)
    case Move(from, to) => Moved(s, from, to)
    case Remove(at, pick) => Removed(s, at, pick, session)
    case Select(at) => if 0 <= at < |s.queue| then Ok(Selected(s, at, session)) else Bad
    case Next(pick) => Ok(Stepped(s, pick, session))
    case Previous => if s.queue == [] then Bad else Ok(Selected(s, Max(0, s.index - 1), session))
    case Start(ids, at, position, valid) => Started(s, ids, at, position, valid, session)
    case Clear =>
        Ok(s.(queue := [], visited := [], index := 0, position := 0, deadline := 0, finish := false, waiting := false))
  }

  /** What marking and resetting make of the record. */
  lemma MarkMeans(s: Saved)
    requires InRange(s)
    ensures Mark(s) == s.(visited := s.visited + if s.queue == [] || Song(s) in s.visited then [] else [Song(s)])
    ensures ResetShuffle(s) == s.(visited := if s.queue == [] then [] else [Song(s)])
  {
    assert s.visited + [] == s.visited;
    if s.queue != [] { assert [] + [Song(s)] == [Song(s)]; }
  }

  /** Selecting a song, and going back one, which stops at the first. */
  lemma SelectMeans(s: Saved, e: Edit, session: string)
    requires InRange(s) && (e.Select? || e.Previous?)
    ensures Edited(s, e, session).Bad? <==> if e.Select? then !(0 <= e.at < |s.queue|) else s.queue == []
    ensures Edited(s, e, session).Ok? ==>
              var t := Edited(s, e, session).value;
              && t.index == (if e.Select? then e.at else if s.index > 0 then s.index - 1 else 0)
                 && 0 <= t.index < |s.queue|
              && t == s.(index := t.index, visited := t.visited, position := 0, waiting := false,
                         history := History(session, 0.0, false, false))
              && t.visited == s.visited + if s.queue[t.index] in s.visited then [] else [s.queue[t.index]]
  {
    hide Appended, Moved, Removed, Stepped, Started, Mark;
    var at := if e.Select? then e.at else Max(0, s.index - 1);
    if 0 <= at < |s.queue| { MarkMeans(s.(index := at)); }
  }

  /** Going on by hand: where advancing leads, from its beginning; at the end nothing changes. */
  lemma NextMeans(s: Saved, pick: nat, session: string)
    requires Current(s)
    ensures Edited(s, Next(pick), session).Ok?
    ensures var t := Edited(s, Next(pick), session).value;
            if s.repeat != All && (if s.shuffle then forall id | id in s.queue :: id in s.visited
                                   else s.index + 1 == |s.queue|)
            then t == s
            else t == s.(index := t.index, visited := t.visited, position := 0, waiting := false,
                         history := History(session, 0.0, false, false))
    ensures var t := Edited(s, Next(pick), session).value;
            && 0 <= t.index < |s.queue|
            && (!s.shuffle && s.index + 1 < |s.queue| ==> t.index == s.index + 1)
            && (!s.shuffle && s.index + 1 == |s.queue| && s.repeat == All ==>
                  t.index == 0 && t.visited == [s.queue[0]])
            && (s.shuffle && (exists id :: id in s.queue && id !in s.visited) ==> s.queue[t.index] !in s.visited)
  {
    hide Advance, AdvanceShuffle;
    AdvanceMeans(s, true, pick);
    NextIs(s, pick, session);
  }

  lemma NextIs(s: Saved, pick: nat, session: string)
    requires Current(s)
    ensures match Advance(s, true, pick)
            case None => Edited(s, Next(pick), session) == Ok(s)
            case Some(t) =>
              && Current(t) && t == s.(index := t.index, visited := t.visited) && Song(t) in t.visited
              && Edited(s, Next(pick), session) ==
                 Ok(t.(position := 0, waiting := false, history := History(session, 0.0, false, false)))
  {
    AdvanceKeeps(s, true, pick);
    AdvanceMarks(s, true, pick);
    hide Advance;
  }

  /** Wherever advancing leads by hand, that song is in the record. */
  lemma AdvanceMarks(s: Saved, manual: bool, pick: nat)
    requires Current(s) && manual
    ensures Advance(s, manual, pick).Some? ==>
              Current(Advance(s, manual, pick).value)
                  && Song(Advance(s, manual, pick).value) in Advance(s, manual, pick).value.visited
  {
    AdvanceKeeps(s, manual, pick);
    if s.shuffle {
      AdvanceShuffleStep(s, pick);
      hide AdvanceShuffle;
    }
  }

  /** Starting a queue, and clearing it. */
  lemma StartMeans(s: Saved, e: Edit, session: string)
    requires InRange(s) && (e.Start? || e.Clear?)
    ensures Edited(s, e, session).Bad? <==>
            e.Start? && !(0 <= e.at < |e.ids| <= 10000 && e.position >= 0 && e.valid)
    ensures Edited(s, e, session).Ok? && e.Start? ==>
              Edited(s, e, session).value ==
              s.(queue := e.ids, index := e.at, visited := [e.ids[e.at]], position := e.position, waiting := false,
                 history := History(session, 0.0, false, e.position > 0))
    ensures e.Clear? ==>
              Edited(s, e, session).value ==
              s.(queue := [], index := 0, visited := [], position := 0, waiting := false, deadline := 0,
                  finish := false)
  {
    hide Appended, Moved, Removed, Stepped, Selected;
  }

  /** Appending puts the songs at their place, or at the end; nothing but queue and index changes. */
  lemma AppendMeans(s: Saved, ids: seq<string>, at: int, valid: bool, session: string)
    requires InRange(s)
    ensures Edited(s, Append(ids, at, valid), session).Bad? <==> |s.queue| + |ids| > 10000 || !valid
    ensures Edited(s, Append(ids, at, valid), session).Ok? ==>
              var t := Edited(s, Append(ids, at, valid), session).value;
              var place := if 0 <= at <= |s.queue| then at else |s.queue|;
              && t.queue == s.queue[..place] + ids + s.queue[place..]
              && t == s.(queue := t.queue, index := t.index, visited := t.visited)
              && (s.queue != [] ==> t.visited == s.visited)
              && (s.queue == [] ==> t.index == 0 && t.visited == if ids == [] then [] else [ids[0]])
  {
    hide Moved, Removed, Stepped, Started, Selected, Mark, ResetShuffle;
    if s.queue == [] {
      var t := s.(queue := Inserted(s.queue, 0, ids));
      assert t.queue == ids;
      MarkMeans(t);
    }
  }

  /** Moving takes one song to its place, and nothing but queue and index changes. */
  lemma MoveMeans(s: Saved, from: int, to: int, session: string)
    requires InRange(s)
    ensures Edited(s, Move(from, to), session).Bad? <==> !(0 <= from < |s.queue| && 0 <= to < |s.queue|)
    ensures 0 <= from < |s.queue| && 0 <= to < |s.queue| ==>
              var t := Edited(s, Move(from, to), session).value;
              && t == s.(queue := t.queue, index := t.index) && |t.queue| == |s.queue| && t.queue[to] == s.queue[from]
              && t.queue[..to] + t.queue[to + 1..] == s.queue[..from] + s.queue[from + 1..]
              && 0 <= t.index < |t.queue| && (from == s.index ==> t.index == to)
              && t.queue[t.index] == s.queue[s.index]
  {
    hide Appended, Removed, Stepped, Started, Selected;
    if 0 <= from < |s.queue| && 0 <= to < |s.queue| { MoveKeepsOccurrence(s.queue, from, to, s.index); }
  }

  /** Removing takes out one song; another one is removed without any other change. */
  lemma RemoveMeans(s: Saved, at: int, pick: nat, session: string)
    requires InRange(s)
    ensures Edited(s, Remove(at, pick), session).Bad? <==> !(0 <= at < |s.queue|)
    ensures 0 <= at < |s.queue| ==>
              var t := Edited(s, Remove(at, pick), session).value;
              && t.queue == s.queue[..at] + s.queue[at + 1..]
              && (at != s.index ==> t == s.(queue := t.queue, index := t.index))
              && (at == s.index ==>
                    t == s.(queue := t.queue, index := t.index, visited := t.visited, position := 0, waiting := false,
                            history := History(session, 0.0, false, false)))
  {
    hide AdvanceShuffle, Appended, Moved, Stepped, Started, Selected;
    if at == s.index < |s.queue| {
      var u := AfterRemoval(s);
      if u.shuffle && u.queue != [] { AdvanceShuffleStep(u, pick); }
    }
  }

  /** The state between the removal of the current song and the choice of the next. */
  ghost function AfterRemoval(s: Saved): Saved
    requires Current(s)
  {
    s.(queue := Without(s.queue, s.index), index := Min(s.index, Max(0, |s.queue| - 2)))
  }

  /** What plays after the current song was removed: the song behind it, or an unplayed one with shuffle. */
  lemma RemoveCurrentMeans(s: Saved, pick: nat, session: string)
    requires Current(s) && |s.queue| > 1
    ensures Edited(s, Remove(s.index, pick), session).Ok?
    ensures var t := Edited(s, Remove(s.index, pick), session).value;
            && 0 <= t.index < |t.queue|
            && (!s.shuffle ==>
               t.visited == s.visited && t.index == if s.index + 1 < |s.queue| then s.index else s.index - 1)
            && (s.shuffle && (exists id :: id in t.queue && id !in s.visited) ==>
                  t.queue[t.index] !in s.visited && t.visited == s.visited + [t.queue[t.index]])
            && (s.shuffle && s.repeat == All && (forall id | id in t.queue :: id in s.visited) ==>
                  t.visited == [t.queue[t.index]])
            && (s.shuffle && s.repeat != All && (forall id | id in t.queue :: id in s.visited) ==>
               t.visited == s.visited)
  {
    hide AdvanceShuffle, Exhausted, Ids, Appended, Moved, Stepped, Started, Selected;
    var u := AfterRemoval(s);
    if u.shuffle {
      AdvanceShuffleStep(u, pick);
      ExhaustedMeans(u);
    }
  }

  lemma ExhaustedMeans(s: Saved)
    ensures Exhausted(s) <==> forall id | id in s.queue :: id in s.visited
  {
    if Exhausted(s) {
      forall id | id in s.queue ensures id in s.visited { assert id in Ids(s.queue); }
    }
  }


  /** Each unplayed song can be drawn: a shuffled advance goes to its first position for some draw. */
  lemma EveryDrawIsPossible(s: Saved, j: nat) returns (pick: nat)
    requires Current(s) && j < |s.queue| && s.queue[j] !in s.visited && s.queue[j] !in s.queue[..j]
    ensures pick < |s.queue| && AdvanceShuffle(s, pick).Some? && AdvanceShuffle(s, pick).value.index == j
  {
    hide Candidates, AdvanceShuffle;
    var left := Candidates(s.queue, Ids(s.visited), |s.queue|);
    CandidatesExactly(s.queue, Ids(s.visited), |s.queue|, j);
    CandidatesAreFew(s.queue, Ids(s.visited), |s.queue|);
    pick :| 0 <= pick < |left| && left[pick] == j;
    DrawIs(left, pick);
    hide Drawn, Ids;
    DrawLeads(s, pick);
    MarkKeepsIndex(s.(index := j));
  }

  lemma DrawIs(from: seq<nat>, pick: nat)
    requires pick < |from|
    ensures Drawn(from, pick) == from[pick]
  {}

  lemma MarkKeepsIndex(s: Saved)
    requires InRange(s)
    ensures Mark(s).index == s.index
  {}

  lemma DrawLeads(s: Saved, pick: nat)
    requires Current(s) && Candidates(s.queue, Ids(s.visited), |s.queue|) != []
    ensures var j := Drawn(Candidates(s.queue, Ids(s.visited), |s.queue|), pick);
            j < |s.queue| && AdvanceShuffle(s, pick) == Some(Mark(s.(index := j)))
  {
    hide Candidates, Mark;
    CandidatesAreFirsts(s.queue, Ids(s.visited), |s.queue|);
  }

  lemma {:induction false} CandidatesAreFew(queue: seq<string>, seen: set<string>, n: nat)
    requires n <= |queue|
    ensures |Candidates(queue, seen, n)| <= n
  {
    if n > 0 { CandidatesAreFew(queue, seen, n - 1); }
  }

  /** NewRemote's repair of whatever the saved file held. */
  function Restored(s: Saved): (r: Saved)
    ensures InRange(r) && 0 <= r.position && (r.queue != [] ==> Song(r) in r.visited)
    ensures r == s.(index := r.index, visited := r.visited, position := if s.position < 0 then 0 else s.position,
                    waiting := false, deadline := 0, finish := false)
    ensures Current(s) ==> r.index == s.index
    ensures s.index < 0 ==> r.index == 0
    ensures s.index >= |s.queue| > 0 ==> r.index == |s.queue| - 1
    ensures r.visited == s.visited + if r.queue == [] || Song(r) in s.visited then [] else [Song(r)]
  {
    Mark(s.(index := Max(0, Min(s.index, Max(0, |s.queue| - 1))))).(position := Max(0, s.position), waiting := false,
        deadline := 0, finish := false)
  }

  ghost predicate Bounded(s: Saved, t: Saved) { InRange(t) && |t.queue| <= Max(MAX_QUEUE, |s.queue|) }

  lemma AppendKeepsIndex(s: Saved, ids: seq<string>, at: int, valid: bool)
    requires InRange(s)
    ensures var r := Appended(s, ids, at, valid); r.Ok? ==> Bounded(s, r.value)
  {}

  lemma MoveKeepsIndex(s: Saved, from: int, to: int)
    requires InRange(s)
    ensures var r := Moved(s, from, to); r.Ok? ==> Bounded(s, r.value)
  {
    if 0 <= from < |s.queue| && 0 <= to < |s.queue| { MoveKeepsOccurrence(s.queue, from, to, s.index); }
  }

  lemma RemoveKeepsIndex(s: Saved, at: int, pick: nat, session: string)
    requires InRange(s)
    ensures var r := Removed(s, at, pick, session); r.Ok? ==> Bounded(s, r.value)
  {
    hide AdvanceShuffle;
    if 0 <= at < |s.queue| && at == s.index {
      var u := s.(queue := Without(s.queue, at), index := Min(IndexAfterRemove(s.index, at), Max(0, |s.queue| - 2)));
      if u.shuffle && u.queue != [] { AdvanceShuffleStep(u, pick); }
    }
  }

  /** Every edit keeps the index inside the queue, and grows no queue past the limit. */
  lemma SelectKeepsIndex(s: Saved, at: int, session: string)
    requires 0 <= at < |s.queue|
    ensures Bounded(s, Selected(s, at, session))
  {}

  lemma StepKeepsIndex(s: Saved, pick: nat, session: string)
    requires InRange(s)
    ensures Bounded(s, Stepped(s, pick, session))
  {
    hide Advance;
    AdvanceKeeps(s, true, pick);
  }

  lemma StartKeepsIndex(s: Saved, ids: seq<string>, at: int, position: int, valid: bool, session: string)
    ensures var r := Started(s, ids, at, position, valid, session); r.Ok? ==> Bounded(s, r.value)
  {}

  lemma EditKeepsIndex(s: Saved, e: Edit, session: string)
    requires InRange(s)
    ensures Edited(s, e, session).Ok? ==> Bounded(s, Edited(s, e, session).value)
  {
    hide Appended, Moved, Removed, Advance, Selected, Stepped, Started;
    match e
    case Append(ids, at, valid) => AppendKeepsIndex(s, ids, at, valid);
    case Move(from, to) => MoveKeepsIndex(s, from, to);
    case Remove(at, pick) => RemoveKeepsIndex(s, at, pick, session);
    case Select(at) => if 0 <= at < |s.queue| { SelectKeepsIndex(s, at, session); }
    case Next(pick) => StepKeepsIndex(s, pick, session);
    case Previous => if s.queue != [] { SelectKeepsIndex(s, Max(0, s.index - 1), session); }
    case Start(ids, at, position, valid) => StartKeepsIndex(s, ids, at, position, valid, session);
    case Clear =>
  }

  ghost function AfterEdits(s: Saved, edits: seq<Edit>, sessions: seq<string>): Saved
    requires |edits| == |sessions| && InRange(s)
    decreases |edits|
  {
    if edits == [] then s
    else
      EditKeepsIndex(s, edits[0], sessions[0]);
      AfterEdits(match Edited(s, edits[0], sessions[0]) { case Ok(t) => t case Bad => s }, edits[1..], sessions[1..])
  }

  /** The index stays in the queue over every run of commands after any restored file. */
  lemma {:induction false} IndexStaysInQueue(s: Saved, edits: seq<Edit>, sessions: seq<string>)
    requires |edits| == |sessions| && InRange(s)
    ensures InRange(AfterEdits(s, edits, sessions))
            && |AfterEdits(s, edits, sessions).queue| <= Max(MAX_QUEUE, |s.queue|)
    decreases |edits|
  {
    hide Edited;
    if edits != [] {
      EditKeepsIndex(s, edits[0], sessions[0]);
      IndexStaysInQueue(match Edited(s, edits[0], sessions[0]) { case Ok(t) => t case Bad => s }, edits[1..],
          sessions[1..]);
    }
  }

  /** Appending, moving and removing another song leave the same occurrence of the same song current. */
  lemma EditKeepsSong(s: Saved, e: Edit, session: string)
    requires Current(s)
    requires e.Append? || e.Move? || (e.Remove? && e.at != s.index)
    ensures Edited(s, e, session).Ok? ==>
              var t := Edited(s, e, session).value;
              Current(t) && Song(t) == Song(s) && t == s.(queue := t.queue, index := t.index)
  {
    match e
    case Append(ids, at, valid) =>
        InsertKeepsOccurrence(s.queue, if at < 0 || at > |s.queue| then |s.queue| else at, ids, s.index);
    case Move(from, to) =>
        if 0 <= from < |s.queue| && 0 <= to < |s.queue| { MoveKeepsOccurrence(s.queue, from, to, s.index); }
    case Remove(at, pick) => if 0 <= at < |s.queue| { RemoveKeepsOccurrence(s.queue, at, s.index); }
  }
}
