/**
 Skipping songs that fail, and the object that holds the queue (internal/app/remote.go,
 internal/app/remote_shuffle.go). `picks` are the random draws, numbered by advance.
 */
module QueuePlayer {
  import opened Collections
  import opened Wrappers
  import opened PlayQueue

  /** What starting a song yields: playing, a fault of the song or its source, or any other error. */
  datatype Attempt = Playing | SongFault | OtherFault

  /******* The search for a song that has not failed *******/

  /** skipFailed's loop: at most n advances, ending on a song that is not in `failed`. */
  function Search(s: Saved, failed: set<string>, n: nat, picks: nat -> nat): (bool, Saved)
    requires InRange(s)
    decreases n
  {
    if n == 0 then (false, s)
    else
      match Advance(s, true, picks(n))
      case None => (false, s)
      case Some(t) =>
        AdvanceKeeps(s, true, picks(n));
        if Song(t) !in failed then (true, t) else Search(t, failed, n - 1, picks)
  }

  lemma SearchEnds(s: Saved, failed: set<string>, picks: nat -> nat)
    requires InRange(s)
    ensures Search(s, failed, 0, picks) == (false, s)
  {}

  lemma SearchStep(s: Saved, failed: set<string>, n: nat, picks: nat -> nat)
    requires InRange(s) && n > 0
    ensures var a := Advance(s, true, picks(n));
            && (a.None? ==> Search(s, failed, n, picks) == (false, s))
            && (a.Some? ==> Current(a.value) && InRange(a.value) &&
                            Search(s, failed, n, picks) ==
                                if Song(a.value) !in failed then (true, a.value)
                                else Search(a.value, failed, n - 1, picks))
  {
    AdvanceKeeps(s, true, picks(n));
  }

  lemma FewerLeft(all: set<string>, failed: set<string>, id: string)
    requires id in all
    ensures |all - (failed + {id})| == |all - failed| - if id in failed then 0 else 1
  {
    if id in failed {
      assert all - (failed + {id}) == all - failed;
    } else {
      assert all - (failed + {id}) == (all - failed) - {id};
    }
  }

  /** Songs between the index and j, going round. */
  function Ahead(index: int, j: int, count: int): int { if j > index then j - index else j + count - index }

  /** What can still be tried: anything in the queue under repeat-all, otherwise what comes later. */
  ghost predicate Reachable(s: Saved, failed: set<string>, j: int) {
    0 <= j < |s.queue| && s.queue[j] !in failed && (s.repeat == All || j > s.index)
  }

  ghost predicate FoundNearest(s: Saved, failed: set<string>, n: int, t: Saved)
    requires Current(s) && Current(t) && t.queue == s.queue
  {
    && Reachable(s, failed, t.index) && Ahead(s.index, t.index, |s.queue|) <= n
    && forall j | Reachable(s, failed, j) :: Ahead(s.index, t.index, |s.queue|) <= Ahead(s.index, j, |s.queue|)
  }

  lemma SequentialAdvance(s: Saved, pick: nat)
    requires Current(s) && !s.shuffle
    ensures Advance(s, true, pick).None? <==> s.index + 1 == |s.queue| && s.repeat != All
    ensures Advance(s, true, pick).Some? ==>
              var t := Advance(s, true, pick).value;
              && Current(t) && t == s.(index := t.index, visited := t.visited)
              && t.index == if s.index + 1 < |s.queue| then s.index + 1 else 0
  {}

  /** Without shuffle the search ends on the nearest song ahead that has not failed, if there is one in n advances. */
  lemma {:induction false} SequentialSearch(s: Saved, failed: set<string>, n: nat, picks: nat -> nat)
    requires Current(s) && !s.shuffle && n <= |s.queue| && Song(s) in failed
    ensures var r := Search(s, failed, n, picks);
            && Current(r.1) && r.1 == s.(index := r.1.index, visited := r.1.visited)
            && (r.0 ==> FoundNearest(s, failed, n, r.1))
            && (!r.0 ==> forall j | Reachable(s, failed, j) :: Ahead(s.index, j, |s.queue|) > n)
    decreases n
  {
    if n > 0 {
      SequentialAdvance(s, picks(n));
      hide Advance;
      if Advance(s, true, picks(n)).Some? {
        var t := Advance(s, true, picks(n)).value;
        if Song(t) in failed {
          SequentialSearch(t, failed, n - 1, picks);
          NearestFromNext(s, t, failed, n, Search(t, failed, n - 1, picks));
        }
      }
    }
  }

  /** Where a search in vain leaves the index without shuffle: at the end, or n songs on, round the queue. */
  lemma {:induction false} SearchInVain(s: Saved, failed: set<string>, n: nat, picks: nat -> nat)
    requires Current(s) && !s.shuffle && !Search(s, failed, n, picks).0
    ensures var t := Search(s, failed, n, picks).1;
            && t == s.(index := t.index, visited := t.visited)
            && t.index == if s.repeat == All then (s.index + n) % |s.queue| else Min(s.index + n, |s.queue| - 1)
    decreases n
  {
    hide Mark;
    if n > 0 {
      SequentialAdvance(s, picks(n));
      hide Advance;
      if Advance(s, true, picks(n)).Some? {
        SearchInVain(Advance(s, true, picks(n)).value, failed, n - 1, picks);
      }
      if s.repeat == All { Around(s.index, n, |s.queue|); }
    } else if s.repeat == All {
      Remainder(0, s.index, |s.queue|);
    }
  }

  lemma Around(i: nat, n: nat, d: nat)
    requires i < d && n > 0
    ensures ((if i + 1 < d then i + 1 else 0) + (n - 1)) % d == (i + n) % d
  {
    if i + 1 == d {
      var q, r := (n - 1) / d, (n - 1) % d;
      assert i + n == (q + 1) * d + r;
      Remainder(q + 1, r, d);
      Remainder(q, r, d);
    }
  }

  /** A whole search in vain ends at the last song, or where it began under repeat-all. */
  lemma SkipInVain(s: Saved, failed: set<string>, picks: nat -> nat)
    requires Current(s) && !s.shuffle && !Skipped(s, failed, picks).0
    ensures Skipped(s, failed, picks).1.index == if s.repeat == All then s.index else |s.queue| - 1
  {
    SearchInVain(s, failed + {Song(s)}, |s.queue|, picks);
    hide Search;
    if s.repeat == All { Remainder(1, s.index, |s.queue|); }
  }

  lemma NearestFromNext(s: Saved, t: Saved, failed: set<string>, n: nat, r: (bool, Saved))
    requires Current(s) && Current(t) && t == s.(index := t.index, visited := t.visited) && Song(t) in failed
             && Song(s) in failed
    requires t.index == if s.index + 1 < |s.queue| then s.index + 1 else 0
    requires s.repeat == All || t.index == s.index + 1
    requires 0 < n <= |s.queue| && Current(r.1) && r.1.queue == s.queue
    requires r.0 ==> FoundNearest(t, failed, n - 1, r.1)
    requires !r.0 ==> forall j | Reachable(t, failed, j) :: Ahead(t.index, j, |s.queue|) > n - 1
    ensures r.0 ==> FoundNearest(s, failed, n, r.1)
    ensures !r.0 ==> forall j | Reachable(s, failed, j) :: Ahead(s.index, j, |s.queue|) > n
  {
    forall j | 0 <= j < |s.queue| && s.queue[j] !in failed
      ensures Reachable(s, failed, j) <==> Reachable(t, failed, j)
      ensures Reachable(s, failed, j) ==> Ahead(s.index, j, |s.queue|) == Ahead(t.index, j, |s.queue|) + 1
    {}
  }

  /** The songs a shuffle round still has to play. */
  ghost function Unplayed(s: Saved): set<string> { Ids(s.queue) - Ids(s.visited) }

  /** With shuffle the search goes on while the round has an unplayed song that has not failed. */
  lemma {:induction false} ShuffledSearch(s: Saved, failed: set<string>, n: nat, picks: nat -> nat)
    requires Current(s) && s.shuffle && |Unplayed(s)| <= n
    ensures !(Unplayed(s) <= failed) ==> Search(s, failed, n, picks).0
    ensures s.repeat != All && Search(s, failed, n, picks).0 ==> !(Unplayed(s) <= failed)
    decreases n
  {
    hide AdvanceShuffle, Mark;
    if n > 0 {
      if Exhausted(s) {
        AdvanceShuffleStep(s, picks(n));
        assert Unplayed(s) == {};
        assert s.repeat != All ==> Advance(s, true, picks(n)).None?;
        hide Advance;
      } else {
        var t := UnplayedStep(s, picks(n));
        hide Advance, Unplayed, Exhausted, Ids;
        if Song(t) in failed { ShuffledSearch(t, failed, n - 1, picks); }
      }
    } else {
      assert Unplayed(s) == {};
    }
  }

  lemma UnplayedStep(s: Saved, pick: nat) returns (t: Saved)
    requires Current(s) && s.shuffle && !Exhausted(s)
    ensures Advance(s, true, pick) == Some(t) && Current(t) && t.queue == s.queue && t.shuffle && t.repeat == s.repeat
    ensures Song(t) in Unplayed(s) && Unplayed(t) == Unplayed(s) - {Song(t)}
  {
    AdvanceShuffleStep(s, pick);
    hide AdvanceShuffle;
    t := Advance(s, true, pick).value;
    assert Song(t) in Ids(t.queue);
  }

  /** Whatever the mode: the song found is in the queue and has not failed. */
  lemma {:induction false} SearchFindsUnfailed(s: Saved, failed: set<string>, n: nat, picks: nat -> nat)
    requires InRange(s)
    ensures var r := Search(s, failed, n, picks);
            && InRange(r.1) && r.1 == s.(index := r.1.index, visited := r.1.visited)
            && (r.0 ==> Current(r.1) && Song(r.1) !in failed)
    decreases n
  {
    if n > 0 {
      AdvanceKeeps(s, true, picks(n));
      hide Advance;
      if Advance(s, true, picks(n)).Some? {
        SearchFindsUnfailed(Advance(s, true, picks(n)).value, failed, n - 1, picks);
      }
    }
  }

  /******* skipFailed *******/

  /** The conditions under which a failure is skipped at all; `late`: a deadline has passed. */
  predicate MaySkip(s: Saved, fault: Attempt, late: bool) {
    fault == SongFault && s.skipping && !s.waiting && !(s.deadline > 0 && late) && s.queue != [] && s.index < |s.queue|
  }

  function Skipped(s: Saved, failed: set<string>, picks: nat -> nat): (bool, Saved)
    requires Current(s)
  {
    Search(s, failed + {Song(s)}, |s.queue|, picks)
  }

  /** Without shuffle a skip goes on exactly when a song that has not failed can be reached. */
  lemma SequentialSkipExactly(s: Saved, failed: set<string>, picks: nat -> nat)
    requires Current(s) && !s.shuffle
    ensures Skipped(s, failed, picks).0 <==> exists j :: Reachable(s, failed + {Song(s)}, j)
  {
    SequentialSearch(s, failed + {Song(s)}, |s.queue|, picks);
  }

  lemma SkipReaches(s: Saved, failed: set<string>, picks: nat -> nat)
    requires Current(s) && !s.shuffle
    ensures Skipped(s, failed, picks).0 <==>
            exists j :: 0 <= j < |s.queue| && s.queue[j] !in failed + {Song(s)} && (s.repeat == All || j > s.index)
  {
    SequentialSkipExactly(s, failed, picks);
    hide Skipped;
    var gone := failed + {Song(s)};
    if j :| 0 <= j < |s.queue| && s.queue[j] !in gone && (s.repeat == All || j > s.index) {
      assert Reachable(s, gone, j);
    }
  }

  lemma {:induction false} AtMostAsManyIds(q: seq<string>)
    ensures |Ids(q)| <= |q|
  {
    if q != [] {
      AtMostAsManyIds(q[1..]);
      assert Ids(q) == Ids(q[1..]) + {q[0]};
    }
  }

  /** With shuffle and no repeat-all, exactly when the round has such a song left; with repeat-all, at least then. */
  lemma ShuffledSkip(s: Saved, failed: set<string>, picks: nat -> nat)
    requires Current(s) && s.shuffle
    ensures !(Unplayed(s) <= failed + {Song(s)}) ==> Skipped(s, failed, picks).0
    ensures s.repeat != All && Skipped(s, failed, picks).0 ==> !(Unplayed(s) <= failed + {Song(s)})
  {
    AtMostAsManyIds(s.queue);
    assert |Ids(s.queue) - Unplayed(s)| == |Ids(s.queue)| - |Unplayed(s)|;
    ShuffledSearch(s, failed + {Song(s)}, |s.queue|, picks);
  }

  function Shuffling(queue: seq<string>, index: int, visited: seq<string>, h: History): Saved {
    Saved(queue, index, visited, All, true, 0, false, 0, false, true, h)
  }

  lemma IdsOfThree(a: string, b: string, c: string)
    ensures Ids([a, c]) == {a, c} && Ids([a, c, b]) == {a, b, c} && Ids([a]) == {a}
  {}

  lemma DrawsOfThree(a: string, b: string, c: string, h: History)
    requires a != b && b != c && a != c
    ensures AdvanceShuffle(Shuffling([a, b, c], 0, [a, c], h), 0) == Some(Shuffling([a, b, c], 1, [a, c, b], h))
    ensures AdvanceShuffle(Shuffling([a, b, c], 1, [a, c, b], h), 0) == Some(Shuffling([a, b, c], 0, [a], h))
    ensures AdvanceShuffle(Shuffling([a, b, c], 0, [a], h), 0) == Some(Shuffling([a, b, c], 1, [a, b], h))
  {
    hide Candidates, Ids, AdvanceShuffle;
    IdsOfThree(a, b, c);
    assert [a, c] + [b] == [a, c, b] && [] + [a] == [a] && [a] + [b] == [a, b];
    Draws(a, b, c, {a, c});
    FirstDraw(Shuffling([a, b, c], 0, [a, c], h), 1);
    Draws(a, b, c, {a, b, c});
    Draws(a, b, c, {b});
    FirstOfRound(Shuffling([a, b, c], 1, [a, c, b], h), 0);
    Draws(a, b, c, {a});
    FirstDraw(Shuffling([a, b, c], 0, [a], h), 1);
  }

  lemma FirstDraw(s: Saved, to: nat)
    requires Current(s) && to < |s.queue|
    requires Candidates(s.queue, Ids(s.visited), |s.queue|) != []
             && Candidates(s.queue, Ids(s.visited), |s.queue|)[0] == to
    ensures AdvanceShuffle(s, 0) == Some(Mark(s.(index := to)))
  {
    var from := Candidates(s.queue, Ids(s.visited), |s.queue|);
    assert Drawn(from, 0) == from[0];
  }

  lemma FirstOfRound(s: Saved, to: nat)
    requires Current(s) && to < |s.queue| && s.repeat == All && Candidates(s.queue, Ids(s.visited), |s.queue|) == []
    requires Candidates(s.queue, {Song(s)}, |s.queue|) != [] && Candidates(s.queue, {Song(s)}, |s.queue|)[0] == to
    ensures AdvanceShuffle(s, 0) == Some(Mark(s.(index := to, visited := [])))
  {
    var from := Candidates(s.queue, {Song(s)}, |s.queue|);
    assert Drawn(from, 0) == from[0];
  }

  /**
   With shuffle and repeat-all the search may give up although a song that has not failed is
   in the queue: with b failed before and a failing now, the draws b, a, b use up the search.
   */
  lemma ShuffledRepeatMayGiveUp(a: string, b: string, c: string, h: History, picks: nat -> nat) returns (s: Saved)
    requires a != b && b != c && a != c && forall k :: picks(k) == 0
    ensures Current(s) && s.shuffle && s.repeat == All && Song(s) == a && s.queue == [a, b, c]
            && s.queue[2] !in {b} + {a}
    ensures !Skipped(s, {b}, picks).0
  {
    s := Shuffling([a, b, c], 0, [a, c], h);
    DrawsOfThree(a, b, c, h);
    hide AdvanceShuffle;
    var gone := {b} + {Song(s)};
    assert Search(Shuffling([a, b, c], 1, [a, b], h), gone, 0, picks).0 == false;
    assert Search(Shuffling([a, b, c], 0, [a], h), gone, 1, picks).0 == false;
    assert Search(Shuffling([a, b, c], 1, [a, c, b], h), gone, 2, picks).0 == false;
  }

  lemma Draws(a: string, b: string, c: string, seen: set<string>)
    requires a != b && b != c && a != c
    ensures Candidates([a, b, c], seen, 3) ==
            (if a in seen then [] else [0]) + (if b in seen then [] else [1]) + (if c in seen then [] else [2])
  {
    var queue := [a, b, c];
    assert queue[..0] == [] && queue[..1] == [a] && queue[..2] == [a, b];
    assert Candidates(queue, seen, 0) == [];
    assert Candidates(queue, seen, 1) == if a in seen then [] else [0];
    assert Candidates(queue, seen, 2) == Candidates(queue, seen, 1) + if b in seen then [] else [1];
  }

  /******* The object *******/

  /** The loop over the queue that advanceShuffleLocked runs, once for each of its two choices. */
  method CollectCandidates(queue: seq<string>, seen: set<string>) returns (candidates: seq<nat>)
    ensures candidates == Candidates(queue, seen, |queue|)
  {
    candidates := [];
    var unique: set<string> := {};
    for i := 0 to |queue|
      invariant candidates == Candidates(queue, seen, i) && unique == Ids(queue[..i])
    {
      if queue[i] !in seen && queue[i] !in unique {
        candidates := candidates + [i];
      }
      unique := unique + {queue[i]};
      assert Ids(queue[..i + 1]) == Ids(queue[..i]) + {queue[i]};
    }
  }

  /** The cases of a shuffled advance, as its loops meet them. */
  lemma ShuffleChoices(s: Saved, pick: nat)
    requires Current(s)
    ensures var left, others := Candidates(s.queue, Ids(s.visited), |s.queue|),
            Candidates(s.queue, {Song(s)}, |s.queue|);
            && (left != [] ==>
               0 <= Drawn(left, pick) < |s.queue|
               && AdvanceShuffle(s, pick) == Some(Mark(s.(index := Drawn(left, pick)))))
            && (left == [] && s.repeat != All ==> AdvanceShuffle(s, pick) == None)
            && (left == [] && s.repeat == All && others != [] ==>
                  0 <= Drawn(others, pick) < |s.queue|
                      && AdvanceShuffle(s, pick) == Some(Mark(s.(index := Drawn(others, pick), visited := []))))
            && (left == [] && s.repeat == All && others == [] ==>
               AdvanceShuffle(s, pick) == Some(Mark(s.(visited := []))))
  {
    CandidatesAreFirsts(s.queue, Ids(s.visited), |s.queue|);
    CandidatesAreFirsts(s.queue, {Song(s)}, |s.queue|);
    hide Candidates, Ids, Mark;
  }

  class Player {
    var saved: Saved
    var failed: set<string>
    var stopped: bool

    method MarkShuffleLocked()
      requires InRange(saved)
      modifies this`saved
      ensures saved == Mark(old(saved))
    {
      if saved.queue == [] { return; }
      var id := saved.queue[saved.index];
      for i := 0 to |saved.visited|
        invariant saved == old(saved) && id !in saved.visited[..i]
      {
        if saved.visited[i] == id { return; }
      }
      saved := saved.(visited := saved.visited + [id]);
    }

    method ResetShuffleLocked()
      requires InRange(saved)
      modifies this`saved
      ensures saved == ResetShuffle(old(saved))
    {
      saved := saved.(visited := []);
      MarkShuffleLocked();
    }

    method AdvanceShuffleLocked(pick: nat) returns (ok: bool)
      requires Current(saved)
      modifies this`saved
      ensures ok == AdvanceShuffle(old(saved), pick).Some?
      ensures saved == if ok then AdvanceShuffle(old(saved), pick).value else old(saved)
    {
      ShuffleChoices(saved, pick);
      hide AdvanceShuffle, Candidates, Ids, Mark;
      var candidates := CollectCandidates(saved.queue, Ids(saved.visited));
      if candidates == [] {
        if saved.repeat != All { return false; }
        candidates := CollectCandidates(saved.queue, {saved.queue[saved.index]});
        if candidates == [] { candidates := [saved.index]; }
        saved := saved.(visited := []);
      }
      saved := saved.(index := candidates[pick % |candidates|]);
      MarkShuffleLocked();
      ok := true;
    }

    method AdvanceLocked(manual: bool, pick: nat) returns (ok: bool)
      requires InRange(saved)
      modifies this`saved
      ensures ok == Advance(old(saved), manual, pick).Some?
      ensures saved == if ok then Advance(old(saved), manual, pick).value else old(saved)
    {
      hide AdvanceShuffle, Mark;
      if saved.queue == [] { return false; }
      if !manual && saved.repeat == Single { return true; }
      if saved.shuffle { ok := AdvanceShuffleLocked(pick); return; }
      if saved.index + 1 < |saved.queue| {
        saved := saved.(index := saved.index + 1);
        MarkShuffleLocked();
        return true;
      }
      if saved.repeat == All {
        saved := saved.(index := 0);
        ResetShuffleLocked();
        return true;
      }
      ok := false;
    }

    /** skipFailed: record the failure and look for a song that has not failed. */
    method SkipFailed(fault: Attempt, late: bool, picks: nat -> nat, session: string) returns (ok: bool)
      requires InRange(saved)
      modifies this
      ensures InRange(saved) && saved.queue == old(saved).queue
      ensures fault != SongFault || !old(saved).skipping || old(saved).waiting || (old(saved).deadline > 0 && late)
                  || old(saved).queue == [] ==>
                !ok && failed == old(failed) && saved == old(saved) && stopped == old(stopped)
      ensures fault == SongFault && old(saved).skipping && !old(saved).waiting && !(old(saved).deadline > 0 && late)
                  && old(saved).queue != [] ==>
                && failed == old(failed) + {Song(old(saved))}
                && ok == Skipped(old(saved), old(failed), picks).0
                && (!ok ==> stopped && saved == Skipped(old(saved), old(failed), picks).1)
                && (!old(saved).shuffle ==>
                      (ok <==> exists j :: 0 <= j < |saved.queue| && saved.queue[j] !in failed
                                           && (old(saved).repeat == All || j > old(saved).index)))
      ensures ok ==> stopped == old(stopped) && Current(saved) && Song(saved) !in failed
      ensures ok ==> saved.position == 0 && saved.history == History(session, 0.0, false, false)
      ensures ok ==> saved == ResetHistory(Skipped(old(saved), old(failed), picks).1, 0, session).(position := 0)
    {
      if Current(saved) && !saved.shuffle { SkipReaches(saved, failed, picks); }
      hide Reachable;
      if fault != SongFault { return false; }
      if !saved.skipping || saved.waiting || (saved.deadline > 0 && late) { return false; }
      if saved.queue == [] || saved.index >= |saved.queue| { return false; }
      failed := failed + {saved.queue[saved.index]};
      SearchFindsUnfailed(saved, failed, |saved.queue|, picks);
      hide Search;
      ok := FindUnfailed(picks);
      if ok {
        saved := ResetHistory(saved.(position := 0), 0, session);
      } else {
        stopped := true;
      }
    }

    /** skipFailed's loop. */
    method FindUnfailed(picks: nat -> nat) returns (found: bool)
      requires InRange(saved)
      modifies this`saved
      ensures (found, saved) == Search(old(saved), failed, |old(saved).queue|, picks)
    {
      hide Search, Advance, InRange;
      ghost var start := saved;
      var n: nat := |saved.queue|;
      while n > 0
        invariant InRange(saved) && Search(start, failed, |start.queue|, picks) == Search(saved, failed, n, picks)
        decreases n
      {
        SearchStep(saved, failed, n, picks);
        var moved := AdvanceLocked(true, picks(n));
        if !moved { return false; }
        if saved.queue[saved.index] !in failed { return true; }
        n := n - 1;
      }
      SearchEnds(saved, failed, picks);
      found := false;
    }

    /**
     startWithPolicy: start songs until one plays or its failure may not be skipped. The songs
     tried after the first are different from each other and had not failed before, so there
     are no more of them than songs that had not failed. An empty queue is an error.
     */
    method StartWithPolicy(attempts: nat -> Attempt, late: nat -> bool, picks: nat -> nat -> nat,
            sessions: nat -> string)
        returns (outcome: Attempt, ghost tried: seq<string>)
      requires InRange(saved)
      modifies this
      ensures InRange(saved) && saved.queue == old(saved).queue && old(failed) <= failed
      ensures old(saved).queue == [] ==>
              outcome == OtherFault && tried == [] && saved == old(saved) && failed == old(failed)
      ensures old(saved).queue != [] ==> |tried| >= 1 && outcome == attempts(|tried| - 1)
      ensures forall k | 0 <= k < |tried| - 1 :: attempts(k) == SongFault
      ensures tried != [] ==> Distinct(tried[1..]) && Ids(tried[1..]) <= Ids(old(saved).queue) - old(failed)
      ensures |tried| <= |Ids(old(saved).queue) - old(failed)| + 1
      ensures outcome == Playing ==> tried != [] && Current(saved) && Song(saved) == tried[|tried| - 1]
      ensures tried != [] ==> Ids(tried[..|tried| - 1]) <= failed
    {
      hide Skipped;
      tried := [];
      if saved.queue == [] { return OtherFault, tried; }
      var n: nat := 0;
      while true
        invariant Current(saved) && saved.queue == old(saved).queue && old(failed) <= failed
        invariant n == |tried| && Ids(tried) <= failed
        invariant forall k | 0 <= k < n :: attempts(k) == SongFault
        invariant n > 0 ==>
                  Song(saved) !in failed && Distinct(tried[1..])
                  && Ids(tried[1..]) <= Ids(old(saved).queue) - old(failed)
        decreases |Ids(old(saved).queue) - failed| + if n == 0 then 1 else 0
      {
        outcome := attempts(n);
        ghost var before, song := tried, Song(saved);
        tried := tried + [song];
        TriedGrows(before, song, saved.queue, old(failed), failed, old(saved).queue);
        if outcome == Playing { return; }
        FewerLeft(Ids(saved.queue), failed, song);
        var skipped := SkipFailed(outcome, late(n), picks(n), sessions(n));
        if !skipped { return; }
        n := n + 1;
      }
    }
  }

  lemma TriedGrows(before: seq<string>, song: string, queue: seq<string>, start: set<string>, failed: set<string>,
          original: seq<string>)
    requires queue == original && song in queue && start <= failed && Ids(before) <= failed
    requires |before| > 0 ==> song !in failed && Distinct(before[1..]) && Ids(before[1..]) <= Ids(original) - start
    ensures var after := before + [song];
            Distinct(after[1..]) && Ids(after[1..]) <= Ids(original) - start && |after| <= |Ids(original) - start| + 1
            && after[..|after| - 1] == before && Ids(after) <= failed + {song}
  {
    var after := before + [song];
    if |before| > 0 {
      assert after[1..] == before[1..] + [song];
      assert forall id | id in before[1..] :: id in before;
    }
    DistinctCount(after[1..]);
    var all, rest := Ids(original) - start, Ids(after[1..]);
    assert rest <= all;
    hide Distinct, Ids;
    assert |all - rest| == |all| - |rest|;
  }
}
