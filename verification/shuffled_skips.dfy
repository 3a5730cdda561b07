/**
 When skipping a failed song under shuffle surely finds another (internal/app/remote.go,
 internal/app/remote_shuffle.go). The search makes as many advances as the queue has places;
 with repeat-all the draws may spend them all on songs that have failed.
 */
module ShuffledSkips {
  import opened Wrappers
  import opened PlayQueue
  import opened QueuePlayer

  /******* Draws that can be forced *******/

  /** Every id left can be the one drawn. */
  lemma CanDraw(queue: seq<string>, seen: set<string>, x: string) returns (pick: nat)
    requires x in Ids(queue) && x !in seen
    ensures var left := Candidates(queue, seen, |queue|);
            left != [] && Drawn(left, pick) < |queue| && queue[Drawn(left, pick)] == x
  {
    hide Candidates, Ids;
    var j := FirstPlace(queue, x);
    CandidatesExactly(queue, seen, |queue|, j);
    var left := Candidates(queue, seen, |queue|);
    pick :| 0 <= pick < |left| && left[pick] == j;
    Remains(pick, |left|);
  }

  lemma Remains(k: nat, d: nat)
    requires k < d
    ensures k % d == k
  {}

  lemma {:induction false} FirstPlace(queue: seq<string>, x: string) returns (j: nat)
    requires x in Ids(queue)
    ensures j < |queue| && queue[j] == x && x !in queue[..j]
  {
    var n := |queue| - 1;
    if x in queue[..n] {
      j := FirstPlace(queue[..n], x);
      assert queue[..n][..j] == queue[..j];
    } else {
      j := n;
    }
  }

  /** What stays as it is while the search goes on. */
  ghost predicate Follows(s: Saved, t: Saved) {
    Current(s) && Current(t) && t.queue == s.queue && t.shuffle && t.repeat == s.repeat
  }

  lemma DrawUnplayed(s: Saved, x: string) returns (pick: nat, t: Saved)
    requires Current(s) && s.shuffle && x in Unplayed(s)
    ensures Advance(s, true, pick) == Some(t) && Follows(s, t) && Song(t) == x && Unplayed(t) == Unplayed(s) - {x}
  {
    hide Candidates, Drawn, AdvanceShuffle;
    pick := CanDraw(s.queue, Ids(s.visited), x);
    ShuffleChoices(s, pick);
    NothingUnplayed(s);
    t := UnplayedStep(s, pick);
  }

  /** A new round under repeat-all opens with any other id. */
  lemma NewRound(s: Saved, pick: nat) returns (t: Saved)
    requires Current(s) && s.shuffle && s.repeat == All && Unplayed(s) == {}
    ensures Advance(s, true, pick) == Some(t) && Follows(s, t) && Unplayed(t) == Ids(s.queue) - {Song(t)}
    ensures Ids(s.queue) != {Song(s)} ==> Song(t) != Song(s)
  {
    hide AdvanceShuffle, Unplayed;
    NothingUnplayed(s);
    AdvanceShuffleStep(s, pick);
    t := Advance(s, true, pick).value;
    RoundOfOne(t);
  }

  lemma RoundOfOne(t: Saved)
    requires Current(t) && t.visited == [Song(t)]
    ensures Unplayed(t) == Ids(t.queue) - {Song(t)}
  {
    assert Ids(t.visited) == {Song(t)};
  }

  lemma NothingUnplayed(s: Saved)
    ensures Unplayed(s) == {} <==> Exhausted(s)
  {
    assert forall id | id in Ids(s.queue) :: id in Ids(s.visited) || id in Unplayed(s);
  }

  lemma DrawNewRound(s: Saved, x: string) returns (pick: nat, t: Saved)
    requires Current(s) && s.shuffle && s.repeat == All && Unplayed(s) == {} && x in Ids(s.queue) && x != Song(s)
    ensures Advance(s, true, pick) == Some(t) && Follows(s, t) && Song(t) == x && Unplayed(t) == Ids(s.queue) - {x}
  {
    hide Candidates, Drawn, Unplayed, Ids, AdvanceShuffle;
    pick := CanDraw(s.queue, {Song(s)}, x);
    NothingUnplayed(s);
    NoneLeft(s.queue, Ids(s.visited));
    ShuffleChoices(s, pick);
    t := NewRound(s, pick);
  }

  /******* When every draw fails *******/

  /** Some draws let the search give up. */
  ghost predicate MayGiveUp(s: Saved, failed: set<string>, n: nat)
    requires InRange(s)
  {
    exists picks: nat -> nat :: !Search(s, failed, n, picks).0
  }

  function Choose(picks: nat -> nat, n: nat, pick: nat): nat -> nat { k => if k == n then pick else picks(k) }

  lemma {:induction false} SameDraws(s: Saved, failed: set<string>, n: nat, p: nat -> nat, q: nat -> nat)
    requires InRange(s) && forall k: nat | k <= n :: p(k) == q(k)
    ensures Search(s, failed, n, p) == Search(s, failed, n, q)
    decreases n
  {
    if n > 0 {
      SearchStep(s, failed, n, p);
      SearchStep(s, failed, n, q);
      hide Search, Advance;
      if Advance(s, true, p(n)).Some? { SameDraws(Advance(s, true, p(n)).value, failed, n - 1, p, q); }
    } else {
      SearchEnds(s, failed, p);
      SearchEnds(s, failed, q);
    }
  }

  /** One more draw of a failed song. */
  lemma GiveUpAfter(s: Saved, t: Saved, failed: set<string>, n: nat, pick: nat)
    requires Current(s) && Current(t) && n > 0 && Advance(s, true, pick) == Some(t) && Song(t) in failed
             && MayGiveUp(t, failed, n - 1)
    ensures MayGiveUp(s, failed, n)
  {
    hide Search, Advance;
    var rest: nat -> nat :| !Search(t, failed, n - 1, rest).0;
    var picks := Choose(rest, n, pick);
    SearchStep(s, failed, n, picks);
    SameDraws(t, failed, n - 1, rest, picks);
    assert !Search(s, failed, n, picks).0;
  }

  lemma GiveUpNow(s: Saved, failed: set<string>)
    requires InRange(s)
    ensures MayGiveUp(s, failed, 0)
  {
    var picks: nat -> nat := (k: nat) => 0;
    SearchEnds(s, failed, picks);
    assert !Search(s, failed, 0, picks).0;
  }

  lemma Without(a: set<string>, failed: set<string>, x: string)
    requires x in a && x in failed
    ensures |(a - {x}) * failed| == |a * failed| - 1 && |a - {x}| == |a| - 1
  {
    assert (a - {x}) * failed == a * failed - {x};
  }

  /** The failed songs a round still has to play can all come first. */
  lemma {:induction false} GiveUpInRound(s: Saved, failed: set<string>, n: nat)
    requires Current(s) && s.shuffle && n <= |Unplayed(s) * failed|
    ensures MayGiveUp(s, failed, n)
    decreases n
  {
    hide Advance, Search, MayGiveUp, Unplayed;
    if n == 0 {
      GiveUpNow(s, failed);
    } else {
      assert Unplayed(s) * failed != {};
      var x :| x in Unplayed(s) * failed;
      var pick, t := DrawUnplayed(s, x);
      Without(Unplayed(s), failed, x);
      GiveUpInRound(t, failed, n - 1);
      GiveUpAfter(s, t, failed, n, pick);
    }
  }

  /** When only failed songs are left in the round, they and those of the next can come first. */
  lemma {:induction false} GiveUpOverRounds(s: Saved, failed: set<string>, n: nat)
    requires Current(s) && s.shuffle && s.repeat == All && Song(s) in failed && Unplayed(s) <= failed
    requires |Ids(s.queue) * failed| >= 2 && n <= |Unplayed(s)| + |Ids(s.queue) * failed|
    ensures MayGiveUp(s, failed, n)
    decreases n
  {
    hide Advance, Search, MayGiveUp, Unplayed, Ids;
    var all := Ids(s.queue) * failed;
    if n == 0 {
      GiveUpNow(s, failed);
    } else if Unplayed(s) == {} {
      var x := Another(all, Song(s));
      var pick, t := DrawNewRound(s, x);
      Without(Ids(s.queue), failed, x);
      GiveUpInRound(t, failed, n - 1);
      GiveUpAfter(s, t, failed, n, pick);
    } else {
      var x :| x in Unplayed(s);
      var pick, t := DrawUnplayed(s, x);
      Without(Unplayed(s), failed, x);
      GiveUpOverRounds(t, failed, n - 1);
      GiveUpAfter(s, t, failed, n, pick);
    }
  }

  lemma Another(a: set<string>, x: string) returns (y: string)
    requires |a| >= 2
    ensures y in a && y != x
  {
    var rest := a - {x};
    assert |rest| >= |a| - 1;
    y :| y in rest;
  }

  /******* When every draw succeeds *******/

  /** There are more advances than failed songs left in the round, and another song in it. */
  lemma {:induction false} FoundInRound(s: Saved, failed: set<string>, n: nat, picks: nat -> nat)
    requires Current(s) && s.shuffle && !(Unplayed(s) <= failed) && |Unplayed(s) * failed| < n
    ensures Search(s, failed, n, picks).0
    decreases n
  {
    hide Advance, Search, Unplayed, Exhausted, Ids;
    NotExhausted(s, failed);
    SearchStep(s, failed, n, picks);
    var t := UnplayedStep(s, picks(n));
    if Song(t) in failed {
      Without(Unplayed(s), failed, Song(t));
      FoundInRound(t, failed, n - 1, picks);
    }
  }

  lemma NotExhausted(s: Saved, failed: set<string>)
    requires !(Unplayed(s) <= failed)
    ensures !Exhausted(s)
  {}

  /** The song reached the end of the round; the next round has another to offer. */
  lemma {:induction false} FoundOverRounds(s: Saved, failed: set<string>, n: nat, picks: nat -> nat)
    requires Current(s) && s.shuffle && s.repeat == All && Song(s) in failed && Unplayed(s) <= failed
             && !(Ids(s.queue) <= failed)
    requires n > |Unplayed(s)| && (|Ids(s.queue) * failed| == 1 || n - |Unplayed(s)| > |Ids(s.queue) * failed|)
    ensures Search(s, failed, n, picks).0
    decreases n
  {
    hide Advance, Search, Unplayed, Ids, Exhausted;
    SearchStep(s, failed, n, picks);
    NothingUnplayed(s);
    if Unplayed(s) == {} {
      FoundInNextRound(s, failed, n, picks);
    } else {
      var t := UnplayedStep(s, picks(n));
      Without(Unplayed(s), failed, Song(t));
      FoundOverRounds(t, failed, n - 1, picks);
    }
  }

  lemma {:induction false} FoundInNextRound(s: Saved, failed: set<string>, n: nat, picks: nat -> nat)
    requires Current(s) && s.shuffle && s.repeat == All && Song(s) in failed && Unplayed(s) == {}
             && !(Ids(s.queue) <= failed)
    requires n > 0 && (|Ids(s.queue) * failed| == 1 || n > |Ids(s.queue) * failed|)
    ensures Search(s, failed, n, picks).0
  {
    hide Advance, Search, Unplayed, Ids, Exhausted;
    SearchStep(s, failed, n, picks);
    SongIsListed(s);
    var t := NewRound(s, picks(n));
    SongIsListed(t);
    if Song(t) in failed {
      OneFailed(Ids(s.queue) * failed, Song(s), Song(t));
      Without(Ids(s.queue), failed, Song(t));
      FoundInRound(t, failed, n - 1, picks);
    }
  }

  lemma SongIsListed(s: Saved)
    requires Current(s)
    ensures Song(s) in Ids(s.queue)
  {}

  lemma OneFailed(a: set<string>, x: string, y: string)
    requires x in a && y in a && x != y
    ensures |a| != 1
  {
    assert {x, y} <= a && |a - {x, y}| == |a| - |{x, y}|;
  }

  /******* The exact condition *******/

  /** The round has a song left that has not failed, or the next one offers one in time. */
  ghost predicate SurelyFound(s: Saved, failed: set<string>) {
    var ids, left := Ids(s.queue), Unplayed(s);
    && !(ids <= failed)
    && (!(left <= failed) || |ids * failed| == 1 || |s.queue| - |left| > |ids * failed|)
  }

  /** All failed: nothing can be found. */
  lemma NoneToFind(s: Saved, failed: set<string>, n: nat)
    requires Current(s) && Ids(s.queue) <= failed
    ensures MayGiveUp(s, failed, n)
  {
    var picks: nat -> nat := (k: nat) => 0;
    hide Search, Ids;
    SearchFindsUnfailed(s, failed, n, picks);
    var r := Search(s, failed, n, picks);
    if r.0 { SongIsListed(r.1); }
    assert !Search(s, failed, n, picks).0;
  }

  lemma SearchFindsExactly(s: Saved, failed: set<string>)
    requires Current(s) && s.shuffle && s.repeat == All && Song(s) in failed
    ensures (forall picks: nat -> nat :: Search(s, failed, |s.queue|, picks).0) <==> SurelyFound(s, failed)
  {
    var ids, left, n := Ids(s.queue), Unplayed(s), |s.queue|;
    SongIsListed(s);
    RoundFits(s);
    hide Search, MayGiveUp;
    if SurelyFound(s, failed) {
      hide Ids, Unplayed;
      forall picks: nat -> nat ensures Search(s, failed, n, picks).0 {
        if left <= failed {
          LeftIsLess(ids, left, failed);
          FoundOverRounds(s, failed, n, picks);
        } else {
          ShuffledSearch(s, failed, n, picks);
        }
      }
    } else {
      hide Unplayed;
      if ids <= failed {
        NoneToFind(s, failed, n);
      } else {
        TwoFailed(ids * failed, Song(s));
        GiveUpOverRounds(s, failed, n);
      }
      GivesUp(s, failed, n);
    }
  }

  lemma GivesUp(s: Saved, failed: set<string>, n: nat)
    requires InRange(s) && MayGiveUp(s, failed, n)
    ensures !(forall picks: nat -> nat :: Search(s, failed, n, picks).0)
  {
    hide Search;
  }

  lemma TwoFailed(a: set<string>, x: string)
    requires x in a && |a| != 1
    ensures |a| >= 2
  {}

  lemma RoundFits(s: Saved)
    ensures Unplayed(s) <= Ids(s.queue) && |Unplayed(s)| <= |Ids(s.queue)| <= |s.queue|
  {
    AtMostAsManyIds(s.queue);
    assert |Ids(s.queue) - Unplayed(s)| == |Ids(s.queue)| - |Unplayed(s)|;
  }

  lemma LeftIsLess(ids: set<string>, left: set<string>, failed: set<string>)
    requires left <= ids && left <= failed && !(ids <= failed)
    ensures |left| < |ids|
  {
    var x :| x in ids && x !in failed;
    assert x in ids - left;
    assert |ids - left| == |ids| - |left|;
  }

  /**
   With shuffle and repeat-all a failed song is skipped whatever is drawn exactly when some song
   has not failed and the round still has one, or only this song has failed, or the advances
   left after the round outnumber the failed songs.
   */
  lemma ShuffledRepeatSkipExactly(s: Saved, failed: set<string>)
    requires Current(s) && s.shuffle && s.repeat == All
    ensures (forall picks: nat -> nat :: Skipped(s, failed, picks).0) <==> SurelyFound(s, failed + {Song(s)})
  {
    hide Search, SurelyFound;
    SearchFindsExactly(s, failed + {Song(s)});
    if SurelyFound(s, failed + {Song(s)}) {
      forall picks: nat -> nat
        ensures Skipped(s, failed, picks).0
      {
        assert Search(s, failed + {Song(s)}, |s.queue|, picks).0;
      }
    } else {
      var picks: nat -> nat :| !Search(s, failed + {Song(s)}, |s.queue|, picks).0;
      assert !Skipped(s, failed, picks).0;
    }
  }
}
