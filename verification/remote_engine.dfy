/**
 The critical sections of the playback engine as they update its fields
 (internal/app/remote.go), each proved to be its step of the protocol. What the goroutines
 are doing, and who holds which mutex, is ghost.
 */
module RemoteEngine {
  import opened Collections
  import opened Wrappers
  import opened PlayQueue
  import P = RemoteProtocol

  class Remote {
    var generation: nat
    var play: P.PlayState
    var saved: Saved
    var failed: set<string>
    var cancel: Option<nat>
    var session: Option<nat>
    var closed: bool
    var end: seq<P.Event>
    var taken: Option<P.Event>
    ghost var control: P.Control
    ghost var workers: map<nat, P.Worker>
    ghost var playback: Option<nat>
    ghost var sessions: set<nat>
    ghost var acted: seq<nat>

    ghost function View(): P.State
      reads this
    {
      P.State(generation, play, saved, failed, cancel, session, closed, end, taken, control, workers, playback,
          sessions, acted)
    }

    /** NewRemote: the saved file is repaired, nothing plays. */
    constructor (file: Saved)
      ensures P.Initial(View()) && saved == Restored(file) && failed == {}
      ensures play == if file.queue != [] then P.Pause else P.Stop
    {
      generation, failed, cancel, session, closed := 0, {}, None, None, false;
      var clamped := file.(index := Max(0, Min(file.index, Max(0, |file.queue| - 1))));
      saved := Mark(clamped).(position := Max(0, file.position), waiting := false, deadline := 0, finish := false);
      play := if file.queue != [] then P.Pause else P.Stop;
      end, taken := [], None;
      control, workers, playback, sessions, acted := P.Free, map[], None, {}, [];
    }

    /** cancelPlayback up to the unlock; returns what is then called outside the lock. */
    method CancelSection() returns (victim: Option<nat>, closing: Option<nat>)
      requires P.MayTurn(View(), P.BeginCancel)
      modifies this
      ensures View() == P.Turns(old(View()), P.BeginCancel)
      ensures victim == old(cancel) && closing == old(session)
    {
      victim, closing := cancel, session;
      generation := generation + 1;
      cancel, session := None, None;
      if |saved.queue| > 0 { play := P.Pause; } else { play := P.Stop; }
      control := P.Cancelling(control.task, victim, closing);
    }

    /** start's last section: the worker it starts carries the generation read in it. */
    method LaunchSection(worker: nat, history: string, from: int) returns (stamp: nat)
      requires P.MayTurn(View(), P.Launch(worker, history, from))
      modifies this
      ensures View() == P.Turns(old(View()), P.Launch(worker, history, from))
      ensures stamp == generation && workers[worker].generation == stamp
    {
      if saved.history.session == "" {
        saved := saved.(history := History(history, 0.0, false, from > 0));
      }
      cancel, play, stamp := Some(worker), P.Loading, generation;
      workers := workers[worker := P.Worker(stamp, false, P.Queued, false, saved)];
      control := P.Held(if control.task.Starting? then P.Done else control.task, false);
    }

    /** The loop's test of an event it has received. */
    method CheckEvent(event: P.Event) returns (valid: bool)
      requires control.Held? && control.task == P.Deciding(event) && InRange(saved)
      modifies this`acted, this`control
      ensures View() == P.HolderDoes(old(View()), P.Check)
      ensures valid == (!closed && event.generation == generation)
    {
      valid := !closed && event.generation == generation;
      if valid { acted := acted + [event.generation]; }
      control := P.Held(if valid then P.Ending(event.fault) else P.Done, false);
    }

    /** The loop's section after a song played to its end; true when another song is to start. */
    method HandleEnd(late: bool, pick: nat, history: string) returns (starts: bool)
      requires P.Holds(View(), P.Ended(P.Clean)) && InRange(saved)
      modifies this
      ensures View() == P.HolderDoes(old(View()), P.ActOnEnd(late, pick, history))
      ensures starts == P.HoldsStart(View())
      ensures old(saved).waiting ==> !starts && play == P.Pause && !saved.waiting
    {
      hide Advance, ResetHistory, InRange, P.EndStep, P.HolderDoes, P.HolderMay;
      EndFields(View(), late, pick, history);
      var s := saved;
      if s.deadline > 0 && late { s := s.(deadline := 0, waiting := true); }
      s := ResetHistory(s.(position := 0), 0, history);
      failed, starts := {}, false;
      if s.waiting {
        saved, play := s.(waiting := false), P.Pause;
      } else {
        match Advance(s, false, pick) {
          case Some(next) => saved, starts := next, true;
          case None => saved, play := s, P.Stop;
        }
      }
      control := P.Held(if starts then P.Starting(false) else P.Done, false);
    }

    /** The tick's section; true when playback is to be cancelled. */
    method TickSection(late: bool) returns (pause: bool)
      requires P.Holds(View(), P.Ticking) && InRange(saved)
      modifies this`saved, this`control
      ensures View() == P.HolderDoes(old(View()), P.Tick(late))
      ensures pause == P.Holds(View(), P.Pausing)
    {
      pause := false;
      if saved.deadline > 0 && late {
        saved := saved.(deadline := 0);
        if saved.finish && (play == P.Play || play == P.Loading) {
          saved := saved.(waiting := true);
        } else {
          pause := true;
          saved := saved.(waiting := false);
        }
      }
      control := P.Held(if pause then P.Pausing else P.Done, false);
    }

    /** A worker registers its session, unless it has been superseded. */
    method RegisterSession(worker: nat, stamp: nat) returns (ok: bool)
      requires worker in workers && workers[worker].generation == stamp && P.WorkerMay(View(), worker, P.Register)
      modifies this
      ensures View() == P.Works(old(View()), worker, P.Register)
      ensures ok == (stamp == generation)
    {
      ok := stamp == generation;
      if ok {
        session := Some(worker);
        workers := workers[worker := workers[worker].(stage := P.Streaming)];
      } else {
        workers := workers[worker := workers[worker].(stage := P.Returned(P.Transport))];
        sessions := sessions - {worker};
      }
    }

    /** The progress callback of a single song. */
    method ReportProgress(worker: nat, stamp: nat, began: Saved, elapsed: int, listened: real)
      requires worker in workers && workers[worker].generation == stamp && InRange(saved)
      requires P.WorkerMay(View(), worker, P.Progress(Heard(saved, began, elapsed, listened)))
      modifies this`play, this`saved
      ensures View() == P.Works(old(View()), worker, P.Progress(Heard(old(saved), began, elapsed, listened)))
      ensures stamp != generation ==> saved == old(saved) && play == old(play)
      ensures stamp == generation ==>
                play == P.Play
                && saved == old(saved).(position := began.position + elapsed,
                       history := old(saved).history.(listened := began.history.listened + listened))
    {
      if stamp == generation {
        play := P.Play;
        saved := saved.(position := began.position + elapsed);
        saved := saved.(history := saved.history.(listened := began.history.listened + listened));
      }
    }
  }

  /** The state before its end is acted on, with what the loop makes of the saved part. */
  function Ending(saved: Saved, late: bool, history: string): Saved {
    var due := if saved.deadline > 0 && late then saved.(deadline := 0, waiting := true) else saved;
    ResetHistory(due.(position := 0), 0, history)
  }

  lemma EndFields(s: P.State, late: bool, pick: nat, history: string)
    requires P.Holds(s, P.Ended(P.Clean)) && InRange(s.saved)
    ensures var saved, t := Ending(s.saved, late, history), s.(failed := {});
            && InRange(saved) && (s.saved.waiting ==> saved.waiting)
            && P.HolderDoes(s, P.ActOnEnd(late, pick, history)) ==
               if saved.waiting
               then t.(saved := saved.(waiting := false), play := P.Pause, control := P.Held(P.Done, false))
               else match Advance(saved, false, pick) {
                 case Some(next) => t.(saved := next, control := P.Held(P.Starting(false), false))
                 case None => t.(saved := saved, play := P.Stop, control := P.Held(P.Done, false))
               }
  {
    hide Advance;
  }

  function Heard(saved: Saved, began: Saved, elapsed: int, listened: real): Saved {
    saved.(position := began.position + elapsed,
        history := saved.history.(listened := began.history.listened + listened))
  }
}
