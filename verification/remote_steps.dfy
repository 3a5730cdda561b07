/**
 What the steps of the playback engine do (internal/app/remote.go): each read off the states
 before and after it, how ends travel from the workers to the loop, and that no step is missing.
 */
module RemoteSteps {
  import opened Wrappers
  import opened PlayQueue
  import opened QueuePlayer
  import opened RemoteProtocol

  /** Nothing but the saved state, the play state, the failures and the holder's task differs. */
  ghost predicate OnlySection(s: State, t: State) {
    t == s.(saved := t.saved, play := t.play, failed := t.failed, control := t.control)
  }

  /** A song is to stop playback when it ends: Waiting is set, or its deadline has passed. */
  predicate Stops(s: Saved, late: bool) { s.waiting || (s.deadline > 0 && late) }

  /** Nothing follows a song that ended, as advancing has it. */
  ghost predicate AtEnd(s: Saved) {
    s.queue == [] || (s.repeat == Off && if s.shuffle then forall id | id in s.queue :: id in s.visited
                                         else s.index + 1 == |s.queue|)
  }

  /**
   A song that played to its end forgets the failures and its place. When playback is to stop
   it pauses there; else the song that follows is started, or playback stops.
   */
  lemma EndMeans(s: State, late: bool, pick: nat, history: string)
    requires Inv(s) && Holds(s, Ended(Clean))
    ensures var t := Apply(s, Holder(ActOnEnd(late, pick, history)));
            && OnlySection(s, t) && t.failed == {} && t.saved.queue == s.saved.queue
            && t.saved.position == 0 && t.saved.history == History(history, 0.0, false, false) && !t.saved.waiting
            && t.saved.deadline == (if s.saved.deadline > 0 && late then 0 else s.saved.deadline)
            && t.play == (if Stops(s.saved, late) then Pause else if AtEnd(s.saved) then Stop else s.play)
            && t.control == Held(if Stops(s.saved, late) || AtEnd(s.saved) then Done else Starting(false), false)
            && (Stops(s.saved, late) || AtEnd(s.saved) || s.saved.repeat == Single ==>
                  t.saved.index == s.saved.index && t.saved.visited == s.saved.visited)
            && (!Stops(s.saved, late) && !AtEnd(s.saved) && s.saved.repeat != Single && !s.saved.shuffle ==>
                  t.saved.index == if s.saved.index + 1 < |s.saved.queue| then s.saved.index + 1 else 0)
            && (!Stops(s.saved, late) && s.saved.repeat != Single && s.saved.shuffle
                  && (exists id :: id in s.saved.queue && id !in s.saved.visited) ==>
                  0 <= t.saved.index < |t.saved.queue| && t.saved.queue[t.saved.index] !in s.saved.visited)
  {
    var reset := EndIs(s, late, pick, history);
    if s.saved.queue != [] { AdvanceMeans(reset, false, pick); } else { NothingFollows(reset, pick); }
    hide Advance, Inv, Apply;
  }

  lemma EndIs(s: State, late: bool, pick: nat, history: string) returns (reset: Saved)
    requires Inv(s) && Holds(s, Ended(Clean))
    ensures reset == s.saved.(position := 0, history := History(history, 0.0, false, false),
                waiting := Stops(s.saved, late), deadline :=
                    if s.saved.deadline > 0 && late then 0 else s.saved.deadline)
    ensures InRange(reset)
    ensures var t := s.(failed := {});
            Apply(s, Holder(ActOnEnd(late, pick, history))) ==
            if Stops(s.saved, late)
            then t.(saved := reset.(waiting := false), play := Pause, control := Held(Done, false))
            else match Advance(reset, false, pick) {
              case Some(next) => t.(saved := next, control := Held(Starting(false), false))
              case None => t.(saved := reset, play := Stop, control := Held(Done, false))
            }
  {
    hide Advance, Inv;
    InvIs(s);
    reset := s.saved.(position := 0, history := History(history, 0.0, false, false), waiting := Stops(s.saved, late),
        deadline := if s.saved.deadline > 0 && late then 0 else s.saved.deadline);
  }

  lemma NothingFollows(s: Saved, pick: nat)
    requires InRange(s) && s.queue == []
    ensures Advance(s, false, pick).None?
  {}

  /** A failure is skipped for a song's own fault only, while the policy says so and nothing asks to stop. */
  predicate Skips(s: Saved, ofSong: bool, late: bool) {
    ofSong && s.skipping && !Stops(s, late) && s.queue != []
  }

  /**
   A failure: unless it may be skipped nothing changes but the task; else the song counts as
   failed, and a song that has not is started from its beginning, or playback stops.
   */
  ghost predicate FailureHandled(s: State, t: State, skips: bool, history: string, otherwise: Task, faulted: bool) {
    && OnlySection(s, t) && t.saved.queue == s.saved.queue
    && (!skips ==>
       t.saved == s.saved && t.play == s.play && t.failed == s.failed && t.control == Held(otherwise, false))
    && (skips && t.control == Held(Starting(faulted), false) ==>
          t.play == s.play && 0 <= t.saved.index < |t.saved.queue| && t.saved.queue[t.saved.index] !in t.failed
          && t.saved.position == 0 && t.saved.history == History(history, 0.0, false, false))
    && (skips && t.control != Held(Starting(faulted), false) ==>
          && t.play == Stop && t.control == Held(otherwise, false)
          && t.saved == s.saved.(index := t.saved.index, visited := t.saved.visited)
          && (!s.saved.shuffle && Current(s.saved) ==>
                t.saved.index == if s.saved.repeat == All then s.saved.index else |s.saved.queue| - 1))
    && (skips && Current(s.saved) ==>
          && t.failed == s.failed + {s.saved.queue[s.saved.index]}
          && (!s.saved.shuffle ==>
                (t.control == Held(Starting(faulted), false) <==>
                 exists j :: 0 <= j < |s.saved.queue| && s.saved.queue[j] !in t.failed
                             && (s.saved.repeat == All || j > s.saved.index))))
  }

  lemma SkipMeans(s: State, fault: Attempt, late: bool, picks: nat -> nat, history: string, faulted: bool)
    requires InRange(s.saved)
    ensures FailureHandled(s, SkipStep(s, fault, late, picks, history, faulted),
                Skips(s.saved, fault == SongFault, late), history, if faulted then Done else GivingUp, faulted)
  {
    hide Search, Reachable;
    if Current(s.saved) {
      SearchFindsUnfailed(s.saved, s.failed + {Song(s.saved)}, |s.saved.queue|, picks);
      if !s.saved.shuffle {
        SkipReaches(s.saved, s.failed, picks);
        if !Skipped(s.saved, s.failed, picks).0 { SkipInVain(s.saved, s.failed, picks); }
      }
    }
  }

  /** A stream that failed: only a fault of its source is the song's own; an error after it passes. */
  lemma FaultMeans(s: State, fault: Fault, late: bool, picks: nat -> nat, history: string)
    requires Inv(s) && Holds(s, Ended(fault)) && fault != Clean
    ensures FailureHandled(s, Apply(s, Holder(ActOnFault(late, picks, history))),
                Skips(s.saved, fault == Source, late), history, Done, true)
  {
    hide SkipStep, Inv, FailureHandled, Skips;
    InvIs(s);
    SkipMeans(s, AttemptOf(fault), late, picks, history, true);
  }

  /** A start that failed: after a song's end the holder gives up where no skip is possible. */
  lemma StartFailureMeans(s: State, outcome: Attempt, late: bool, picks: nat -> nat, history: string, faulted: bool)
    requires Inv(s) && s.control == Held(Starting(faulted), true) && outcome != Playing
    ensures FailureHandled(s, Apply(s, Holder(SkipOn(outcome, late, picks, history))),
                Skips(s.saved, outcome == SongFault, late), history, if faulted then Done else GivingUp, faulted)
  {
    hide SkipStep, Inv, FailureHandled, Skips;
    InvIs(s);
    SkipMeans(s, outcome, late, picks, history, faulted);
  }

  /** A deadline that passes: wait for the end of the song that plays if that was asked for, else pause now. */
  lemma TickMeans(s: State, late: bool)
    requires Inv(s) && Holds(s, Ticking)
    ensures var t, expired := Apply(s, Holder(Tick(late))), s.saved.deadline > 0 && late;
            && t == s.(saved := t.saved, control := t.control)
            && (!expired ==> t.saved == s.saved && t.control == Held(Done, false))
            && (expired && s.saved.finish && (s.play == Play || s.play == Loading) ==>
                  t.saved == s.saved.(deadline := 0, waiting := true) && t.control == Held(Done, false))
            && (expired && !(s.saved.finish && (s.play == Play || s.play == Loading)) ==>
                  t.saved == s.saved.(deadline := 0, waiting := false) && t.control == Held(Pausing, false))
  {
    hide Inv;
    InvIs(s);
  }

  /**
   Who takes the commands mutex: a command, which is refused once the engine is closed, the loop
   with the end it received or for a tick, or Close, which closes it for good. Letting go of it,
   and receiving an end, change nothing else; who gives up pauses.
   */
  lemma LockMeans(s: State)
    requires Inv(s)
    ensures s.control == Free ==>
              && Apply(s, Holder(LockCommand)) == s.(control := Held(if s.closed then Done else Command, false))
              && (s.taken.Some? ==>
                    Apply(s, Holder(LockEvent)) == s.(taken := None, control := Held(Deciding(s.taken.value), false)))
              && (s.taken.None? ==> Apply(s, Holder(LockTick)) == s.(control := Held(Ticking, false)))
              && (!s.closed ==> Apply(s, Holder(LockClose)) == s.(closed := true, control := Held(Closing, false)))
    ensures s.control.Held? && (s.control.task == Command || s.control.task == Done) ==>
              Apply(s, Holder(Unlock)) == s.(control := Free)
    ensures s.taken.None? && s.end != [] ==> Apply(s, Holder(Take)) == s.(taken := Some(s.end[0]), end := s.end[1..])
    ensures Holds(s, Command) ==>
              forall saved, play, failed | InRange(saved) && (play == s.play || play == Stop || play == Pause) ::
                Apply(s, Holder(Edit(saved, play, failed))) ==
                s.(saved := saved, play := play, failed := failed, control := Held(Command, false))
    ensures Holds(s, GivingUp) ==> Apply(s, Holder(GiveUp)) == s.(play := Pause, control := Held(Done, false))
  {
    hide Inv;
    InvIs(s);
  }

  /** An end is acted on exactly when it is of the current generation and the engine is open. */
  lemma CheckMeans(s: State, e: Event)
    requires Inv(s) && s.control.Held? && s.control.task == Deciding(e)
    ensures var t := Apply(s, Holder(Check));
            if !s.closed && e.generation == s.generation
            then t == s.(acted := s.acted + [e.generation], control := Held(Ending(e.fault), false))
            else t == s.(control := Held(Done, false))
  {
    hide Inv;
    InvIs(s);
  }

  /**
   cancelPlayback: the generation moves on, playback rests, and the worker and the session that
   were registered, no others, are cancelled and closed.
   */
  lemma CancelMeans(s: State)
    requires Inv(s) && MayTurn(s, BeginCancel)
    ensures var t := Apply(s, Turning(BeginCancel));
            && t == s.(generation := s.generation + 1, play := if s.saved.queue == [] then Stop else Pause,
                       cancel := None, session := None, control := Cancelling(s.control.task, s.cancel, s.session))
            && MayTurn(t, EndCancel)
            && var u := Apply(t, Turning(EndCancel));
               && u == t.(workers := u.workers, sessions := u.sessions, control := u.control)
               && u.sessions == (if s.session.Some? then s.sessions - {s.session.value} else s.sessions)
               && u.workers.Keys == s.workers.Keys
               && (forall w | w in s.workers ::
                     u.workers[w] == s.workers[w].(cancelled := s.workers[w].cancelled || s.cancel == Some(w)))
               && u.control.Held? && u.control.cleared
               && (s.control.task.Ending? ==> u.control.task == Ended(s.control.task.fault))
               && (s.control.task == Pausing || s.control.task == Closing ==> u.control.task == Done)
               && (s.control.task == Command || s.control.task.Starting? ==> u.control.task == s.control.task)
  {
    hide Stamped, Exclusive, Registered, Acted, Pending, Inv;
    InvIs(s);
  }

  /** start: the worker it starts is the current one, and carries the session of the play it counts for. */
  lemma LaunchMeans(s: State, w: nat, history: string, from: int)
    requires Inv(s) && MayTurn(s, Launch(w, history, from))
    ensures var t := Apply(s, Turning(Launch(w, history, from)));
            && t == s.(saved := t.saved, cancel := Some(w), play := Loading, control := t.control,
                       workers := s.workers[w := Worker(s.generation, false, Queued, false, t.saved)])
            && t.saved == (if s.saved.history.session != "" then s.saved
                           else s.saved.(history := History(history, 0.0, false, from > 0)))
            && t.control == Held(if s.control.task == Command then Command else Done, false)
  {
    hide Inv;
    InvIs(s);
  }

  /** What a worker does under the playback mutex, up to a song's end. */
  lemma WorkMeans(s: State, w: nat, a: WorkerStep)
    requires w in s.workers && WorkerMay(s, w, a)
    ensures var me, t := s.workers[w], Works(s, w, a);
            && t == s.(workers := t.workers, playback := t.playback, sessions := t.sessions, session := t.session,
                       play := t.play, saved := t.saved, end := t.end)
            && t.workers == s.workers[w := me.(stage := t.workers[w].stage, retried := me.retried || a == Retry)]
            && t.sessions == (match a {
                 case Connect => s.sessions + {w}
                 case Return(_) | CloseByContext => s.sessions - {w}
                 case Register => if me.generation == s.generation then s.sessions else s.sessions - {w}
                 case _ => s.sessions })
            && t.session == (if a == Register && me.generation == s.generation then Some(w) else s.session)
            && t.play == (if a.Progress? && me.generation == s.generation then Play else s.play)
            && t.saved == (if a.Progress? && me.generation == s.generation then a.saved else s.saved)
            && t.end == (if a == Send then s.end + [Event(me.generation, me.stage.fault)] else s.end)
            && t.playback == (match a {
                 case Enter => Some(w)
                 case Abort | Quit | Send | Drop => None
                 case _ => s.playback })
            && t.workers[w].stage == (match a {
                 case Enter | Retry => Opening
                 case Connect => Linked
                 case Register => if me.generation == s.generation then Streaming else Returned(Transport)
                 case FailOpen(fault) => Returned(fault)
                 case Return(fault) => Returned(fault)
                 case Prepare => Ready(me.stage.fault)
                 case Abort | Quit | Send | Drop => Gone
                 case Progress(_) | CloseByContext => me.stage })
  {
    hide ProgressOnly;
  }

  /******* No step is missing *******/

  /** Whoever holds the commands mutex can go on, and whoever wants it gets it once it is free. */
  lemma HolderGoesOn(s: State, late: bool, pick: nat, picks: nat -> nat, history: string, outcome: Attempt)
    requires Inv(s) && outcome != Playing
    ensures s.control == Free ==>
              && Enabled(s, Holder(LockCommand)) && (!s.closed ==> Enabled(s, Holder(LockClose)))
              && Enabled(s, Holder(if s.taken.Some? then LockEvent else LockTick))
    ensures s.control.Cancelling? ==> Enabled(s, Turning(EndCancel))
    ensures s.control.Held? ==>
              Enabled(s, match s.control.task
                         case Command | Done => Holder(Unlock)
                         case Deciding(_) => Holder(Check)
                         case Ending(_) | Pausing | Closing => Turning(BeginCancel)
                         case Ended(fault) =>
                           Holder(if fault == Clean then ActOnEnd(late, pick, history)
                               else ActOnFault(late, picks, history))
                         case Starting(_) => Turning(BeginCancel)
                         case GivingUp => Holder(GiveUp)
                         case Ticking => Holder(Tick(late)))
    ensures s.control.Held? && s.control.task.Starting? && s.control.cleared ==>
              Enabled(s, Holder(SkipOn(outcome, late, picks, history)))
    ensures s.taken.None? && s.end != [] ==> Enabled(s, Holder(Take))
  {
    hide Stamped, Exclusive, Cancelled, Registered, Acted, Pending;
  }

  /** A worker goes on until it has left, except for the playback mutex and a full channel. */
  lemma WorkerGoesOn(s: State, w: nat, fault: Fault)
    requires w in s.workers
    ensures match s.workers[w].stage
            case Queued => s.playback.None? ==> Enabled(s, Working(w, Enter))
            case Opening =>
              && Enabled(s, Working(w, Connect)) && (s.workers[w].cancelled ==> Enabled(s, Working(w, Abort)))
              && (fault != Clean ==> Enabled(s, Working(w, FailOpen(fault))))
            case Linked => Enabled(s, Working(w, Register))
            case Streaming =>
              && Enabled(s, Working(w, Return(fault)))
              && forall t | InRange(t) && t == s.saved.(index := t.index, visited := t.visited, position := t.position,
                                                       history := t.history) :: Enabled(s, Working(w, Progress(t)))
            case Returned(f) =>
              && Enabled(s, Working(w, if s.workers[w].cancelled then Quit else Prepare))
              && (f == Transport && !s.workers[w].retried && !s.workers[w].cancelled ==> Enabled(s, Working(w, Retry)))
            case Ready(_) =>
              (|s.end| < 16 <==> Enabled(s, Working(w, Send))) && (s.closed <==> Enabled(s, Working(w, Drop)))
            case Gone => true
  {}

  /******* Ends on their way *******/

  /** The ends that workers sent in the first n steps. */
  ghost function Sent(states: seq<State>, actions: seq<Action>, n: nat): seq<Event>
    requires |states| == |actions| + 1 && n <= |actions|
  {
    if n == 0 then []
    else
      var s, a := states[n - 1], actions[n - 1];
      Sent(states, actions, n - 1)
      + if a.Working? && a.work == Send && a.worker in s.workers && s.workers[a.worker].stage.Ready?
        then [Event(s.workers[a.worker].generation, s.workers[a.worker].stage.fault)] else []
  }

  /** The ends the loop received in them. */
  ghost function Received(states: seq<State>, actions: seq<Action>, n: nat): seq<Event>
    requires |states| == |actions| + 1 && n <= |actions|
  {
    if n == 0 then []
    else
      Received(states, actions, n - 1)
      + if actions[n - 1] == Holder(Take) && states[n].taken.Some? then [states[n].taken.value] else []
  }

  lemma EndsMove(s: State, a: Action)
    requires InRange(s.saved) && Enabled(s, a)
    ensures a == Holder(Take) ==>
              Apply(s, a).taken.Some? && s.end == [Apply(s, a).taken.value] + Apply(s, a).end
    ensures a.Working? && a.work == Send ==>
              s.workers[a.worker].stage.Ready?
              && Apply(s, a).end == s.end + [Event(s.workers[a.worker].generation, s.workers[a.worker].stage.fault)]
    ensures a != Holder(Take) && !(a.Working? && a.work == Send) ==> Apply(s, a).end == s.end
  {
    match a
    case Working(w, work) => WorkMeans(s, w, work); hide Works;
    case Turning(t) =>
    case Holder(h) =>
      hide SkipStep, EndStep;
      match h {
        case ActOnEnd(late, pick, history) => EndStepFrame(s, late, pick, history);
        case ActOnFault(late, picks, history) =>
            SkipStepFrame(s, AttemptOf(s.control.task.fault), late, picks, history, true);
        case SkipOn(outcome, late, picks, history) =>
            SkipStepFrame(s, outcome, late, picks, history, s.control.task.faulted);
        case _ =>
      }
  }

  /** One step: the oldest end is received, one is sent behind the others, or neither. */
  ghost predicate EndsStep(sent: seq<Event>, received: seq<Event>, end: seq<Event>, sentAfter: seq<Event>,
          receivedAfter: seq<Event>, endAfter: seq<Event>) {
    || (end != [] && sentAfter == sent && receivedAfter == received + [end[0]] && endAfter == end[1..])
    || (exists e: Event :: sentAfter == sent + [e] && receivedAfter == received && endAfter == end + [e])
    || (sentAfter == sent && receivedAfter == received && endAfter == end)
  }

  lemma OneStep(states: seq<State>, actions: seq<Action>, n: nat)
    requires Run(states, actions) && 0 < n <= |actions|
    ensures |states| == |actions| + 1
    ensures EndsStep(Sent(states, actions, n - 1), Received(states, actions, n - 1), states[n - 1].end,
                     Sent(states, actions, n), Received(states, actions, n), states[n].end)
  {
    hide Run, Apply, Enabled, Initial;
    RemoteProtocol.StepOfRun(states, actions, n - 1);
    var s, a, t := states[n - 1], actions[n - 1], states[n];
    EndsMove(s, a);
    var sent, received := Sent(states, actions, n - 1), Received(states, actions, n - 1);
    if a == Holder(Take) {
      assert Sent(states, actions, n) == sent + [] && Received(states, actions, n) == received + [t.taken.value];
    } else if a.Working? && a.work == Send {
      var e := Event(s.workers[a.worker].generation, s.workers[a.worker].stage.fault);
      assert Sent(states, actions, n) == sent + [e] && Received(states, actions, n) == received + [];
    } else {
      assert Sent(states, actions, n) == sent + [] && Received(states, actions, n) == received + [];
    }
  }

  lemma EndsBalance(sent: seq<Event>, received: seq<Event>, end: seq<Event>, sentAfter: seq<Event>,
          receivedAfter: seq<Event>, endAfter: seq<Event>)
    requires sent == received + end && EndsStep(sent, received, end, sentAfter, receivedAfter, endAfter)
    ensures sentAfter == receivedAfter + endAfter
  {}

  /** No end is lost, made up or overtaken: what was sent is what was received, then what is in the channel. */
  lemma {:induction false} EndsArriveInOrder(states: seq<State>, actions: seq<Action>, n: nat)
    requires Run(states, actions) && n <= |actions|
    ensures |states| == |actions| + 1
    ensures Sent(states, actions, n) == Received(states, actions, n) + states[n].end
  {
    assert |states| == |actions| + 1 && states[0].end == [];
    hide Run, Apply, Enabled, Initial, EndsStep;
    if n > 0 {
      hide Sent, Received;
      EndsArriveInOrder(states, actions, n - 1);
      OneStep(states, actions, n);
      EndsBalance(Sent(states, actions, n - 1), Received(states, actions, n - 1), states[n - 1].end,
          Sent(states, actions, n), Received(states, actions, n), states[n].end);
    }
  }
}
