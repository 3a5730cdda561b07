/**
 The playback engine as a state machine (internal/app/remote.go). A step is one critical
 section of `mu`, or one thing done outside it; commands, the event loop and the workers
 interleave freely. A worker is one playback goroutine, stamped with the generation it was
 started in.
 */
module RemoteProtocol {
  import opened Wrappers
  import opened PlayQueue
  import opened QueuePlayer

  datatype PlayState = Stop | Pause | Loading | Play

  /** How a worker's play ended. */
  datatype Fault = Clean | Source | Transport

  datatype Stage =
    | Queued                     // waiting for the playback mutex
    | Opening                    // opening the song and the receiver
    | Linked                     // connected, the session not registered yet
    | Streaming                  // session registered
    | Returned(fault: Fault)     // play returned, its session closed
    | Ready(fault: Fault)        // about to report
    | Gone

  datatype Worker = Worker(generation: nat, cancelled: bool, stage: Stage, retried: bool, began: Saved)

  datatype Event = Event(generation: nat, fault: Fault)

  /** What the holder of the `commands` mutex is doing. */
  datatype Task =
    | Command
    | Deciding(event: Event)     // the loop, with an event it has not checked
    | Ending(fault: Fault)       // the event is current: playback is to be cancelled
    | Ended(fault: Fault)        // cancelled: the end is to be acted on
    | Starting(faulted: bool)    // startWithPolicy, called by the loop after a fault or a clean end
    | GivingUp
    | Ticking
    | Pausing                    // a deadline passed
    | Closing
    | Done

  /** `cleared`: nothing happened since the holder's last cancelPlayback. */
  datatype Control =
    | Free
    | Held(task: Task, cleared: bool)
    | Cancelling(task: Task, victim: Option<nat>, closing: Option<nat>)

  datatype State = State(
    generation: nat, play: PlayState, saved: Saved, failed: set<string>,
    cancel: Option<nat>, session: Option<nat>, closed: bool,
    end: seq<Event>, taken: Option<Event>, control: Control,
    workers: map<nat, Worker>, playback: Option<nat>, sessions: set<nat>,
    acted: seq<nat>)             // generations whose end was acted on, in order

  const END_CAPACITY := 16

  /** Steps of the holder of the `commands` mutex, and of the loop when it holds nothing. */
  datatype HolderStep =
    | LockCommand | LockEvent | LockTick | LockClose | Unlock
    | Take                                                   // the loop receives from the end channel
    | Check
    | Edit(saved: Saved, play: PlayState, failed: set<string>)
    | ActOnEnd(late: bool, pick: nat, history: string)
    | ActOnFault(late: bool, picks: nat -> nat, history: string)
    | SkipOn(outcome: Attempt, late: bool, picks: nat -> nat, history: string)
    | GiveUp
    | Tick(late: bool)

  /** The holder's steps that end or begin a generation. */
  datatype Turn =
    | BeginCancel                            // cancelPlayback's section
    | EndCancel                              // what cancelPlayback does after it
    | Launch(worker: nat, history: string, from: int)  // start's last section; `from`: the position start read

  datatype WorkerStep =
    | Enter | Abort | FailOpen(fault: Fault) | Connect | Register | Progress(saved: Saved) | CloseByContext
    | Return(fault: Fault) | Retry | Quit | Prepare | Send | Drop

  datatype Action = Holder(step: HolderStep) | Turning(turn: Turn) | Working(worker: nat, work: WorkerStep)

  predicate Holds(s: State, t: Task) { s.control.Held? && s.control.task == t }

  predicate HoldsStart(s: State) { s.control.Held? && s.control.task.Starting? }

  /** Progress touches the place in the queue and the history, nothing a command decides. */
  predicate ProgressOnly(s: Saved, t: Saved) {
    InRange(t) && t == s.(index := t.index, visited := t.visited, position := t.position, history := t.history)
  }

  predicate Cancels(t: Task) { t == Command || t.Ending? || t.Starting? || t == Pausing || t == Closing }

  ghost predicate HolderMay(s: State, a: HolderStep) {
    match a
    case LockCommand => s.control == Free
    case LockEvent => s.control == Free && s.taken.Some?
    case LockTick => s.control == Free && s.taken.None?
    case LockClose => s.control == Free && !s.closed
    case Unlock => Holds(s, Command) || Holds(s, Done)
    case Take => s.taken.None? && s.end != []
    case Check => s.control.Held? && s.control.task.Deciding?
    case Edit(saved, play, _) =>
        Holds(s, Command) && InRange(saved) && (play == s.play || play == Stop || play == Pause)
    case ActOnEnd(_, _, _) => Holds(s, Ended(Clean))
    case ActOnFault(_, _, _) => s.control.Held? && s.control.task.Ended? && s.control.task.fault != Clean
    case SkipOn(outcome, _, _, _) => HoldsStart(s) && s.control.cleared && outcome != Playing
    case GiveUp => Holds(s, GivingUp)
    case Tick(_) => Holds(s, Ticking)
  }

  ghost predicate MayTurn(s: State, a: Turn) {
    match a
    case BeginCancel => s.control.Held? && Cancels(s.control.task)
    case EndCancel => s.control.Cancelling?
    case Launch(w, _, _) =>
        (Holds(s, Command) || HoldsStart(s)) && s.control.cleared && w !in s.workers && Current(s.saved)
  }

  ghost predicate WorkerMay(s: State, w: nat, a: WorkerStep)
    requires w in s.workers
  {
    var me := s.workers[w];
    match a
    case Enter => me.stage.Queued? && s.playback.None?
    case Abort => me.stage.Opening? && me.cancelled
    case FailOpen(fault) => me.stage.Opening? && fault != Clean
    case Connect => me.stage.Opening?
    case Register => me.stage.Linked?
    case Progress(saved) => me.stage.Streaming? && ProgressOnly(s.saved, saved)
    case CloseByContext => (me.stage.Linked? || me.stage.Streaming?) && me.cancelled
    case Return(_) => me.stage.Streaming?
    case Retry => me.stage == Returned(Transport) && !me.retried && !me.cancelled
    case Quit => me.stage.Returned? && me.cancelled
    case Prepare => me.stage.Returned? && !me.cancelled
    case Send => me.stage.Ready? && |s.end| < END_CAPACITY
    case Drop => me.stage.Ready? && s.closed
  }

  ghost predicate Enabled(s: State, a: Action) {
    match a
    case Holder(h) => HolderMay(s, h)
    case Turning(t) => MayTurn(s, t)
    case Working(w, work) => w in s.workers && WorkerMay(s, w, work)
  }

  function Staged(s: State, w: nat, stage: Stage): State
    requires w in s.workers
  {
    s.(workers := s.workers[w := s.workers[w].(stage := stage)])
  }

  function Tasked(s: State, t: Task): State { s.(control := Held(t, false)) }

  /** cancelPlayback's critical section. */
  function CancelSection(s: State, t: Task): State {
    s.(generation := s.generation + 1, cancel := None, session := None,
       play := if s.saved.queue != [] then Pause else Stop,
       control := Cancelling(t, s.cancel, s.session))
  }

  function AfterCancel(t: Task): Task {
    match t
    case Ending(fault) => Ended(fault)
    case Pausing => Done
    case Closing => Done
    case _ => t
  }

  function CancelledIn(workers: map<nat, Worker>, victim: Option<nat>): map<nat, Worker> {
    match victim
    case Some(w) => if w in workers then workers[w := workers[w].(cancelled := true)] else workers
    case None => workers
  }

  /** The cancel function and session.Close, called once the section is over. */
  function CancelOutside(s: State): State
    requires s.control.Cancelling?
  {
    var Cancelling(t, victim, closing) := s.control;
    s.(workers := CancelledIn(s.workers, victim),
       sessions := match closing { case Some(w) => s.sessions - {w} case None => s.sessions },
       control := Held(AfterCancel(t), true))
  }

  function LaunchStep(s: State, w: nat, history: string, from: int): State
    requires s.control.Held?
  {
    var saved := if s.saved.history.session == "" then ResetHistory(s.saved, from, history) else s.saved;
    s.(saved := saved, cancel := Some(w), play := Loading,
       workers := s.workers[w := Worker(s.generation, false, Queued, false, saved)],
       control := Held(if s.control.task.Starting? then Done else s.control.task, false))
  }

  /** The loop's section for a song that played to its end. */
  function EndStep(s: State, late: bool, pick: nat, history: string): State
    requires InRange(s.saved)
  {
    var expired := s.saved.deadline > 0 && late;
    var due := if expired then s.saved.(deadline := 0, waiting := true) else s.saved;
    var saved := ResetHistory(due.(position := 0), 0, history);
    var t := s.(failed := {});
    if saved.waiting then Tasked(t.(saved := saved.(waiting := false), play := Pause), Done)
    else
      match Advance(saved, false, pick)
      case Some(next) => Tasked(t.(saved := next), Starting(false))
      case None => Tasked(t.(saved := saved, play := Stop), Done)
  }

  /** skipFailed, and where the holder goes from there; the loop lets an error after a fault pass. */
  function SkipStep(s: State, fault: Attempt, late: bool, picks: nat -> nat, history: string, faulted: bool): State
    requires InRange(s.saved)
  {
    var otherwise := if faulted then Done else GivingUp;
    if !MaySkip(s.saved, fault, late) then Tasked(s, otherwise)
    else
      var failed, found := s.failed + {Song(s.saved)}, Skipped(s.saved, s.failed, picks);
      if found.0 then Tasked(s.(failed := failed, saved := ResetHistory(found.1, 0, history).(position := 0)),
          Starting(faulted))
      else Tasked(s.(failed := failed, saved := found.1, play := Stop), otherwise)
  }

  function TickStep(s: State, late: bool): State {
    if !(s.saved.deadline > 0 && late) then Tasked(s, Done)
    else if s.saved.finish && (s.play == Play || s.play == Loading)
        then Tasked(s.(saved := s.saved.(deadline := 0, waiting := true)), Done)
    else Tasked(s.(saved := s.saved.(deadline := 0, waiting := false)), Pausing)
  }

  function HolderDoes(s: State, a: HolderStep): State
    requires HolderMay(s, a) && InRange(s.saved)
  {
    match a
    case LockCommand => Tasked(s, if s.closed then Done else Command)
    case LockEvent => Tasked(s.(taken := None), Deciding(s.taken.value))
    case LockTick => Tasked(s, Ticking)
    case LockClose => Tasked(s.(closed := true), Closing)
    case Unlock => s.(control := Free)
    case Take => s.(taken := Some(s.end[0]), end := s.end[1..])
    case Check => CheckStep(s, s.control.task.event)
    case Edit(saved, play, failed) => Tasked(s.(saved := saved, play := play, failed := failed), Command)
    case ActOnEnd(late, pick, history) => EndStep(s, late, pick, history)
    case ActOnFault(late, picks, history) => SkipStep(s, AttemptOf(s.control.task.fault), late, picks, history, true)
    case SkipOn(outcome, late, picks, history) => SkipStep(s, outcome, late, picks, history, s.control.task.faulted)
    case GiveUp => Tasked(s.(play := Pause), Done)
    case Tick(late) => TickStep(s, late)
  }

  /** Only a song's own fault can be skipped. */
  function AttemptOf(f: Fault): Attempt { if f == Source then SongFault else OtherFault }

  /** The loop acts on an event only while nothing has superseded its generation. */
  function CheckStep(s: State, e: Event): State {
    if !s.closed && e.generation == s.generation
    then Tasked(s.(acted := s.acted + [e.generation]), Ending(e.fault))
    else Tasked(s, Done)
  }

  function Turns(s: State, a: Turn): State
    requires MayTurn(s, a)
  {
    match a
    case BeginCancel => CancelSection(s, s.control.task)
    case EndCancel => CancelOutside(s)
    case Launch(w, history, from) => LaunchStep(s, w, history, from)
  }

  function Works(s: State, w: nat, a: WorkerStep): State
    requires w in s.workers && WorkerMay(s, w, a)
  {
    var me := s.workers[w];
    match a
    case Enter => Staged(s, w, Opening).(playback := Some(w))
    case Abort => Staged(s, w, Gone).(playback := None)
    case FailOpen(fault) => Staged(s, w, Returned(fault))
    case Connect => Staged(s, w, Linked).(sessions := s.sessions + {w})
    case Register =>
      if me.generation == s.generation then Staged(s, w, Streaming).(session := Some(w))
      else Staged(s, w, Returned(Transport)).(sessions := s.sessions - {w})
    case Progress(saved) => if me.generation == s.generation then s.(play := Play, saved := saved) else s
    case CloseByContext => s.(sessions := s.sessions - {w})
    case Return(fault) => Staged(s, w, Returned(fault)).(sessions := s.sessions - {w})
    case Retry => s.(workers := s.workers[w := me.(stage := Opening, retried := true)])
    case Quit => Staged(s, w, Gone).(playback := None)
    case Prepare => Staged(s, w, Ready(me.stage.fault))
    case Send => Staged(s, w, Gone).(playback := None, end := s.end + [Event(me.generation, me.stage.fault)])
    case Drop => Staged(s, w, Gone).(playback := None)
  }

  ghost function Apply(s: State, a: Action): State
    requires Enabled(s, a) && InRange(s.saved)
  {
    match a
    case Holder(h) => HolderDoes(s, h)
    case Turning(t) => Turns(s, t)
    case Working(w, work) => Works(s, w, work)
  }

  /******* The invariant *******/

  /** Between cancelPlayback's section and whatever the holder does next. */
  predicate Reserved(c: Control) { c.Cancelling? || (c.Held? && c.cleared) }

  /** Generations tell workers apart; a fresh generation has none yet. */
  ghost predicate Stamped(workers: map<nat, Worker>, generation: nat, c: Control) {
    && (forall w | w in workers :: workers[w].generation <= generation)
    && (Reserved(c) ==> forall w | w in workers :: workers[w].generation < generation)
    && (forall v, w | v in workers && w in workers && v != w :: workers[v].generation != workers[w].generation)
  }

  predicate Inside(stage: Stage) { !stage.Queued? && !stage.Gone? }

  /** One worker at a time is inside the playback mutex, and only it has a receiver session. */
  ghost predicate Exclusive(workers: map<nat, Worker>, playback: Option<nat>, sessions: set<nat>) {
    && (forall w | w in workers && Inside(workers[w].stage) :: playback == Some(w))
    && (playback.Some? ==> playback.value in workers && Inside(workers[playback.value].stage))
    && (forall w | w in sessions :: w in workers && (workers[w].stage.Linked? || workers[w].stage.Streaming?))
  }

  /** Every worker is cancelled but the current one, and the one being cancelled. */
  ghost predicate Cancelled(workers: map<nat, Worker>, generation: nat, cancel: Option<nat>, c: Control) {
    var victim := if c.Cancelling? then c.victim else None;
    && (Reserved(c) ==> cancel.None?)
    && (forall w | w in workers && !workers[w].cancelled :: cancel == Some(w) || victim == Some(w))
    && (cancel.Some? ==> cancel.value in workers && workers[cancel.value].generation == generation)
    && (victim.Some? ==> victim.value in workers && workers[victim.value].generation < generation)
  }

  /** The registered session is the current worker's. */
  ghost predicate Registered(workers: map<nat, Worker>, generation: nat, session: Option<nat>) {
    session.Some? ==> session.value in workers && workers[session.value].generation == generation
  }

  /** The generation of a worker that has left. */
  ghost predicate Reported(workers: map<nat, Worker>, g: nat) {
    exists w :: w in workers && workers[w].generation == g && workers[w].stage.Gone?
  }

  ghost predicate Pending(s: State) {
    && (forall e | e in s.end :: Reported(s.workers, e.generation))
    && (s.taken.Some? ==> Reported(s.workers, s.taken.value.generation))
    && (s.control.Held? && s.control.task.Deciding? ==> Reported(s.workers, s.control.task.event.generation))
  }

  predicate IsEnding(c: Control) { c.Held? && c.task.Ending? }

  /** Ends are acted on in the order of their generations, none twice. */
  ghost predicate Acted(workers: map<nat, Worker>, generation: nat, acted: seq<nat>, c: Control) {
    && (forall i, j | 0 <= i < j < |acted| :: acted[i] < acted[j])
    && (forall g | g in acted :: g <= generation && Reported(workers, g))
    && (!IsEnding(c) ==> forall g | g in acted :: g < generation)
  }

  /** Only some tasks cancel, and an end is acted on right after its cancellation. */
  predicate Fits(c: Control) {
    && (c.Cancelling? ==> Cancels(c.task))
    && (c.Held? && c.task.Ended? ==> c.cleared)
  }

  /** Nothing plays between a cancellation and the holder's next step. */
  predicate Rests(play: PlayState, c: Control) { Reserved(c) ==> play == Pause || play == Stop }

  ghost predicate Inv(s: State) {
    && InRange(s.saved)
    && Fits(s.control)
    && Stamped(s.workers, s.generation, s.control)
    && Exclusive(s.workers, s.playback, s.sessions)
    && Cancelled(s.workers, s.generation, s.cancel, s.control)
    && Registered(s.workers, s.generation, s.session)
    && Rests(s.play, s.control)
    && Pending(s)
    && Acted(s.workers, s.generation, s.acted, s.control)
  }

  /** What a step may do to the workers: nothing, one moves on, one is started. */
  ghost predicate WorkersMove(s: State, t: State) {
    && s.workers.Keys <= t.workers.Keys
    && (forall w | w in s.workers ::
          t.workers[w].generation == s.workers[w].generation && (s.workers[w].stage.Gone? ==> t.workers[w].stage.Gone?)
          && (s.workers[w].cancelled ==> t.workers[w].cancelled))
    && s.generation <= t.generation
  }

  /******* What steps leave alone *******/

  ghost predicate OnlyStage(before: map<nat, Worker>, after: map<nat, Worker>, w: nat) {
    && w in before && w in after && !before[w].stage.Gone?
    && after == before[w := before[w].(stage := after[w].stage, retried := after[w].retried)]
  }

  ghost predicate SameButStage(s: State, t: State, w: nat) {
    && t.generation == s.generation && t.cancel == s.cancel && t.control == s.control && t.closed == s.closed
    && t.acted == s.acted && t.taken == s.taken && t.failed == s.failed && OnlyStage(s.workers, t.workers, w)
  }

  lemma WorkFrame(s: State, w: nat, a: WorkerStep)
    requires w in s.workers && WorkerMay(s, w, a)
    ensures SameButStage(s, Works(s, w, a), w)
  {
    hide ProgressOnly;
    assert s.workers == s.workers[w := s.workers[w].(stage := s.workers[w].stage, retried := s.workers[w].retried)];
  }

  ghost predicate SameWorkers(s: State, t: State) {
    && t.generation == s.generation && t.cancel == s.cancel && t.session == s.session
    && t.workers == s.workers && t.playback == s.playback && t.sessions == s.sessions
    && (Reserved(t.control) ==> t.control == s.control)
  }

  lemma SkipStepFrame(s: State, fault: Attempt, late: bool, picks: nat -> nat, history: string, faulted: bool)
    requires InRange(s.saved)
    ensures var t := SkipStep(s, fault, late, picks, history, faulted);
            && SameWorkers(s, t) && t.acted == s.acted && t.end == s.end && t.taken == s.taken && t.closed == s.closed
            && InRange(t.saved) && (t.control == Held(if faulted then Done else GivingUp, false)
               || t.control == Held(Starting(faulted), false))
  {
    if Current(s.saved) { SearchFindsUnfailed(s.saved, s.failed + {Song(s.saved)}, |s.saved.queue|, picks); }
    hide Search;
  }

  lemma EndStepFrame(s: State, late: bool, pick: nat, history: string)
    requires InRange(s.saved)
    ensures var t := EndStep(s, late, pick, history);
            && SameWorkers(s, t) && t.acted == s.acted && t.end == s.end && t.taken == s.taken && t.closed == s.closed
            && InRange(t.saved) && (t.control == Held(Done, false) || t.control == Held(Starting(false), false))
  {
    hide Advance;
    var due := if s.saved.deadline > 0 && late then s.saved.(deadline := 0, waiting := true) else s.saved;
    AdvanceKeeps(ResetHistory(due.(position := 0), 0, history), false, pick);
  }

  lemma HolderFrame(s: State, a: HolderStep)
    requires HolderMay(s, a) && InRange(s.saved)
    ensures SameWorkers(s, HolderDoes(s, a)) && InRange(HolderDoes(s, a).saved)
  {
    hide SkipStep, EndStep;
    match a
    case ActOnEnd(late, pick, history) => EndStepFrame(s, late, pick, history);
    case ActOnFault(late, picks, history) =>
        SkipStepFrame(s, AttemptOf(s.control.task.fault), late, picks, history, true);
    case SkipOn(outcome, late, picks, history) =>
        SkipStepFrame(s, outcome, late, picks, history, s.control.task.faulted);
    case _ =>
  }

  /** Receiving from the channel needs no lock; the holder's other steps end outside a cancellation. */
  lemma HolderControl(s: State, h: HolderStep)
    requires HolderMay(s, h) && InRange(s.saved)
    ensures h == Take ==> HolderDoes(s, h).control == s.control && HolderDoes(s, h).play == s.play
    ensures h != Take ==>
            !s.control.Cancelling?
            && (HolderDoes(s, h).control == Free
                || exists t: Task :: !t.Ended? && HolderDoes(s, h).control == Held(t, false))
  {
    hide SkipStep, EndStep;
    match h
    case ActOnEnd(late, pick, history) => EndStepFrame(s, late, pick, history);
    case ActOnFault(late, picks, history) =>
        SkipStepFrame(s, AttemptOf(s.control.task.fault), late, picks, history, true);
    case SkipOn(outcome, late, picks, history) =>
        SkipStepFrame(s, outcome, late, picks, history, s.control.task.faulted);
    case _ =>
  }

  lemma StepMovesWorkers(s: State, a: Action)
    requires InRange(s.saved) && Enabled(s, a)
    ensures WorkersMove(s, Apply(s, a))
  {
    match a
    case Holder(h) => HolderFrame(s, h); hide HolderDoes, HolderMay;
    case Working(w, work) => WorkFrame(s, w, work); hide Works, WorkerMay;
    case Turning(t) => hide ResetHistory;
  }

  lemma StepKeepsIndex(s: State, a: Action)
    requires InRange(s.saved) && Enabled(s, a) && Fits(s.control)
    ensures InRange(Apply(s, a).saved) && Fits(Apply(s, a).control)
  {
    match a
    case Holder(h) => HolderFrame(s, h); HolderControl(s, h); hide HolderDoes, HolderMay;
    case Working(w, work) => WorkFrame(s, w, work);
    case Turning(t) =>
  }

  lemma StepKeepsStamps(s: State, a: Action)
    requires InRange(s.saved) && Stamped(s.workers, s.generation, s.control) && Enabled(s, a)
    ensures Stamped(Apply(s, a).workers, Apply(s, a).generation, Apply(s, a).control)
  {
    hide HolderDoes, HolderMay, Works, WorkerMay, ResetHistory;
    match a
    case Holder(h) => HolderFrame(s, h);
    case Working(w, work) => WorkFrame(s, w, work);
    case Turning(t) =>
  }

  lemma StepKeepsExclusion(s: State, a: Action)
    requires InRange(s.saved) && Exclusive(s.workers, s.playback, s.sessions) && Enabled(s, a)
    ensures Exclusive(Apply(s, a).workers, Apply(s, a).playback, Apply(s, a).sessions)
  {
    match a
    case Holder(h) => HolderFrame(s, h); hide HolderDoes, HolderMay;
    case Working(w, work) => WorkKeepsExclusion(s, w, work); hide Works, WorkerMay;
    case Turning(t) => hide ResetHistory;
  }

  /** How a worker's step moves it through the mutex and its session. */
  ghost predicate Moved(s: State, w: nat, a: WorkerStep, t: State)
    requires w in s.workers && w in t.workers
  {
    && t.playback == (if a.Enter? then Some(w) else if t.workers[w].stage.Gone? then None else s.playback)
    && (t.sessions == s.sessions || t.sessions == s.sessions - {w} || (a.Connect? && t.sessions == s.sessions + {w}))
    && (w in t.sessions ==> t.workers[w].stage.Linked? || t.workers[w].stage.Streaming?)
    && (Inside(s.workers[w].stage) || (a.Enter? && s.playback.None?))
    && (Inside(t.workers[w].stage) || (t.workers[w].stage.Gone? && !a.Enter?))
  }

  lemma WorkMoves(s: State, w: nat, a: WorkerStep)
    requires w in s.workers && WorkerMay(s, w, a)
    requires w in s.sessions ==> s.workers[w].stage.Linked? || s.workers[w].stage.Streaming?
    ensures w in Works(s, w, a).workers && Moved(s, w, a, Works(s, w, a))
  {
    hide ProgressOnly;
  }

  lemma WorkKeepsExclusion(s: State, w: nat, a: WorkerStep)
    requires w in s.workers && WorkerMay(s, w, a) && Exclusive(s.workers, s.playback, s.sessions)
    ensures Exclusive(Works(s, w, a).workers, Works(s, w, a).playback, Works(s, w, a).sessions)
  {
    hide Works, WorkerMay;
    WorkFrame(s, w, a);
    WorkMoves(s, w, a);
    WorkedExclusively(s, w, a, Works(s, w, a));
  }

  lemma WorkedExclusively(s: State, w: nat, a: WorkerStep, t: State)
    requires SameButStage(s, t, w) && Exclusive(s.workers, s.playback, s.sessions)
    requires Moved(s, w, a, t)
    ensures Exclusive(t.workers, t.playback, t.sessions)
  {}

  lemma StepKeepsCancelled(s: State, a: Action)
    requires InRange(s.saved) && Enabled(s, a) && Stamped(s.workers, s.generation, s.control)
    requires Cancelled(s.workers, s.generation, s.cancel, s.control)
    ensures Cancelled(Apply(s, a).workers, Apply(s, a).generation, Apply(s, a).cancel, Apply(s, a).control)
  {
    match a
    case Holder(h) => HolderFrame(s, h); HolderControl(s, h); hide HolderDoes, HolderMay;
    case Working(w, work) => WorkFrame(s, w, work); hide Works, WorkerMay;
    case Turning(t) => hide ResetHistory;
  }

  lemma StepKeepsRegistered(s: State, a: Action)
    requires InRange(s.saved) && Enabled(s, a) && Registered(s.workers, s.generation, s.session)
    ensures Registered(Apply(s, a).workers, Apply(s, a).generation, Apply(s, a).session)
  {
    match a
    case Holder(h) => HolderFrame(s, h); hide HolderDoes, HolderMay;
    case Working(w, work) =>
      hide ProgressOnly;
      WorkFrame(s, w, work);
      var t := Works(s, w, work);
      assert t.session == s.session || (t.session == Some(w) && s.workers[w].generation == s.generation);
      hide Works, WorkerMay;
    case Turning(t) => hide ResetHistory;
  }

  /** What a listener sees of a state: the saved queue and place, the play state, the session, the failures. */
  ghost predicate SameView(s: State, t: State) {
    t.saved == s.saved && t.play == s.play && t.session == s.session && t.failed == s.failed
  }

  lemma SupersededStep(s: State, w: nat, a: WorkerStep)
    requires w in s.workers && WorkerMay(s, w, a) && s.workers[w].generation != s.generation
    ensures SameView(s, Works(s, w, a))
  {}

  lemma StepKeepsRest(s: State, a: Action)
    requires InRange(s.saved) && Enabled(s, a) && Rests(s.play, s.control)
             && Stamped(s.workers, s.generation, s.control)
    ensures Rests(Apply(s, a).play, Apply(s, a).control)
  {
    match a
    case Holder(h) => HolderFrame(s, h); HolderControl(s, h); hide HolderDoes, HolderMay;
    case Working(w, work) =>
      WorkFrame(s, w, work);
      if Reserved(s.control) { SupersededStep(s, w, work); }
      hide Works, WorkerMay;
    case Turning(t) => hide ResetHistory;
  }

  lemma StillReported(s: State, t: State)
    requires WorkersMove(s, t)
    ensures forall g | Reported(s.workers, g) :: Reported(t.workers, g)
  {
    forall g | Reported(s.workers, g) ensures Reported(t.workers, g) {
      var w :| w in s.workers && s.workers[w].generation == g && s.workers[w].stage.Gone?;
      assert w in t.workers;
    }
  }

  lemma StepKeepsPending(s: State, a: Action)
    requires InRange(s.saved) && Enabled(s, a) && Pending(s) && Fits(s.control)
    ensures Pending(Apply(s, a))
  {
    StepMovesWorkers(s, a);
    StillReported(s, Apply(s, a));
    hide WorkersMove;
    match a
    case Holder(h) => HolderKeepsPending(s, h);
    case Working(w, work) => WorkKeepsPending(s, w, work); hide Works, WorkerMay;
    case Turning(t) => hide ResetHistory, Reported;
  }

  lemma WorkKeepsPending(s: State, w: nat, a: WorkerStep)
    requires w in s.workers && WorkerMay(s, w, a) && Pending(s)
    requires forall g | Reported(s.workers, g) :: Reported(Works(s, w, a).workers, g)
    ensures Pending(Works(s, w, a))
  {
    hide ProgressOnly;
    WorkFrame(s, w, a);
    var t := Works(s, w, a);
    assert a != Send ==> t.end == s.end;
    assert a == Send ==>
        t.workers[w].stage.Gone? && t.end == s.end + [Event(s.workers[w].generation, s.workers[w].stage.fault)];
    hide Works, WorkerMay;
    assert a == Send ==> Reported(t.workers, s.workers[w].generation) by { assert w in t.workers; }
    hide Reported, SameButStage;
  }

  lemma HolderKeepsPending(s: State, h: HolderStep)
    requires InRange(s.saved) && HolderMay(s, h) && Pending(s)
    ensures Pending(HolderDoes(s, h))
  {
    hide SkipStep, EndStep, Reported;
    match h
    case ActOnEnd(late, pick, history) => EndStepFrame(s, late, pick, history);
    case ActOnFault(late, picks, history) =>
        SkipStepFrame(s, AttemptOf(s.control.task.fault), late, picks, history, true);
    case SkipOn(outcome, late, picks, history) =>
        SkipStepFrame(s, outcome, late, picks, history, s.control.task.faulted);
    case _ =>
  }

  lemma StepKeepsActed(s: State, a: Action)
    requires InRange(s.saved) && Enabled(s, a) && Pending(s) && Acted(s.workers, s.generation, s.acted, s.control)
    ensures Acted(Apply(s, a).workers, Apply(s, a).generation, Apply(s, a).acted, Apply(s, a).control)
  {
    StepMovesWorkers(s, a);
    StillReported(s, Apply(s, a));
    hide WorkersMove, Reported;
    match a
    case Holder(h) => HolderKeepsActed(s, h);
    case Working(w, work) => WorkFrame(s, w, work); hide Works, WorkerMay;
    case Turning(t) => hide ResetHistory;
  }

  lemma HolderKeepsActed(s: State, h: HolderStep)
    requires InRange(s.saved) && HolderMay(s, h) && Pending(s) && Acted(s.workers, s.generation, s.acted, s.control)
    ensures Acted(HolderDoes(s, h).workers, HolderDoes(s, h).generation, HolderDoes(s, h).acted,
            HolderDoes(s, h).control)
  {
    hide SkipStep, EndStep, Reported;
    match h
    case ActOnEnd(late, pick, history) => EndStepFrame(s, late, pick, history);
    case ActOnFault(late, picks, history) =>
        SkipStepFrame(s, AttemptOf(s.control.task.fault), late, picks, history, true);
    case SkipOn(outcome, late, picks, history) =>
        SkipStepFrame(s, outcome, late, picks, history, s.control.task.faulted);
    case Check =>
      forall i | 0 <= i < |s.acted| ensures s.acted[i] < s.generation { assert s.acted[i] in s.acted; }
    case _ =>
  }

  /** Every step keeps the invariant. */
  lemma StepKeepsInv(s: State, a: Action)
    requires Inv(s) && Enabled(s, a)
    ensures Inv(Apply(s, a))
  {
    StepKeepsIndex(s, a);
    StepKeepsStamps(s, a);
    StepKeepsExclusion(s, a);
    StepKeepsCancelled(s, a);
    StepKeepsRegistered(s, a);
    StepKeepsRest(s, a);
    StepKeepsPending(s, a);
    StepKeepsActed(s, a);
    hide Apply, Enabled, Stamped, Exclusive, Cancelled, Registered, Pending, Acted, InRange, Rests;
  }

  /******* Runs *******/

  /** A new engine: nothing plays and nobody is at work. */
  ghost predicate Initial(s: State) {
    && InRange(s.saved) && s.cancel.None? && s.session.None? && !s.closed && s.end == [] && s.taken.None?
    && s.control == Free && s.workers == map[] && s.playback.None? && s.sessions == {} && s.acted == []
  }

  ghost predicate StepAt(states: seq<State>, actions: seq<Action>, i: nat)
    requires i < |actions| && |states| == |actions| + 1
  {
    InRange(states[i].saved) && Enabled(states[i], actions[i]) && states[i + 1] == Apply(states[i], actions[i])
  }

  ghost predicate Run(states: seq<State>, actions: seq<Action>) {
    && |states| == |actions| + 1 && Initial(states[0])
    && (forall i | 0 <= i < |actions| :: StepAt(states, actions, i))
  }

  lemma StepOfRun(states: seq<State>, actions: seq<Action>, i: nat)
    requires Run(states, actions) && i < |actions|
    ensures |states| == |actions| + 1 && InRange(states[i].saved) && Enabled(states[i], actions[i])
            && states[i + 1] == Apply(states[i], actions[i])
  {
    assert StepAt(states, actions, i);
  }

  lemma InitialInv(s: State)
    requires Initial(s)
    ensures Inv(s)
  {}

  lemma {:induction false} RunKeepsInv(states: seq<State>, actions: seq<Action>, i: nat)
    requires Run(states, actions) && i < |states|
    ensures Inv(states[i])
  {
    assert |states| == |actions| + 1 && Initial(states[0]);
    hide *;
    if i > 0 {
      RunKeepsInv(states, actions, i - 1);
      StepOfRun(states, actions, i - 1);
      StepKeepsInv(states[i - 1], actions[i - 1]);
    } else {
      InitialInv(states[0]);
    }
  }

  lemma AtMostOne(a: set<nat>)
    requires forall v, w | v in a && w in a :: v == w
    ensures |a| <= 1
  {
    if a != {} {
      var v :| v in a;
      assert a == {v};
    }
  }

  /** In every interleaving at most one receiver session is open. */
  lemma OneReceiver(states: seq<State>, actions: seq<Action>, i: nat)
    requires Run(states, actions) && i < |states|
    ensures |states[i].sessions| <= 1
  {
    RunKeepsInv(states, actions, i);
    var s := states[i];
    forall v, w | v in s.sessions && w in s.sessions ensures v == w {
      assert Inside(s.workers[v].stage) && Inside(s.workers[w].stage);
    }
    AtMostOne(s.sessions);
  }

  /** A worker that may still play is the current one, or is about to be cancelled. */
  lemma OneLiveWorker(states: seq<State>, actions: seq<Action>, i: nat, w: nat)
    requires Run(states, actions) && i < |states|
    requires w in states[i].workers && !states[i].workers[w].cancelled
    ensures if states[i].control.Cancelling? && states[i].control.victim == Some(w)
            then states[i].workers[w].generation < states[i].generation
            else states[i].cancel == Some(w) && states[i].workers[w].generation == states[i].generation
  {
    RunKeepsInv(states, actions, i);
  }

  lemma MovesChain(s: State, t: State, u: State)
    requires WorkersMove(s, t) && WorkersMove(t, u)
    ensures WorkersMove(s, u)
  {}

  lemma StepOfRunMoves(states: seq<State>, actions: seq<Action>, i: nat)
    requires Run(states, actions) && i < |actions|
    ensures i + 1 < |states| && WorkersMove(states[i], states[i + 1])
  {
    StepOfRun(states, actions, i);
    hide *;
    StepMovesWorkers(states[i], actions[i]);
  }

  lemma {:induction false} WorkersStay(states: seq<State>, actions: seq<Action>, i: nat, j: nat)
    requires Run(states, actions) && i <= j < |states|
    ensures WorkersMove(states[i], states[j])
    decreases j
  {
    assert |states| == |actions| + 1;
    hide *;
    if i < j {
      WorkersStay(states, actions, i, j - 1);
      StepOfRunMoves(states, actions, j - 1);
      MovesChain(states[i], states[j - 1], states[j]);
    } else {
      MovesNowhere(states[i]);
    }
  }

  lemma MovesNowhere(s: State)
    ensures WorkersMove(s, s)
  {}

  /** Once superseded, a worker never again changes the saved state, the play state or the session. */
  lemma SupersededIsSilent(states: seq<State>, actions: seq<Action>, w: nat, i: nat, j: nat)
    requires Run(states, actions) && i <= j < |actions|
    requires w in states[i].workers && states[i].workers[w].generation < states[i].generation
    requires actions[j].Working? && actions[j].worker == w
    ensures SameView(states[j], states[j + 1])
  {
    WorkersStay(states, actions, i, j);
    StepOfRun(states, actions, j);
    SupersededStep(states[j], w, actions[j].work);
  }

  /** Each worker's end is acted on at most once, and only while its generation is current. */
  lemma EndsActedOnce(states: seq<State>, actions: seq<Action>, i: nat)
    requires Run(states, actions) && i < |states|
    ensures forall j, k | 0 <= j < k < |states[i].acted| :: states[i].acted[j] != states[i].acted[k]
    ensures forall g | g in states[i].acted :: Reported(states[i].workers, g)
    ensures forall v, w | v in states[i].workers && w in states[i].workers && v != w ::
            states[i].workers[v].generation != states[i].workers[w].generation
    ensures i < |actions| && |states[i + 1].acted| > |states[i].acted| ==>
              actions[i] == Holder(Check) && states[i + 1].acted == states[i].acted + [states[i].generation]
  {
    RunKeepsInv(states, actions, i);
    if i < |actions| {
      StepOfRun(states, actions, i);
      ActedOnlyByCheck(states[i], actions[i]);
    }
  }

  lemma ActedOnlyByCheck(s: State, a: Action)
    requires InRange(s.saved) && Enabled(s, a)
    ensures Apply(s, a).acted == s.acted || (a == Holder(Check) && Apply(s, a).acted == s.acted + [s.generation])
  {
    match a
    case Working(w, work) => WorkFrame(s, w, work);
    case Turning(t) =>
    case Holder(h) =>
      hide SkipStep, EndStep;
      match h {
        case ActOnEnd(late, pick, history) => EndStepFrame(s, late, pick, history);
        case ActOnFault(late, picks, history) =>
            SkipStepFrame(s, AttemptOf(s.control.task.fault), late, picks, history, true);
        case SkipOn(outcome, late, picks, history) =>
            SkipStepFrame(s, outcome, late, picks, history, s.control.task.faulted);
        case _ =>
      }
  }

  /******* Quiet *******/

  /** Tasks that cannot start a song. */
  predicate Harmless(t: Task) { t == Done || t == Ticking || t == Pausing || t == Closing || t.Deciding? }

  predicate HarmlessControl(c: Control) {
    match c
    case Free => true
    case Held(t, _) => Harmless(t)
    case Cancelling(t, _, _) => Harmless(t)
  }

  /** Nothing plays, nothing is registered, no worker is current, and nobody is about to start one. */
  ghost predicate Quiet(s: State) {
    && s.play != Play && s.play != Loading && s.session.None?
    && (forall w | w in s.workers :: s.workers[w].generation < s.generation)
    && HarmlessControl(s.control)
  }

  /** No step but a command's breaks the quiet, and none at all once the engine is closed. */
  lemma QuietStep(s: State, a: Action)
    requires Inv(s) && Quiet(s) && Enabled(s, a) && (a == Holder(LockCommand) ==> s.closed)
    ensures Quiet(Apply(s, a)) && Apply(s, a).workers.Keys == s.workers.Keys && SameSong(s, Apply(s, a))
  {
    hide Stamped, Exclusive, Cancelled, Registered, Acted, Pending, InRange;
    match a
    case Working(w, work) => WorkFrame(s, w, work); SupersededStep(s, w, work); hide Works, WorkerMay, Inv;
    case Turning(t) => hide Inv;
    case Holder(h) => QuietHolderStep(s, h); hide HolderDoes, HolderMay, Inv;
  }

  /** The same queue and place in it. */
  ghost predicate SameSong(s: State, t: State) {
    t.saved == s.saved.(deadline := t.saved.deadline, waiting := t.saved.waiting)
  }

  lemma StaleEvent(s: State, e: Event)
    requires Reported(s.workers, e.generation) && forall w | w in s.workers :: s.workers[w].generation < s.generation
    ensures e.generation != s.generation
  {}

  lemma QuietHolderStep(s: State, h: HolderStep)
    requires Inv(s) && Quiet(s) && HolderMay(s, h) && (h == LockCommand ==> s.closed)
    ensures Quiet(HolderDoes(s, h)) && HolderDoes(s, h).workers == s.workers && SameSong(s, HolderDoes(s, h))
  {
    hide SkipStep, EndStep, Inv, Reported;
    InvIs(s);
    if h == Check { StaleEvent(s, s.control.task.event); }
  }

  lemma InvIs(s: State)
    requires Inv(s)
    ensures InRange(s.saved)
    ensures s.control.Held? && s.control.task.Deciding? ==> Reported(s.workers, s.control.task.event.generation)
  {
    hide Stamped, Exclusive, Cancelled, Registered, Acted, Reported, InRange;
  }

  lemma {:induction false} QuietLasts(states: seq<State>, actions: seq<Action>, i: nat, j: nat)
    requires Run(states, actions) && i <= j < |states| && Quiet(states[i])
    requires states[i].closed || forall k | i <= k < j :: actions[k] != Holder(LockCommand)
    ensures Quiet(states[j]) && states[j].workers.Keys == states[i].workers.Keys && SameSong(states[i], states[j])
    ensures states[i].closed ==> states[j].closed
    decreases j
  {
    hide Apply, Enabled, Initial, Inv, Quiet;
    if i < j {
      QuietLasts(states, actions, i, j - 1);
      RunKeepsInv(states, actions, j - 1);
      StepOfRun(states, actions, j - 1);
      QuietStep(states[j - 1], actions[j - 1]);
      if states[j - 1].closed { ClosedStays(states[j - 1], actions[j - 1]); }
    }
  }

  lemma ClosedStays(s: State, a: Action)
    requires InRange(s.saved) && Enabled(s, a) && s.closed
    ensures Apply(s, a).closed
  {
    hide Advance, Skipped, MaySkip, ResetHistory;
  }

  lemma WaitingEndIsQuiet(s: State, late: bool, pick: nat, history: string)
    requires Inv(s) && Holds(s, Ended(Clean)) && (s.saved.waiting || (s.saved.deadline > 0 && late))
    ensures var t := EndStep(s, late, pick, history);
            && Quiet(t) && t.workers == s.workers
            && t.saved.position == 0 && t.saved.queue == s.saved.queue && t.saved.index == s.saved.index
  {}

  /**
   A song that plays to its end with Waiting set, or with its deadline passed, starts no
   further song: until the next command no worker is started, nothing plays, and the queue
   rests at the start of the song that ended.
   */
  lemma WaitingEndStaysQuiet(states: seq<State>, actions: seq<Action>, i: nat, j: nat)
    requires Run(states, actions) && i < j < |states|
    requires actions[i].Holder? && actions[i].step.ActOnEnd?
    requires states[i].saved.waiting || (states[i].saved.deadline > 0 && actions[i].step.late)
    requires forall k | i < k < j :: actions[k] != Holder(LockCommand)
    ensures Quiet(states[j]) && states[j].workers.Keys == states[i].workers.Keys
    ensures states[j].saved.position == 0 && states[j].saved.queue == states[i].saved.queue
            && states[j].saved.index == states[i].saved.index
  {
    RunKeepsInv(states, actions, i);
    StepOfRun(states, actions, i);
    WaitingEndIsQuiet(states[i], actions[i].step.late, actions[i].step.pick, actions[i].step.history);
    hide Inv, Quiet, Apply;
    QuietLasts(states, actions, i + 1, j);
  }

  /** Once the engine has been closed and its playback cancelled, nothing plays or starts again. */
  lemma ClosedStaysQuiet(states: seq<State>, actions: seq<Action>, i: nat, j: nat)
    requires Run(states, actions) && i < j < |states|
    requires actions[i] == Turning(EndCancel) && states[i].closed && states[i].control.Cancelling?
             && states[i].control.task == Closing
    ensures Quiet(states[j]) && states[j].workers.Keys == states[i].workers.Keys
  {
    RunKeepsInv(states, actions, i);
    StepOfRun(states, actions, i);
    CancelledIsQuiet(states[i]);
    hide Inv, Quiet, Apply;
    QuietLasts(states, actions, i + 1, j);
  }

  lemma CancelledIsQuiet(s: State)
    requires Inv(s) && s.control.Cancelling? && s.control.task == Closing
    ensures Quiet(CancelOutside(s)) && CancelOutside(s).workers.Keys == s.workers.Keys
            && CancelOutside(s).closed == s.closed
  {}
}
