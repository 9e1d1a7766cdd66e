/**
  The exact callback step of the N64 frontend: `count` frames or controller polls, one gate
  arm per boundary, with cancellation, host deadline, breakpoint and recovery exits.

  The control thread's code is a method; between any two of its accesses to shared state the
  emulation thread may take any number of its own steps (`Interfere`).
*/
module N64Step {
  import opened N64Gate
  import opened Base

  // ------------------------------------------------------- runs of the core on its own

  ghost predicate IsCoreRun(w: World, run: seq<CoreStep>)
    decreases |run|
  {
    run == [] || (CoreEnabled(w, run[0]) && IsCoreRun(CoreNext(w, run[0]), run[1..]))
  }

  ghost function CoreAfter(w: World, run: seq<CoreStep>): World
    requires IsCoreRun(w, run)
    decreases |run|
  {
    if run == [] then w else CoreAfter(CoreNext(w, run[0]), run[1..])
  }

  /** `v` comes from `w` by steps of the emulation thread alone. */
  ghost predicate CoreReaches(w: World, v: World) {
    exists run: seq<CoreStep> :: IsCoreRun(w, run) && CoreAfter(w, run) == v
  }

  lemma CoreReachesSelf(w: World)
    ensures CoreReaches(w, w)
  {
    assert IsCoreRun(w, []) && CoreAfter(w, []) == w;
  }

  lemma {:induction false} CoreRunSnoc(w: World, run: seq<CoreStep>, s: CoreStep)
    requires IsCoreRun(w, run) && CoreEnabled(CoreAfter(w, run), s)
    ensures IsCoreRun(w, run + [s])
    ensures CoreAfter(w, run + [s]) == CoreNext(CoreAfter(w, run), s)
    decreases |run|
  {
    if run == [] {
      assert run + [s] == [s] && [s][1..] == [];
    } else {
      CoreRunSnoc(CoreNext(w, run[0]), run[1..], s);
      assert (run + [s])[1..] == run[1..] + [s];
    }
  }

  lemma CoreReachesNext(w: World, v: World, s: CoreStep)
    requires CoreReaches(w, v) && CoreEnabled(v, s)
    ensures CoreReaches(w, CoreNext(v, s))
  {
    var run: seq<CoreStep> :| IsCoreRun(w, run) && CoreAfter(w, run) == v;
    CoreRunSnoc(w, run, s);
  }

  lemma {:induction false} CoreReachesOnward(u: World, v: World, run: seq<CoreStep>)
    requires CoreReaches(u, v) && IsCoreRun(v, run)
    ensures CoreReaches(u, CoreAfter(v, run))
    decreases |run|
  {
    if run != [] {
      CoreReachesNext(u, v, run[0]);
      CoreReachesOnward(u, CoreNext(v, run[0]), run[1..]);
    }
  }

  lemma CoreReachesTrans(u: World, v: World, w: World)
    requires CoreReaches(u, v) && CoreReaches(v, w)
    ensures CoreReaches(u, w)
  {
    var run: seq<CoreStep> :| IsCoreRun(v, run) && CoreAfter(v, run) == w;
    CoreReachesOnward(u, v, run);
  }

  // ------------------------------------------------------------------ stopped threads

  /** The gate's promise plus: the gate knows every counted debugger update but the one in flight. */
  ghost predicate CoreInv(w: World) {
    && GateInv(w)
    && if w.thread.Updating?
       then w.thread.update == w.updates && w.gate.debugUpdate + 1 == w.updates
       else w.gate.debugUpdate == w.updates
  }

  lemma CoreInvStep(w: World, s: CoreStep)
    requires CoreInv(w) && CoreEnabled(w, s)
    ensures CoreInv(CoreNext(w, s)) && Arrivals(CoreNext(w, s)) == Arrivals(w)
  {
    GateInvCore(w, s);
    match s
    case PublishFrame(_) =>
    case PublishPoll =>
    case EnterGate =>
    case WakeUp =>
    case CountUpdate(_) =>
    case TellGate =>
    case Leave =>
    case Capture =>
  }

  /** The parks that have been let go again; a thread on its own ends none and begins one at most. */
  function Arrivals(w: World): int {
    w.ledger.parks - if w.gate.blocked then 1 else 0
  }

  lemma {:induction false} CoreInvRun(w: World, run: seq<CoreStep>)
    requires CoreInv(w) && IsCoreRun(w, run)
    ensures CoreInv(CoreAfter(w, run)) && Arrivals(CoreAfter(w, run)) == Arrivals(w)
    decreases |run|
  {
    if run != [] {
      CoreInvStep(w, run[0]);
      CoreInvRun(CoreNext(w, run[0]), run[1..]);
    }
  }

  ghost predicate HeldAtGate(w: World) {
    w.thread.Parked? && w.gate.blocked
  }

  /** The emulation thread cannot run: it is held by the gate or by the debugger. */
  ghost predicate Stopped(w: World) {
    HeldAtGate(w) || AtDebugStop(w)
  }

  /** What a stopped thread leaves alone. */
  ghost predicate SameStop(w: World, v: World) {
    && Stopped(v) && CoreInv(v)
    && (HeldAtGate(v) <==> HeldAtGate(w))
    && v == w.(gate := w.gate.(debugUpdate := v.gate.debugUpdate), thread := v.thread)
    && (HeldAtGate(w) ==> v.thread == w.thread.(notified := v.thread.notified))
  }

  lemma StopHolds(w: World, s: CoreStep)
    requires CoreInv(w) && Stopped(w) && CoreEnabled(w, s)
    ensures SameStop(w, CoreNext(w, s))
  {
  }

  lemma {:induction false} StopHoldsRun(w: World, run: seq<CoreStep>)
    requires CoreInv(w) && Stopped(w) && IsCoreRun(w, run)
    ensures SameStop(w, CoreAfter(w, run))
    decreases |run|
  {
    if run != [] {
      StopHolds(w, run[0]);
      StopHoldsRun(CoreNext(w, run[0]), run[1..]);
    }
  }

  /** However long the core is left alone, a stopped thread stays stopped and no counter moves. */
  lemma StopHoldsAlone(w: World, v: World)
    requires CoreInv(w) && Stopped(w) && CoreReaches(w, v)
    ensures SameStop(w, v)
  {
    var run: seq<CoreStep> :| IsCoreRun(w, run) && CoreAfter(w, run) == v;
    StopHoldsRun(w, run);
  }

  // ------------------------------------------------------- one boundary at a time

  function Clock(w: World, t: Trigger): nat {
    if t == NextPoll then w.polls else w.frames
  }

  /** Clock values admitted before the boundary aimed at, and at it. */
  predicate Before(a: Aim, n: nat) {
    a.exact ==> if a.trigger == ScreenshotCompleted then a.clock <= n else n == a.clock
  }

  predicate Reached(a: Aim, n: nat) {
    a.exact ==> if a.trigger == ScreenshotCompleted then a.clock < n else n == a.clock + 1
  }

  /** The next clock value is known to continue this one. */
  predicate Continues(w: World, t: Trigger) {
    t == NextPoll || !w.rebase
  }

  /**
    What a launch is for: one boundary of a kind, from where the clock stood and the debugger
    had counted `updates`; `exact` says that the clock continues from there.
  */
  datatype Aim = Aim(trigger: Trigger, clock: nat, exact: bool, updates: nat)

  function AimAt(w: World, t: Trigger): Aim {
    Aim(t, Clock(w, t), Continues(w, t), w.updates)
  }

  /**
    The gate was armed for the boundary aimed at, and the thread was let go. It either has not got there, is just
    arriving, is held there, or was stopped by the debugger on the way; it is never beyond.
  */
  ghost predicate Advancing(w: World, a: Aim) {
    && CoreInv(w) && !w.gate.shutdown
    && (a.exact ==> Continues(w, a.trigger))
    && if w.gate.blocked then Arrived(w, a) else OnTheWay(w, a)
  }

  predicate Arrived(w: World, a: Aim) {
    && !w.gate.armNext && w.thread.Parked? && w.thread.poll == (a.trigger == NextPoll)
    && Reached(a, Clock(w, a.trigger)) && w.updates == a.updates && Continues(w, a.trigger)
  }

  predicate OnTheWay(w: World, a: Aim) {
    && w.gate.armNext && w.gate.trigger == a.trigger
    && (if w.thread.AtBoundary? && w.thread.poll == (a.trigger == NextPoll)
        then Reached(a, Clock(w, a.trigger)) && Continues(w, a.trigger)
        else Before(a, Clock(w, a.trigger)))
    && (if AtDebugStop(w) then w.updates == a.updates + 1 && w.paused else w.updates == a.updates)
  }

  lemma AdvancingPublished(w: World, s: CoreStep, a: Aim)
    requires Advancing(w, a) && CoreEnabled(w, s) && (s.PublishFrame? || s.PublishPoll?)
    ensures Advancing(CoreNext(w, s), a)
  {
    GateInvCore(w, s);
  }

  lemma AdvancingEntered(w: World, a: Aim)
    requires Advancing(w, a) && CoreEnabled(w, EnterGate)
    ensures Advancing(CoreNext(w, EnterGate), a)
  {
    GateInvCore(w, EnterGate);
  }

  lemma AdvancingAsleep(w: World, a: Aim)
    requires Advancing(w, a) && CoreEnabled(w, WakeUp)
    ensures Advancing(CoreNext(w, WakeUp), a)
  {
    GateInvCore(w, WakeUp);
  }

  lemma AdvancingUpdated(w: World, s: CoreStep, a: Aim)
    requires Advancing(w, a) && CoreEnabled(w, s) && (s.CountUpdate? || s.TellGate? || s.Leave? || s.Capture?)
    ensures Advancing(CoreNext(w, s), a)
  {
    GateInvCore(w, s);
  }

  lemma AdvancingStep(w: World, s: CoreStep, a: Aim)
    requires Advancing(w, a) && CoreEnabled(w, s)
    ensures Advancing(CoreNext(w, s), a)
  {
    match s
    case PublishFrame(_) => AdvancingPublished(w, s, a);
    case PublishPoll => AdvancingPublished(w, s, a);
    case EnterGate => AdvancingEntered(w, a);
    case WakeUp => AdvancingAsleep(w, a);
    case _ => AdvancingUpdated(w, s, a);
  }

  lemma {:induction false} AdvancingRun(w: World, run: seq<CoreStep>, a: Aim)
    requires Advancing(w, a) && IsCoreRun(w, run)
    ensures Advancing(CoreAfter(w, run), a)
    decreases |run|
  {
    if run != [] {
      AdvancingStep(w, run[0], a);
      AdvancingRun(CoreNext(w, run[0]), run[1..], a);
    }
  }

  /** The core never runs past the armed boundary, however long nobody looks. */
  lemma NeverPastTheBoundary(w: World, v: World, a: Aim)
    requires Advancing(w, a) && CoreReaches(w, v)
    ensures Advancing(v, a) && Arrivals(v) == Arrivals(w)
  {
    var run: seq<CoreStep> :| IsCoreRun(w, run) && CoreAfter(w, run) == v;
    AdvancingRun(w, run, a);
    CoreInvRun(w, run);
  }

  /** The stop is still there, and no clock has moved. */
  ghost predicate Kept(w: World, v: World) {
    && CoreInv(v) && Stopped(v) && (HeldAtGate(v) <==> HeldAtGate(w))
    && v.frames == w.frames && v.polls == w.polls && v.updates == w.updates && v.rebase == w.rebase
    && v.ledger.parks == w.ledger.parks && v.gate.frame == w.gate.frame
    && (HeldAtGate(w) ==> v.thread.poll == w.thread.poll)
  }

  ghost predicate HeldOn(w: World, v: World) {
    Kept(w, v) && HeldAtGate(v)
  }

  lemma KeptAlone(w: World, v: World)
    requires CoreInv(w) && Stopped(w) && CoreReaches(w, v)
    ensures Kept(w, v) && v.gate.armNext == w.gate.armNext && v.gate.trigger == w.gate.trigger
    ensures v.paused == w.paused && v.hit == w.hit && v.gate.shutdown == w.gate.shutdown && v.ledger == w.ledger
  {
    StopHoldsAlone(w, v);
  }

  /** The debugger stopped the thread on its way to the armed boundary. */
  ghost predicate StoppedOnTheWay(w: World, a: Aim) {
    && CoreInv(w) && AtDebugStop(w) && w.paused && w.updates == a.updates + 1
    && !w.gate.armNext && Before(a, Clock(w, a.trigger)) && (a.exact ==> Continues(w, a.trigger))
  }

  /** What only grows: updates, a frame number that continues, a latch no update has touched. */
  ghost predicate Later(w: World, v: World) {
    && (!w.rebase ==> !v.rebase)
    && w.updates <= v.updates
    && (w.updates == v.updates ==> w.hit == v.hit)
  }

  /** A stop that has been let go with the gate armed is the start of an exact advance. */
  ghost predicate LetGo(w: World) {
    || (w.thread.Parked? && !w.gate.blocked)
    || ((w.thread.Updating? || w.thread.Halted?) && w.thread.released)
  }

  lemma ReleasedAdvances(w: World, t: Trigger)
    requires CoreInv(w) && LetGo(w) && w.gate.armNext && w.gate.trigger == t
    ensures Advancing(w, AimAt(w, t))
  {
  }

  lemma SteppedAdvances(w: World, t: Trigger)
    requires CoreInv(w) && AtDebugStop(w) && w.gate.armNext && w.gate.trigger == t
    ensures Advancing(DebugStep(w), AimAt(w, t))
    ensures Later(w, DebugStep(w)) && DebugStep(w).ledger == w.ledger
  {
    ReleasedAdvances(DebugStep(w), t);
  }

  lemma CancelledStop(w: World)
    requires CoreInv(w) && AtDebugStop(w)
    ensures CoreInv(Cancel(w)) && AtDebugStop(Cancel(w)) && Later(w, Cancel(w))
  {
  }

  function SaturatingSub(a: nat, b: nat): nat {
    if a >= b then a - b else 0
  }

  /** What a drain leaves of the record that the thread is held at the gate. */
  function RecordAfterDrain(w: World, lastSeen: nat, framePaused: bool): bool {
    framePaused && !(lastSeen < w.updates && w.hit)
  }

  /** A breakpoint stop that nobody read, let go by a step of kind `t`. */
  lemma UnreadAndLetGo(w: World, t: Trigger) returns (v: World)
    requires Reachable(w) && w.thread.Running? && !w.gate.armNext && !w.gate.shutdown
    ensures Reachable(v) && v.thread.Running? && v.hit && v.updates == w.updates + 1 && !v.paused
    ensures v.gate.armNext && v.gate.trigger == t && !v.gate.shutdown
    ensures v.frames == w.frames && v.polls == w.polls && v.rebase == w.rebase
  {
    Reach(w, ByCore(CountUpdate(true)));
    var w1 := CoreNext(w, CountUpdate(true));
    Reach(w1, ByCore(TellGate));
    var w2 := CoreNext(w1, TellGate);
    Reach(w2, ByControl(DoArm(t)));
    var w3 := Arm(w2, t);
    Reach(w3, ByControl(DoSetPaused(false)));
    var w4 := SetPaused(w3, false);
    Reach(w4, ByControl(DoDebugStep));
    var w5 := DebugStep(w4);
    Reach(w5, ByCore(Leave));
    v := CoreNext(w5, Leave);
  }

  /**
    A breakpoint stop that was never drained makes the next drain forget a barrier that
    really holds the thread.
  */
  lemma StaleLatchForgetsTheBarrier()
    ensures exists w :: Reachable(w) && HeldAtGate(w) && !RecordAfterDrain(w, 0, true)
  {
    ReachInitial();
    var w := UnreadAndLetGo(INITIAL_WORLD, NextFrame);
    Reach(w, ByCore(PublishFrame(1)));
    var v := CoreNext(w, PublishFrame(1));
    Reach(v, ByCore(EnterGate));
    assert HeldAtGate(CoreNext(v, EnterGate));
  }

  /** Let go towards an armed boundary, or stopped by the debugger on the way there. */
  ghost predicate Moving(w: World, a: Aim) {
    Advancing(w, a) || StoppedOnTheWay(w, a)
  }

  /** A debugger stop whose update is among the first `n`. */
  ghost predicate CountedStop(w: World, n: nat) {
    AtDebugStop(w) && w.updates <= n
  }

  /** What a wait can start from: a launched thread, or one held at the gate all along. */
  ghost predicate Underway(w: World, a: Aim) {
    CoreInv(w) && (HeldAtGate(w) || Moving(w, a))
  }

  /** The count reported when the host budget runs out. */
  function ExpiredCount(w: World, t: Trigger, frameBefore: nat): nat {
    SaturatingSub(Clock(w, t), frameBefore)
  }

  /**
    Before the first frame after a reset or a state load the clock need not continue, and a
    host deadline can report one boundary as any other number of them.
  */
  lemma UnsynchronizedCountCanFail(w: World)
    requires CoreInv(w) && w.thread.Running? && w.rebase
    requires w.gate.armNext && w.gate.trigger == NextFrame
    ensures exists v ::
      && CoreReaches(w, v) && HeldAtGate(v) && v.ledger.parks == w.ledger.parks + 1
      && HostDeadline(ExpiredCount(v, NextFrame, w.frames)) != HostDeadline(1)
  {
    var publish := PublishFrame(w.frames + 2);
    var v := CoreNext(w, publish);
    CoreReachesSelf(w);
    CoreReachesNext(w, w, publish);
    CoreReachesNext(w, v, EnterGate);
    assert HeldAtGate(CoreNext(v, EnterGate));
  }

  /** A clock that continues is reported right, synchronized or not. */
  lemma ContinuingCountIsRight(w: World, v: World, t: Trigger)
    requires CoreInv(w) && LetGo(w) && w.gate.armNext && w.gate.trigger == t != ScreenshotCompleted
    requires Continues(w, t) && CoreReaches(w, v) && Stopped(v)
    ensures ExpiredCount(v, t, Clock(w, t)) == v.ledger.parks - w.ledger.parks
  {
    ReleasedAdvances(w, t);
    NeverPastTheBoundary(w, v, AimAt(w, t));
  }

  // --------------------------------------------------------------- the control thread

  const MAX_STEP_COUNT := 5000
  const MAX_SYNC_OPERATION_MS := 250_000
  const RECOVERY_MS := 1000

  /** The bounds of a step: boundaries, and milliseconds for the whole of it and for a recovery. */
  lemma TimesAre()
    ensures MAX_STEP_COUNT == 5000 && MAX_SYNC_OPERATION_MS == 250_000 && RECOVERY_MS == 1000
  {
  }

  datatype WaitOutcome = Frame(number: nat) | DebugUpdate(update: nat) | CancelRequested | NotStopped

  datatype Drained = Nothing | Event | Unmatched

  function Classified(t: Tally, r: Drained): Tally {
    match r
    case Nothing => t
    case Event => t.(events := t.events + 1)
    case Unmatched => t.(unmatched := t.unmatched + 1)
  }

  datatype Launched = Away | ArmRefusal | RunStateError | StepRefused

  datatype StepError =
    | NotFrozen | BadCount | NotLaunched(why: Launched) | Mismatch | NoMatch | WaitExpired
    | GenerationStopped

  datatype StepResult =
    | Completed(before: nat, after: nat, pollsBefore: nat, pollsAfter: nat)
    | Cancelled(completed: nat)
    | HostDeadline(completed: nat)
    | Breakpoint(completed: nat)
    | Failed(error: StepError)

  /** Where the search for a stop began, and what had been counted by then. */
  datatype Mark = Mark(since: nat, refusals: nat, looks: nat)

  /**
    What the native side has done to the adapter: run states that could not be set, debugger
    steps that failed, breakpoints with and without a record; the looks for a stop, with the
    latest search they belong to; and the end of the latest wait. Nothing reads it.
  */
  datatype Tally =
    Tally(refusals: nat, failedSteps: nat, events: nat, unmatched: nat, looks: nat, park: Mark, until: nat)

  predicate Grown(t: Tally, u: Tally) {
    && t.refusals <= u.refusals && t.failedSteps <= u.failedSteps
    && t.events <= u.events && t.unmatched <= u.unmatched && t.looks <= u.looks
  }

  /**
    Why the latest search for a stop may have found none: the gate was shut down, PAUSED could
    not be set, or the whole recovery time is over, with PAUSED asked for unless the first look
    alone took that long.
  */
  predicate SearchedInVain(w: World, now: nat, t: Tally) {
    || w.gate.shutdown
    || t.refusals > t.park.refusals
    || (now >= t.park.since + 1000 && (w.paused || t.looks == t.park.looks + 1))
  }

  /** The check of every observed boundary against the clock read before it. */
  predicate ValidObserved(t: Trigger, verified: bool, before: nat, observed: nat) {
    && !(t != ScreenshotCompleted && verified && observed != before + 1)
    && !(verified && observed <= before)
  }

  /** A wait over a thread that is held already takes the old boundary for the new one. */
  predicate Misread(w: World, t: Trigger, verified: bool) {
    ValidObserved(t, verified, Clock(w, t), w.gate.frame)
  }

  /**
    For a hold at a boundary of the kind asked for, the old boundary is taken for the new one
    exactly while the clock is not verified.
  */
  lemma MisreadIffUnverified(w: World, t: Trigger, verified: bool)
    requires CoreInv(w) && HeldAtGate(w) && w.thread.poll == (t == NextPoll)
    ensures Misread(w, t, verified) <==> !verified
  {
  }

  /** A machine that has shown one frame and then one poll. */
  lemma FrameThenPoll() returns (w: World)
    ensures Reachable(w) && w.thread.Running? && !w.gate.armNext && !w.gate.shutdown
    ensures w.frames == 1 && w.polls == 1 && !w.rebase && w.updates == 0
  {
    ReachInitial();
    Reach(INITIAL_WORLD, ByCore(PublishFrame(1)));
    var w1 := CoreNext(INITIAL_WORLD, PublishFrame(1));
    Reach(w1, ByCore(EnterGate));
    var w2 := CoreNext(w1, EnterGate);
    Reach(w2, ByCore(PublishPoll));
    var w3 := CoreNext(w2, PublishPoll);
    Reach(w3, ByCore(EnterGate));
    w := CoreNext(w3, EnterGate);
  }

  /** What a poll step that is cancelled over an unread breakpoint leaves, its drain done. */
  lemma ForgottenBarrier() returns (held: World, w: World)
    ensures Reachable(held) && HeldAtGate(held) && !RecordAfterDrain(held, 0, true)
    ensures Reachable(w) && w == ConsumeLatch(held) && w.paused && !w.gate.armNext && !w.gate.shutdown
    ensures w.frames == 1 && w.gate.frame == 2 && !w.rebase
  {
    var w0 := FrameThenPoll();
    var w1 := UnreadAndLetGo(w0, NextPoll);
    Reach(w1, ByControl(DoSetPaused(true)));
    var w2 := SetPaused(w1, true);
    Reach(w2, ByCore(PublishPoll));
    var w3 := CoreNext(w2, PublishPoll);
    Reach(w3, ByCore(EnterGate));
    held := CoreNext(w3, EnterGate);
    Reach(held, ByControl(DoConsume));
    w := ConsumeLatch(held);
  }

  /**
    From there the next frame step arms, clears the pause and steps the debugger, and finds
    the old poll boundary: it is taken for the next frame, verified clock or not, and the
    machine has not moved.
  */
  lemma ForgottenBarrierPassesForAFrame()
    ensures exists w ::
      && Reachable(w) && HeldAtGate(w) && w.paused && !ArmRefused(w.gate)
      && var v := DebugStep(SetPaused(Arm(w, NextFrame), false));
         && HeldAtGate(v) && v.gate.armNext && v.frames == w.frames && v.polls == w.polls
         && forall verified :: Misread(v, NextFrame, verified)
  {
    var held, w := ForgottenBarrier();
    assert HeldAtGate(w);
    assert forall verified :: Misread(DebugStep(SetPaused(Arm(w, NextFrame), false)), NextFrame, verified);
  }

  class Host {
    var world: World
    var frozen: bool
    var framePaused: bool
    var clockSynchronized: bool
    var lastUpdateSeen: nat
    var terminal: bool
    var cancelled: bool
    var now: nat
    ghost var tally: Tally

    constructor ()
      ensures Sound() && Agrees() && ClockKnown()
      ensures world == INITIAL_WORLD && !frozen && !terminal && lastUpdateSeen == 0
    {
      world := INITIAL_WORLD;
      frozen, framePaused, clockSynchronized := false, false, false;
      lastUpdateSeen, terminal, cancelled, now := 0, false, false, 0;
      tally := Tally(0, 0, 0, 0, 0, Mark(0, 0, 0), 0);
    }

    /** What the adapter may ever claim: a machine it calls frozen is really stopped. */
    ghost predicate Sound()
      reads this
    {
      && CoreInv(world)
      && (frozen ==> Stopped(world))
      && (framePaused ==> frozen && HeldAtGate(world))
    }

    /** The adapter also knows which of the two stops holds the machine. */
    ghost predicate Agrees()
      reads this
    {
      framePaused <==> frozen && HeldAtGate(world)
    }

    ghost predicate ClockKnown()
      reads this
    {
      clockSynchronized ==> !world.rebase
    }

    /** A breakpoint stop that nobody has drained yet. */
    ghost predicate LatchPending()
      reads this
    {
      lastUpdateSeen < world.updates && world.hit
    }

    /** Whether the clock of this kind is checked at every boundary. */
    predicate Verified(t: Trigger)
      reads this
    {
      t == NextPoll || clockSynchronized
    }

    /** Time, the wish to cancel and what was counted only go forward. */
    twostate predicate Onward()
      reads this
    {
      old(now) <= now && (old(cancelled) ==> cancelled) && Grown(old(tally), tally)
    }

    /** Anything the emulation thread, the clock and the cancelling client may do meanwhile. */
    method Interfere()
      modifies this`world, this`cancelled, this`now
      ensures CoreReaches(old(world), world)
      ensures Later(old(world), world) && (old(world.paused) ==> world.paused)
      ensures Onward()
    {
      CoreReachesSelf(world);
      var steps: int := *;
      while steps > 0
        invariant CoreReaches(old(world), world)
        invariant Later(old(world), world) && (old(world.paused) ==> world.paused)
        invariant now == old(now) && cancelled == old(cancelled)
      {
        var s: CoreStep := *;
        if CoreEnabled(world, s) {
          CoreReachesNext(old(world), world, s);
          world := CoreNext(world, s);
        }
        steps := steps - 1;
      }
      var pause: int :| 0 <= pause;
      var cancel: bool := *;
      now := now + pause;
      cancelled := cancelled || cancel;
    }

    method SetRunState(paused: bool) returns (ok: bool)
      modifies this`world, this`tally
      ensures world == if ok then SetPaused(old(world), paused) else old(world)
      ensures tally == if ok then old(tally) else old(tally).(refusals := old(tally).refusals + 1)
    {
      ok := *;
      if ok {
        world := SetPaused(world, paused);
      } else {
        tally := tally.(refusals := tally.refusals + 1);
      }
    }

    method NativeStep() returns (ok: bool)
      modifies this`world, this`tally
      ensures world == if ok then DebugStep(old(world)) else old(world)
      ensures tally == if ok then old(tally) else old(tally).(failedSteps := old(tally).failedSteps + 1)
    {
      ok := *;
      if ok {
        world := DebugStep(world);
      } else {
        tally := tally.(failedSteps := tally.failedSteps + 1);
      }
    }

    /**
      Waits for a held boundary, a newer debugger update, cancellation or the deadline.
      Whatever it reports, only the core has moved: no held barrier was released and no
      pending one disarmed.
    */
    method WaitForGate(timeout: nat, after: nat) returns (o: WaitOutcome)
      requires CoreInv(world)
      modifies this`world, this`cancelled, this`now, this`tally
      ensures CoreReaches(old(world), world) && Later(old(world), world)
      ensures Onward()
      ensures o.Frame? ==> world.gate.blocked && o.number == world.gate.frame
      ensures o.DebugUpdate? ==> !world.gate.blocked && o.update == world.gate.debugUpdate > after
      ensures o.CancelRequested? <==> cancelled
      ensures o.NotStopped? ==> !world.gate.blocked && world.gate.debugUpdate <= after
      ensures o.NotStopped? ==> now >= old(now) + timeout || world.gate.shutdown
      ensures tally == old(tally).(until := old(now) + timeout)
    {
      var deadline := now + timeout;
      tally := tally.(until := deadline);
      Interfere();
      while true
        invariant CoreReaches(old(world), world) && Later(old(world), world) && Onward()
        invariant tally == old(tally).(until := deadline)
        decreases deadline - now
      {
        if cancelled {
          return CancelRequested;
        }
        if world.gate.blocked {
          return Frame(world.gate.frame);
        }
        if world.gate.debugUpdate > after {
          return DebugUpdate(world.gate.debugUpdate);
        }
        if now >= deadline || world.gate.shutdown {
          return NotStopped;
        }
        ghost var was := world;
        Interfere();
        CoreReachesTrans(old(world), was, world);
        now := now + 1;
      }
    }

    /**
      Establishes a stop after cancellation or a failure. It reports a held boundary as it is,
      disarms only after a debugger update newer than `after` has proved the other stop, and
      leaves gate and thread alone when it can prove neither. It gives up for nothing but a
      shutdown, a pause that could not be asked for, or the end of the recovery time.
    */
    method ParkCancelled(after: nat, ghost a: Aim)
      returns (o: WaitOutcome)
      requires a.updates <= after
      requires Underway(world, a)
      modifies this`world, this`cancelled, this`now, this`tally
      ensures o.Frame? || o.DebugUpdate? || o.NotStopped?
      ensures o.Frame? ==> HeldAtGate(world) && o.number == world.gate.frame
      ensures old(HeldAtGate(world)) ==>
        && o.Frame? && HeldOn(old(world), world) && world.gate.armNext == old(world).gate.armNext
      ensures o.Frame? && old(Moving(world, a)) ==> Advancing(world, a)
      ensures o.DebugUpdate? ==> StoppedOnTheWay(world, a) && after < o.update == world.updates
      ensures o.NotStopped? ==> Underway(world, a) && SearchedInVain(world, now, tally)
      ensures o.NotStopped? && tally.refusals == old(tally.refusals) && tally.looks > old(tally.looks) + 1 ==>
        world.gate.shutdown || (!world.gate.blocked && world.gate.debugUpdate <= after)
      ensures Onward() && tally.park == Mark(old(now), old(tally.refusals), old(tally.looks))
      ensures old(CountedStop(world, after)) ==> o.NotStopped?
      ensures Later(old(world), world) && Arrivals(world) == Arrivals(old(world))
    {
      var deadline := now + RECOVERY_MS;
      var requested := false;
      tally := tally.(park := Mark(now, tally.refusals, tally.looks));
      while true
        invariant if old(HeldAtGate(world)) then world == old(world) else Moving(world, a)
        invariant old(CountedStop(world, after)) ==> CountedStop(world, after)
        invariant Later(old(world), world) && Arrivals(world) == Arrivals(old(world)) && Onward()
        invariant tally.park == Mark(old(now), old(tally.refusals), old(tally.looks))
        invariant if requested then world.paused else tally.looks == tally.park.looks
        decreases deadline - now
      {
        var done;
        done, o := LookForStop(after, a);
        if done {
          return;
        }
        if now >= deadline {
          return NotStopped;
        }
        var ok := AskToPause(!requested, a);
        if !ok {
          return NotStopped;
        }
        requested := true;
      }
    }

    /** Asks for a pause the first time, and lets the core go on for a while. */
    method AskToPause(ask: bool, ghost a: Aim) returns (ok: bool)
      requires Moving(world, a) && CoreInv(world) && now < tally.park.since + 1000
      modifies this`world, this`cancelled, this`now, this`tally
      ensures Moving(world, a) && CoreInv(world)
      ensures Later(old(world), world) && Arrivals(world) == Arrivals(old(world))
      ensures Onward() && (ok ==> old(now) < now) && (ok && (ask || old(world.paused)) ==> world.paused)
      ensures tally == if ok then old(tally) else old(tally).(refusals := old(tally).refusals + 1)
      ensures old(AtDebugStop(world)) ==> CountedStop(world, old(world.updates))
    {
      ok := true;
      if ask {
        ok := SetRunState(true);
      }
      if ok {
        Meanwhile(a);
        now := now + 1;
      }
    }

    /** One look at the run state and then at the gate; the arm goes only over a proved debugger stop. */
    method LookForStop(after: nat, ghost a: Aim)
      returns (done: bool, o: WaitOutcome)
      requires a.updates <= after && Underway(world, a)
      modifies this`world, this`cancelled, this`now, this`tally
      ensures done ==> o.Frame? || o.DebugUpdate? || o.NotStopped?
      ensures done && o.Frame? ==> HeldAtGate(world) && o.number == world.gate.frame
      ensures old(HeldAtGate(world)) ==>
        && done && o.Frame? && HeldOn(old(world), world) && world.gate.armNext == old(world).gate.armNext
      ensures old(Moving(world, a)) && !(done && o.DebugUpdate?) ==> Moving(world, a)
      ensures done && o.DebugUpdate? ==> StoppedOnTheWay(world, a) && after < o.update == world.updates
      ensures !done ==> !HeldAtGate(world) && (old(world.paused) ==> world.gate.debugUpdate <= after)
      ensures done && o.NotStopped? ==> world.gate.shutdown
      ensures Onward() && tally == old(tally).(looks := old(tally).looks + 1)
      ensures old(world.paused) ==> world.paused
      ensures old(CountedStop(world, after)) ==> CountedStop(world, after) && (done ==> o.NotStopped?)
      ensures Later(old(world), world) && Arrivals(world) == Arrivals(old(world))
    {
      tally := tally.(looks := tally.looks + 1);
      var paused := world.paused;
      Meanwhile(a);
      if world.gate.shutdown {
        return true, NotStopped;
      }
      if world.gate.blocked {
        return true, Frame(world.gate.frame);
      }
      if paused && world.gate.debugUpdate > after {
        world := Disarm(world);
        return true, DebugUpdate(world.gate.debugUpdate);
      }
      return false, NotStopped;
    }

    method Meanwhile(ghost a: Aim)
      requires Underway(world, a)
      modifies this`world, this`cancelled, this`now
      ensures old(HeldAtGate(world)) ==> HeldOn(old(world), world) && world.gate.armNext == old(world).gate.armNext
      ensures old(Moving(world, a)) ==> Moving(world, a)
      ensures old(AtDebugStop(world)) ==> CountedStop(world, old(world.updates))
      ensures Later(old(world), world) && Arrivals(world) == Arrivals(old(world))
      ensures Onward() && (old(world.paused) ==> world.paused)
    {
      Interfere();
      if HeldAtGate(old(world)) {
        KeptAlone(old(world), world);
      }
      if Advancing(old(world), a) {
        NeverPastTheBoundary(old(world), world, a);
      } else {
        StopHoldsAlone(old(world), world);
      }
    }

    /**
      Gives up on this generation: the core is told to stop. Nothing is claimed frozen, and
      nothing is left that could hold the emulation thread at the gate.
    */
    method StopGeneration()
      requires CoreInv(world)
      modifies this`world, this`frozen, this`framePaused, this`terminal
      ensures Sound() && Agrees() && terminal && !frozen
      ensures !world.gate.armNext && !world.gate.blocked && (world.thread.Parked? ==> world.thread.notified)
      ensures Later(old(world), world) && world.rebase == old(world.rebase)
      ensures world.frames == old(world.frames) && world.polls == old(world.polls)
      ensures world.paused == old(world.paused) && world.gate.shutdown == old(world.gate.shutdown)
      ensures world.gate.frame == old(world.gate.frame)
    {
      world := Cancel(world);
      framePaused := false;
      frozen := false;
      terminal := true;
    }

    /** Establishes a stop newer than anything counted so far. */
    method ParkNow(ghost a: Aim) returns (o: WaitOutcome)
      requires Underway(world, a) && world.updates >= a.updates
      modifies this`world, this`cancelled, this`now, this`tally
      ensures Onward() && old(now) <= tally.park.since
      ensures o.NotStopped? ==> SearchedInVain(world, now, tally)
      ensures CoreInv(world) && Later(old(world), world) && Arrivals(world) == Arrivals(old(world))
      ensures o.Frame? ==> HeldAtGate(world)
      ensures old(HeldAtGate(world)) ==>
        && o.Frame? && HeldOn(old(world), world) && world.gate.armNext == old(world).gate.armNext
      ensures o.Frame? && old(Moving(world, a)) ==> Advancing(world, a)
      ensures !o.Frame? && !o.NotStopped? ==> StoppedOnTheWay(world, a)
      ensures old(AtDebugStop(world)) ==> o.NotStopped?
    {
      var before := world.updates;
      Meanwhile(a);
      o := ParkCancelled(before, a);
    }

    /**
      Brings a step that went wrong back to a proved stop, or ends the generation, as it always
      does over a debugger stop that is counted already.
    */
    method Recover(ghost a: Aim) returns (ok: bool)
      requires Underway(world, a) && world.updates >= a.updates
      modifies this
      ensures Later(old(world), world) && Sound() && Agrees()
      ensures clockSynchronized == old(clockSynchronized) && lastUpdateSeen == old(lastUpdateSeen)
      ensures ok ==> frozen && Arrivals(world) == Arrivals(old(world)) && terminal == old(terminal)
      ensures ok && old(Moving(world, a)) ==>
        if framePaused then Advancing(world, a) else StoppedOnTheWay(world, a)
      ensures old(HeldAtGate(world)) ==>
        && ok && framePaused && HeldOn(old(world), world) && world.gate.armNext == old(world.gate.armNext)
      ensures !ok ==> !frozen && terminal && !world.gate.armNext
      ensures Onward() && old(now) <= tally.park.since && (!ok ==> SearchedInVain(world, now, tally))
      ensures old(AtDebugStop(world)) ==> !ok
    {
      var o := ParkNow(a);
      if o.NotStopped? {
        StopGeneration();
        return false;
      }
      framePaused := o.Frame?;
      frozen := true;
      return true;
    }

    /** Consumes the native breakpoint latch if an update has come in since the last look. */
    method Drain() returns (r: Drained)
      requires CoreInv(world) && Stopped(world) && (framePaused ==> frozen && HeldAtGate(world))
      modifies this`world, this`cancelled, this`now, this`frozen, this`framePaused, this`lastUpdateSeen, this`tally
      ensures Kept(old(world), world) && Later(old(world), world.(hit := old(world).hit))
      ensures tally == Classified(old(tally), r) && Onward()
      ensures lastUpdateSeen == if old(lastUpdateSeen) < world.updates then world.updates else old(lastUpdateSeen)
      ensures world.paused == old(world.paused) && world.gate.armNext == old(world.gate.armNext)
      ensures r.Nothing? <==> !old(LatchPending())
      ensures r.Nothing? ==> frozen == old(frozen) && framePaused == old(framePaused)
      ensures !r.Nothing? ==> frozen && !framePaused
      ensures framePaused == RecordAfterDrain(old(world), old(lastUpdateSeen), old(framePaused))
    {
      Interfere();
      KeptAlone(old(world), world);
      if world.updates <= lastUpdateSeen {
        return Nothing;
      }
      var hit := world.hit;
      world := ConsumeLatch(world);
      lastUpdateSeen := world.updates;
      if !hit {
        return Nothing;
      }
      frozen := true;
      framePaused := false;
      r := Classify();
    }

    /** Whether exactly one public record matches the trigger of a breakpoint. */
    method Classify() returns (r: Drained)
      modifies this`tally
      ensures !r.Nothing? && tally == Classified(old(tally), r)
    {
      var matched: bool := *;
      r := if matched then Event else Unmatched;
      tally := Classified(tally, r);
    }

    /** A frozen machine that `require_frozen` admits. */
    ghost predicate Ready()
      reads this
    {
      Sound() && frozen && (world.paused || framePaused)
    }

    /**
      Arms the gate while the thread is still stopped, clears a stale pause intent, and only
      then lets the stop on record go. A barrier that is not on record keeps the thread; a
      launch that fails leaves the stop as it was, unless it fails over such a barrier.
    */
    method Launch(t: Trigger, releaseDebugger: bool) returns (r: Launched)
      requires Ready() && (!framePaused ==> releaseDebugger)
      modifies this`world, this`cancelled, this`now, this`framePaused, this`tally
      ensures Later(old(world), world) && CoreInv(world) && Onward()
      ensures LaunchFailed(r, old(tally), tally, world.paused)
      ensures r.ArmRefusal? <==> old(ArmRefused(world.gate))
      ensures r.ArmRefusal? ==> world.gate.armNext == old(world.gate.armNext) && ArmRefused(world.gate)
      ensures r.Away? ==> !world.paused && !framePaused && world.gate.armNext && world.gate.trigger == t
      ensures r.Away? && old(Agrees()) ==>
        && Advancing(world, AimAt(old(world), t))
        && !world.gate.blocked && world.ledger.parks == old(world.ledger.parks)
      ensures r.Away? && !old(Agrees()) ==> HeldOn(old(world), world)
      ensures !r.Away? ==> framePaused == old(framePaused)
      ensures !r.Away? && (r.StepRefused? ==> old(Agrees())) ==> Kept(old(world), world)
      ensures r.RunStateError? ==> world.gate.armNext && world.gate.trigger == t
      ensures r.StepRefused? ==> !world.gate.armNext && !framePaused
      ensures r.StepRefused? && !old(Agrees()) ==>
        !Stopped(world) && world.frames == old(world.frames) && world.polls == old(world.polls)
    {
      var refused := ArmStopped(t);
      if refused {
        return ArmRefusal;
      }
      if framePaused {
        r := LaunchFromGate(t);
        framePaused := !r.Away?;
      } else if releaseDebugger {
        r := LaunchFromDebugger(t);
      }
    }

    /** A launch fails for no other reason than that the native side refused a call; PAUSED is set again. */
    static predicate LaunchFailed(r: Launched, before: Tally, after: Tally, paused: bool) {
      && (r.RunStateError? ==> after.refusals > before.refusals)
      && (r.StepRefused? ==> after.failedSteps > before.failedSteps && (paused || after.refusals > before.refusals))
    }

    method ArmStopped(t: Trigger) returns (refused: bool)
      requires CoreInv(world) && Stopped(world)
      modifies this`world, this`cancelled, this`now
      ensures Kept(old(world), world) && Later(old(world), world) && Onward()
      ensures refused <==> ArmRefused(old(world).gate)
      ensures refused ==> world.gate.armNext == old(world.gate.armNext) && ArmRefused(world.gate)
      ensures !refused ==> world.gate.armNext && world.gate.trigger == t
    {
      Interfere();
      KeptAlone(old(world), world);
      if ArmRefused(world.gate) {
        return true;
      }
      world := Arm(world, t);
      ghost var armed := world;
      Interfere();
      KeptAlone(armed, world);
      return false;
    }

    /** Moves the run state away from PAUSED while the thread still cannot run. */
    method ClearPauseIntent() returns (ok: bool)
      requires CoreInv(world) && Stopped(world)
      modifies this`world, this`cancelled, this`now, this`tally
      ensures Kept(old(world), world) && Later(old(world), world) && Onward()
      ensures !ok ==> world == old(world) && tally.refusals > old(tally.refusals)
      ensures ok ==> !world.paused
      ensures world.gate.armNext == old(world).gate.armNext && world.gate.trigger == old(world).gate.trigger
    {
      ok := SetRunState(false);
      if ok {
        ghost var cleared := world;
        Interfere();
        KeptAlone(cleared, world);
      }
    }

    method LaunchFromGate(t: Trigger) returns (r: Launched)
      requires CoreInv(world) && HeldAtGate(world) && world.gate.armNext && world.gate.trigger == t
      modifies this`world, this`cancelled, this`now, this`tally
      ensures r.Away? || r.RunStateError?
      ensures Later(old(world), world) && Onward() && LaunchFailed(r, old(tally), tally, world.paused)
      ensures r.RunStateError? ==> world == old(world)
      ensures r.Away? ==>
        && Advancing(world, AimAt(old(world), t)) && !world.paused
        && !world.gate.blocked && world.ledger.parks == old(world.ledger.parks)
        && world.gate.armNext && world.gate.trigger == t
    {
      var ok := ClearPauseIntent();
      if !ok {
        return RunStateError;
      }
      world := Release(world);
      ReleasedAdvances(world, t);
      return Away;
    }

    /** A debugger step lets a debugger stop go; it does nothing to a barrier, and its failure drops one. */
    method LaunchFromDebugger(t: Trigger) returns (r: Launched)
      requires CoreInv(world) && Stopped(world) && world.gate.armNext && world.gate.trigger == t
      modifies this`world, this`cancelled, this`now, this`tally
      ensures r.Away? || r.RunStateError? || r.StepRefused?
      ensures CoreInv(world) && Later(old(world), world) && Onward() && LaunchFailed(r, old(tally), tally, world.paused)
      ensures r.RunStateError? ==> world == old(world)
      ensures r.Away? ==> !world.paused && world.gate.armNext && world.gate.trigger == t
      ensures r.Away? && old(AtDebugStop(world)) ==>
        && Advancing(world, AimAt(old(world), t))
        && !world.gate.blocked && world.ledger.parks == old(world.ledger.parks)
      ensures r.Away? && old(HeldAtGate(world)) ==> HeldOn(old(world), world)
      ensures r.StepRefused? ==> !world.gate.armNext
      ensures r.StepRefused? && old(AtDebugStop(world)) ==> Kept(old(world), world)
      ensures r.StepRefused? && old(HeldAtGate(world)) ==>
        !Stopped(world) && world.frames == old(world.frames) && world.polls == old(world.polls)
    {
      hide Advancing;
      var ok := ClearPauseIntent();
      if !ok {
        return RunStateError;
      }
      if AtDebugStop(world) {
        SteppedAdvances(world, t);
        CancelledStop(world);
      }
      ok := NativeStep();
      if !ok {
        world := Cancel(world);
        var _ := SetRunState(true);
      }
      return if ok then Away else StepRefused;
    }

    /** Only the end of the generation leaves a step without a frozen machine. */
    ghost predicate Alive(r: StepResult)
      reads this
    {
      && r != Failed(NotFrozen) && r != Failed(BadCount)
      && if r == Failed(GenerationStopped) then terminal && !frozen else frozen
    }

    /**
      Why a boundary may end before it is reached: somebody cancelled, time ran out, a
      breakpoint was hit, or the native side refused something. `from` is what was counted
      and `start` the time when the boundary began, `bad` says that its check may fail.
    */
    ghost predicate Excused(r: StepResult, from: Tally, start: nat, deadline: nat, frameWait: nat, bad: bool)
      reads this
    {
      match r
      case Completed(_, _, _, _) => true
      case Cancelled(_) => cancelled
      case HostDeadline(_) => now >= deadline
      case Breakpoint(_) => tally.events > from.events
      case Failed(NotFrozen) => true
      case Failed(BadCount) => true
      case Failed(NotLaunched(why)) =>
        !why.Away? && LaunchFailed(why, from, tally, world.paused) && (why.ArmRefusal? ==> ArmRefused(world.gate))
      case Failed(Mismatch) => bad
      case Failed(NoMatch) => tally.unmatched > from.unmatched
      case Failed(WaitExpired) => now >= deadline || now >= start + frameWait
      case Failed(GenerationStopped) => Abandoned(from, start) || bad
    }

    /** A generation is given up after a search in vain, or over a breakpoint nobody knows. */
    ghost predicate Abandoned(from: Tally, start: nat)
      reads this
    {
      (start <= tally.park.since && SearchedInVain(world, now, tally)) || tally.unmatched > from.unmatched
    }

    /** What an exit in the middle of a boundary says about the machine and the count. */
    ghost predicate Interrupted(r: StepResult, b: Boundary, o: Outlook)
      reads this
    {
      && !r.Completed? && Sound() && Alive(r)
      && (!Agrees() ==> r == Cancelled(b.index + 1) && HeldAtGate(world) && o.latch)
      && (r == Cancelled(b.index + 1) && o.latch ==> !Agrees())
      && (r.Cancelled? ==> r.completed == if HeldAtGate(world) then b.index + 1 else b.index)
      && (r.Breakpoint? ==> r.completed == b.index && !HeldAtGate(world))
      && (r.HostDeadline? ==> r.completed == ExpiredCount(world, b.trigger, b.frameBefore))
      && (!r.Failed? ==> world.ledger.parks == o.parks + if HeldAtGate(world) then 1 else 0)
      && (o.exact && b.trigger != ScreenshotCompleted && !r.Failed? ==>
            Clock(world, b.trigger) == if HeldAtGate(world) then b.before + 1 else b.before)
    }

    /**
      An exit over a barrier that was never let go: nothing has moved, and a boundary is
      counted exactly if the old one passes for a new one.
    */
    ghost predicate Stuck(r: StepResult, was: World, b: Boundary)
      reads this
    {
      && Sound() && world.frames == was.frames && world.polls == was.polls
      && (r == Failed(WaitExpired) || r == Failed(GenerationStopped) || r == Failed(Mismatch)
          || r == Cancelled(b.index + 1))
      && (r == Cancelled(b.index + 1) ==> Misread(was, b.trigger, b.verified))
      && (r == Failed(Mismatch) ==> !Misread(was, b.trigger, b.verified) && framePaused)
      && Alive(r) && (frozen ==> HeldOn(was, world) && world.gate.armNext)
    }

    /** A held boundary was let go and is the one waited for, or it was never let go. */
    ghost predicate Awaiting(b: Boundary, o: Outlook)
      reads this
    {
      && b.updates <= world.updates && Arrivals(world) == o.parks - (if o.stuck then 1 else 0)
      && (world.updates == b.updates ==> o.latch == LatchPending())
      && StillAwaited(world, b, o)
    }

    /**
      Cancellation while waiting: a held boundary counts, a debugger stop does not.
    */
    method OnCancel(b: Boundary, ghost o: Outlook) returns (r: StepResult)
      requires Awaiting(b, o) && frozen && cancelled
      modifies this
      ensures r == Failed(GenerationStopped) || r.Cancelled?
      ensures Onward()
      ensures r.Failed? ==> Abandoned(old(tally), old(now)) || MayFailCheck(b, o, old(world))
      ensures o.stuck ==> Stuck(r, old(world), b)
      ensures !o.stuck ==> Interrupted(r, b, o) && !world.gate.armNext
      ensures !o.stuck && r.Cancelled? ==> Agrees() || r == Cancelled(b.index + 1)
      ensures !o.stuck && old(ClockKnown()) ==> ClockKnown()
    {
      ghost var was := world;
      var out := ParkCancelled(b.updates, AimOf(b, o));
      if out.NotStopped? {
        StopGeneration();
        return Failed(GenerationStopped);
      }
      if out.Frame? && !ValidObserved(b.trigger, b.verified, b.before, out.number) {
        WrongBoundary(b, o, was, world);
        StopGeneration();
        return Failed(GenerationStopped);
      }
      r := CountCancel(b, out, o, was);
    }

    /** The stop that a cancellation found: where a wait over `was` may have led. */
    ghost predicate FoundStop(b: Boundary, out: WaitOutcome, o: Outlook, was: World)
      reads this
    {
      match out
      case Frame(number) =>
        && number == world.gate.frame && ValidObserved(b.trigger, b.verified, b.before, number)
        && HeldAtGate(world) && Awaiting(b, o) && (o.stuck ==> HeldOn(was, world) && b.before == Clock(was, b.trigger))
      case DebugUpdate(_) =>
        !o.stuck && StoppedOnTheWay(world, AimOf(b, o)) && Arrivals(world) == o.parks
      case _ => false
    }

    /** A stop that was found counts as a boundary if the gate holds the thread. */
    method CountCancel(b: Boundary, out: WaitOutcome, ghost o: Outlook, ghost was: World) returns (r: StepResult)
      requires CoreInv(world) && frozen && FoundStop(b, out, o, was)
      modifies this
      ensures r == Failed(GenerationStopped) || r.Cancelled?
      ensures Onward() && (r.Failed? ==> tally.unmatched > old(tally.unmatched))
      ensures o.stuck ==> Stuck(r, was, b)
      ensures !o.stuck ==> Interrupted(r, b, o) && !world.gate.armNext
      ensures !o.stuck && r.Cancelled? ==> Agrees() || r == Cancelled(b.index + 1)
      ensures !o.stuck && old(ClockKnown()) ==> ClockKnown()
    {
      framePaused := out.Frame?;
      if out.Frame? && b.trigger != NextPoll {
        clockSynchronized := true;
      }
      frozen := true;
      r := FinishCancel(if out.Frame? then b.index + 1 else b.index);
    }

    /** The check of the boundary can fail: the clock was wrong, or an old boundary is looked at. */
    static ghost predicate MayFailCheck(b: Boundary, o: Outlook, was: World) {
      if o.stuck then !Misread(was, b.trigger, b.verified) else b.verified && !o.exact
    }

    lemma WrongBoundary(b: Boundary, o: Outlook, was: World, w: World)
      requires HeldAtGate(w) && !ValidObserved(b.trigger, b.verified, b.before, w.gate.frame)
      requires if o.stuck then HeldOn(was, w) && b.before == Clock(was, b.trigger) else Advancing(w, AimOf(b, o))
      ensures MayFailCheck(b, o, was)
    {
    }

    method FinishCancel(completed: nat) returns (r: StepResult)
      requires Sound() && frozen && Agrees()
      modifies this
      ensures r == Failed(GenerationStopped) || r == Cancelled(completed)
      ensures Sound() && Alive(r) && (r.Failed? ==> Agrees() && !world.gate.armNext)
      ensures r.Cancelled? ==> Kept(old(world), world) && world.gate.armNext == old(world.gate.armNext)
      ensures r.Cancelled? ==> (Agrees() <==> !(HeldAtGate(world) && old(LatchPending())))
      ensures Onward() && (r.Failed? ==> tally.unmatched > old(tally.unmatched))
      ensures world.frames == old(world.frames) && world.polls == old(world.polls)
      ensures clockSynchronized == old(clockSynchronized) && world.rebase == old(world.rebase)
    {
      var drained := Drain();
      if drained.Unmatched? {
        StopGeneration();
        return Failed(GenerationStopped);
      }
      return Cancelled(completed);
    }

    /**
      A debugger update on the way: a classified breakpoint interrupts. Anything else is to be
      recovered, and that always ends the generation: recovery asks for an update newer than
      the one the thread is stopped at.
    */
    method OnUpdate(b: Boundary, ghost o: Outlook) returns (r: StepResult)
      requires Advancing(world, AimOf(b, o)) && AtDebugStop(world) && Arrivals(world) == o.parks
      requires !framePaused && frozen
      modifies this
      ensures r == Breakpoint(b.index) || r == Failed(NoMatch) || r == Failed(GenerationStopped)
      ensures Onward()
      ensures r.Breakpoint? ==> tally.events > old(tally.events)
      ensures r == Failed(NoMatch) ==> tally.unmatched > old(tally.unmatched)
      ensures r == Failed(GenerationStopped) ==> Abandoned(old(tally), old(now))
      ensures Interrupted(r, b, o) && !world.gate.armNext
      ensures old(ClockKnown()) ==> ClockKnown()
    {
      world := Cancel(world);
      ghost var was := world;
      var drained := Drain();
      if drained.Event? {
        frozen := true;
        framePaused := false;
        return Breakpoint(b.index);
      }
      if drained.Unmatched? {
        return Failed(NoMatch);
      }
      assert StoppedOnTheWay(world, AimOf(b, o));
      var ok := Recover(AimOf(b, o));
      assert !ok;
      return Failed(GenerationStopped);
    }

    /** The wait ran out: recover, and report the boundaries reached if the host budget is spent. */
    method OnExpired(b: Boundary, deadline: nat, ghost o: Outlook) returns (r: StepResult)
      requires Advancing(world, AimOf(b, o)) && Arrivals(world) == o.parks
      modifies this
      ensures r.HostDeadline? || r == Failed(WaitExpired) || r == Failed(GenerationStopped)
      ensures Onward()
      ensures r.HostDeadline? ==> now >= deadline
      ensures r == Failed(WaitExpired) ==> now < deadline
      ensures r == Failed(GenerationStopped) ==> Abandoned(old(tally), old(now))
      ensures Interrupted(r, b, o) && !world.gate.armNext && Agrees()
      ensures old(ClockKnown()) ==> ClockKnown()
    {
      var ok := Recover(AimOf(b, o));
      if !ok {
        return Failed(GenerationStopped);
      }
      ghost var was := world;
      Interfere();
      KeptAlone(was, world);
      if now < deadline {
        return Failed(WaitExpired);
      }
      return HostDeadline(ExpiredCount(world, b.trigger, b.frameBefore));
    }

    /** From the launch on: wait, and either find the thread at the boundary or stop with a result. */
    method AwaitBoundary(b: Boundary, deadline: nat, frameWait: nat, ghost o: Outlook)
      returns (done: bool, r: StepResult, observed: nat)
      requires Awaiting(b, o) && !framePaused && frozen
      modifies this
      ensures done && o.stuck ==> Stuck(r, old(world), b)
      ensures done && !o.stuck ==> Interrupted(r, b, o) && !world.gate.armNext
      ensures done && r.Failed? ==> r.error != Mismatch && !r.error.NotLaunched?
      ensures Onward()
      ensures done ==> Excused(r, old(tally), old(now), deadline, frameWait, MayFailCheck(b, o, old(world)))
      ensures !o.stuck && old(ClockKnown()) ==> ClockKnown()
      ensures !done ==>
        && Awaiting(b, o) && HeldAtGate(world) && 1 <= observed == world.gate.frame
        && (o.stuck ==> HeldOn(old(world), world)) && framePaused == old(framePaused)
        && frozen == old(frozen) && clockSynchronized == old(clockSynchronized)
        && tally.until == (if old(now) + frameWait < deadline then old(now) + frameWait else deadline)
    {
      hide Interrupted, Alive, Agrees, Sound, Advancing, CoreInv, StillAwaited;
      AwaitedInv(world, b, o);
      if now >= deadline {
        r := OnLate(b, o);
        return true, r, 0;
      }
      var out := WaitForGate(if deadline - now < frameWait then deadline - now else frameWait, b.updates);
      Waited(old(world), world, b, o);
      if out.Frame? {
        return false, Failed(NotFrozen), out.number;
      }
      r := OnOther(out, b, deadline, o, old(now), frameWait);
      return true, r, 0;
    }

    /** A wait that did not find a boundary. */
    method OnOther(out: WaitOutcome, b: Boundary, deadline: nat, ghost o: Outlook, ghost start: nat,
                   ghost frameWait: nat)
      returns (r: StepResult)
      requires Awaiting(b, o) && !framePaused && frozen && !out.Frame?
      requires !out.CancelRequested? ==> !world.gate.blocked
      requires out.DebugUpdate? ==> world.gate.debugUpdate > b.updates
      requires out.CancelRequested? ==> cancelled
      requires start <= now && (out.NotStopped? ==> now >= deadline || now >= start + frameWait)
      modifies this
      ensures Onward() && Excused(r, old(tally), start, deadline, frameWait, MayFailCheck(b, o, old(world)))
      ensures o.stuck ==> Stuck(r, old(world), b)
      ensures !o.stuck ==> Interrupted(r, b, o) && !world.gate.armNext
      ensures r.Failed? ==> r.error != Mismatch && !r.error.NotLaunched?
      ensures !o.stuck && old(ClockKnown()) ==> ClockKnown()
    {
      match out {
        case CancelRequested =>
          r := OnCancel(b, o);
        case DebugUpdate(_) =>
          r := OnUpdate(b, o);
        case NotStopped =>
          r := OnExpired(b, deadline, o);
      }
    }

    /** No time is left to wait at all. */
    method OnLate(b: Boundary, ghost o: Outlook) returns (r: StepResult)
      requires Awaiting(b, o)
      modifies this
      ensures r == Failed(WaitExpired) || r == Failed(GenerationStopped)
      ensures Onward() && (r == Failed(GenerationStopped) ==> Abandoned(old(tally), old(now)))
      ensures o.stuck ==> Stuck(r, old(world), b)
      ensures !o.stuck ==> Interrupted(r, b, o) && !world.gate.armNext
      ensures old(ClockKnown()) ==> ClockKnown()
    {
      var ok := Recover(AimOf(b, o));
      r := Failed(if ok then WaitExpired else GenerationStopped);
    }

    /** A step over a barrier that is not on record: nothing moves, whatever is reported. */
    ghost predicate Unreleased(r: StepResult, was: World, b: Boundary)
      reads this
    {
      && world.frames == was.frames && world.polls == was.polls
      && (Sound() <==> r != Failed(NotLaunched(StepRefused))) && Alive(r)
      && (r.Failed? || r == Cancelled(b.index + 1))
      && (r == Cancelled(b.index + 1) ==>
            && Misread(was, b.trigger, b.verified) && world.gate.armNext
            && world.ledger.parks == was.ledger.parks)
      && (r == Failed(Mismatch) ==> !Misread(was, b.trigger, b.verified) && framePaused)
    }

    /** The gate stays armed when the launch fails at the run state, and when it was armed before. */
    ghost predicate ArmAfter(r: StepResult, armed: bool)
      reads this
    {
      world.gate.armNext <==>
        || r == Failed(NotLaunched(RunStateError))
        || (r == Failed(NotLaunched(ArmRefusal)) && armed)
    }

    /** The boundary found is checked, and recorded if it is the next one. */
    method TakeBoundary(b: Boundary, observed: nat, ghost o: Outlook) returns (r: Option<StepError>)
      requires Awaiting(b, o) && HeldAtGate(world) && observed == world.gate.frame && frozen
      modifies this
      ensures r == None || r == Some(Mismatch)
      ensures r == None <==> ValidObserved(b.trigger, b.verified, b.before, observed)
      ensures Sound() && Agrees() && frozen && lastUpdateSeen == old(lastUpdateSeen)
      ensures r == None ==> world == old(world)
      ensures r == None ==> clockSynchronized == (old(clockSynchronized) || b.trigger != NextPoll)
      ensures r.Some? ==> HeldOn(old(world), world) && world.gate.armNext == old(world.gate.armNext)
      ensures r.Some? ==> clockSynchronized == old(clockSynchronized)
      ensures Onward() && (r.Some? ==> MayFailCheck(b, o, old(world)))
    {
      if !ValidObserved(b.trigger, b.verified, b.before, observed) {
        var ok := Recover(AimOf(b, o));
        assert ok;
        return Some(Mismatch);
      }
      if b.trigger != NextPoll {
        clockSynchronized := true;
      }
      framePaused := true;
      return None;
    }

    /** The wait and the check of what it found. */
    method FindBoundary(b: Boundary, deadline: nat, frameWait: nat, ghost o: Outlook)
      returns (done: bool, r: StepResult, observed: nat)
      requires Awaiting(b, o) && !framePaused && frozen
      modifies this
      ensures done && o.stuck ==> Stuck(r, old(world), b)
      ensures done && !o.stuck ==> Interrupted(r, b, o) && !world.gate.armNext
      ensures done && r.Failed? ==> !r.error.NotLaunched?
      ensures Onward()
      ensures done ==> Excused(r, old(tally), old(now), deadline, frameWait, MayFailCheck(b, o, old(world)))
      ensures !o.stuck && old(ClockKnown()) ==> ClockKnown()
      ensures !done ==>
        && Sound() && frozen && framePaused && HeldAtGate(world) && 1 <= observed == world.gate.frame
        && ValidObserved(b.trigger, b.verified, b.before, observed) && Verified(b.trigger)
      ensures !done && o.stuck ==> HeldOn(old(world), world) && world.gate.armNext
      ensures !done && !o.stuck ==>
        Advancing(world, AimOf(b, o)) && Arrivals(world) == o.parks && (LatchPending() <==> o.latch)
    {
      done, r, observed := AwaitBoundary(b, deadline, frameWait, o);
      if !done {
        var error := TakeBoundary(b, observed, o);
        if error.Some? {
          return true, Failed(error.value), 0;
        }
      }
    }

    /** What is known of the machine when a boundary is about to be launched. */
    ghost function OutlookAt(t: Trigger): Outlook
      reads this
    {
      Outlook(Continues(world, t), LatchPending(), world.ledger.parks, !Agrees())
    }

    function BoundaryAt(t: Trigger, index: nat, frameBefore: nat): Boundary
      reads this
    {
      Boundary(t, index, Verified(t), Clock(world, t), world.updates, frameBefore)
    }

    /** The launch, and what its failure leaves. */
    method Depart(b: Boundary, releaseDebugger: bool, ghost o: Outlook) returns (done: bool, r: StepResult)
      requires Ready() && (!framePaused ==> releaseDebugger)
      requires b == BoundaryAt(b.trigger, b.index, b.frameBefore) && o == OutlookAt(b.trigger)
      modifies this`world, this`cancelled, this`now, this`framePaused, this`tally
      ensures Onward()
      ensures done ==> r.Failed? && r.error.NotLaunched? && !r.error.why.Away?
      ensures done ==> LaunchFailed(r.error.why, old(tally), tally, world.paused)
      ensures done && !o.stuck ==> Interrupted(r, b, o) && ArmAfter(r, old(world.gate.armNext))
      ensures done && o.stuck ==> Unreleased(r, old(world), b)
      ensures old(ArmRefused(world.gate)) ==> done && Refused(r, old(world))
      ensures done && r.error.why.ArmRefusal? ==> ArmRefused(world.gate)
      ensures !done ==> Awaiting(b, o) && !framePaused && (o.stuck ==> HeldOn(old(world), world))
      ensures !old(world).rebase ==> !world.rebase
    {
      var launched := Launch(b.trigger, releaseDebugger);
      done, r := !launched.Away?, Failed(NotLaunched(launched));
    }

    /** A gate that is armed already refuses the next launch and keeps the stop. */
    ghost predicate Refused(r: StepResult, was: World)
      reads this
    {
      r == Failed(NotLaunched(ArmRefusal)) && Kept(was, world) && Sound() && frozen
    }

    /**
      One boundary of the step. From a record that is right, a boundary that is reached is the
      next one, and with a known clock it always passes the check against the clock before it.
    */
    method StepBoundary(b: Boundary, releaseDebugger: bool, deadline: nat, frameWait: nat, ghost o: Outlook)
      returns (done: bool, r: StepResult, observed: nat)
      requires Ready() && (!framePaused ==> releaseDebugger)
      requires b == BoundaryAt(b.trigger, b.index, b.frameBefore) && o == OutlookAt(b.trigger)
      modifies this
      ensures done && !o.stuck ==> Interrupted(r, b, o) && ArmAfter(r, old(world.gate.armNext))
      ensures !o.stuck && old(ClockKnown()) ==> ClockKnown() && (done ==> r != Failed(Mismatch))
      ensures Onward()
      ensures done ==> Excused(r, old(tally), old(now), deadline, frameWait, MayFailCheck(b, o, old(world)))
      ensures !done && !o.stuck ==> ReachedNext(observed, b, o)
      ensures !done ==> Ready() && framePaused && HeldAtGate(world)
      ensures !done ==> ValidObserved(b.trigger, b.verified, b.before, observed)
      ensures old(ArmRefused(world.gate)) ==> done && Refused(r, old(world))
      ensures done && o.stuck ==> Unreleased(r, old(world), b)
      ensures !done && o.stuck ==>
        && HeldOn(old(world), world) && world.gate.armNext
        && Misread(old(world), b.trigger, b.verified) && observed == world.gate.frame
    {
      observed := 0;
      done, r := Depart(b, releaseDebugger, o);
      if done {
        return;
      }
      done, r, observed := FindBoundary(b, deadline, frameWait, o);
    }

    /** The thread is held at the next boundary of its kind. */
    ghost predicate ReachedNext(observed: nat, b: Boundary, o: Outlook)
      reads this
    {
      && 1 <= observed == Clock(world, b.trigger) && Continues(world, b.trigger) && Reached(AimOf(b, o), observed)
      && (LatchPending() <==> o.latch) && world.ledger.parks == o.parks + 1
      && !world.gate.armNext && Verified(b.trigger)
      && (b.trigger != NextPoll ==> ClockKnown())
    }

    /** Before the next launch: the machine is still held where the last boundary left it. */
    method BetweenBoundaries(index: nat, deadline: nat) returns (done: bool, r: StepResult)
      requires Ready()
      modifies this`world, this`cancelled, this`now
      ensures Ready() && Kept(old(world), world) && world.gate.armNext == old(world.gate.armNext)
      ensures LatchPending() <==> old(LatchPending())
      ensures Onward()
      ensures done <==> cancelled || (index > 0 && now >= deadline)
      ensures done ==> r == if cancelled then Cancelled(index) else HostDeadline(index)
    {
      Interfere();
      KeptAlone(old(world), world);
      if cancelled {
        return true, Cancelled(index);
      }
      if index > 0 && now >= deadline {
        return true, HostDeadline(index);
      }
      return false, Failed(NotFrozen);
    }

    static predicate EarlyRefusal(r: StepResult) {
      r == Failed(NotFrozen) || r == Failed(BadCount)
    }

    /** The check of some boundary of the step can fail. */
    static predicate MayMismatch(s: Start) {
      if s.agreed then !s.known else !Misread(s.world, s.trigger, s.verified)
    }

    /** What a step that set out with a right record may end in. */
    ghost predicate Honest(r: StepResult, s: Start)
      reads this
    {
      && Sound() && (r == Failed(NotFrozen) || r == Failed(BadCount) || Alive(r))
      && (r.Cancelled? || r.Breakpoint? || r.Completed? ==>
            && Claimed(r, s.count) <= s.count
            && world.ledger.parks == s.world.ledger.parks + Claimed(r, s.count))
      && (Continues(s.world, s.trigger) && s.trigger != ScreenshotCompleted && !r.Failed? ==>
            && Claimed(r, s.count) <= s.count
            && Clock(world, s.trigger) == Clock(s.world, s.trigger) + Claimed(r, s.count)
            && world.ledger.parks == s.world.ledger.parks + Claimed(r, s.count))
      && (!Agrees() ==> r.Cancelled? && HeldAtGate(world) && !framePaused && s.latch)
      && (s.known ==> ClockKnown() && r != Failed(Mismatch))
      && (!s.world.gate.armNext ==> (world.gate.armNext <==> r == Failed(NotLaunched(RunStateError))))
    }

    /** What a step over a barrier that is not on record may end in. */
    ghost predicate Misled(r: StepResult, s: Start)
      reads this
    {
      && world.frames == s.world.frames && world.polls == s.world.polls
      && (Sound() <==> r != Failed(NotLaunched(StepRefused)))
      && (r == Failed(NotFrozen) || r == Failed(BadCount) || Alive(r))
      && (Claimed(r, s.count) > 0 ==> world.ledger.parks == s.world.ledger.parks && world.gate.armNext)
      && (r == Failed(Mismatch) ==> framePaused)
      && (Claimed(r, s.count) > 0 || r == Failed(Mismatch) ==>
            (Claimed(r, s.count) > 0 <==> Misread(s.world, s.trigger, s.verified)))
    }

    ghost predicate Outcome(r: StepResult, s: Start)
      reads this
    {
      if s.agreed then Honest(r, s) else Misled(r, s)
    }

    /** How a step whose record was right at the start stands before its next launch. */
    ghost predicate OnCourse(s: Start, p: Progress)
      reads this
    {
      && Agrees() && (LatchPending() <==> s.latch) && (s.known ==> ClockKnown())
      && world.ledger.parks == s.world.ledger.parks + p.index && p.currentFrame == Clock(world, s.trigger)
      && (p.index == 0 ==> Kept(s.world, world) && world.gate.armNext == s.world.gate.armNext)
      && (p.index == 0 ==> p.frameBefore == Clock(s.world, s.trigger) && Verified(s.trigger) == s.verified)
      && (p.index > 0 ==> !world.gate.armNext && Continues(world, s.trigger) && Verified(s.trigger))
      && (p.index > 0 && s.trigger != ScreenshotCompleted ==> Clock(world, s.trigger) == p.frameBefore + p.index)
      && (Continues(s.world, s.trigger) ==> Continues(world, s.trigger))
      && (Continues(s.world, s.trigger) && s.trigger != ScreenshotCompleted ==>
            && Clock(world, s.trigger) == Clock(s.world, s.trigger) + p.index
            && p.frameBefore == Clock(s.world, s.trigger))
    }

    /** The same over a barrier that is not on record. */
    ghost predicate OffCourse(s: Start, p: Progress)
      reads this
    {
      && HeldOn(s.world, world) && (p.index == 0 ==> !Agrees() && Verified(s.trigger) == s.verified)
      && (p.index > 0 ==>
            p.index == 1 && Agrees() && world.gate.armNext && Misread(s.world, s.trigger, s.verified))
    }

    ghost predicate UnderCourse(s: Start, p: Progress)
      reads this
    {
      && Ready() && p.index <= s.count && (p.index > 0 ==> framePaused)
      && if s.agreed then OnCourse(s, p) else OffCourse(s, p)
    }

    /** An exit in the middle of a boundary, for the step as a whole. */
    lemma ToHonest(r: StepResult, b: Boundary, o: Outlook, s: Start, armed: bool)
      requires Interrupted(r, b, o) && ArmAfter(r, armed) && b.trigger == s.trigger
      requires b.index < s.count && o.parks == s.world.ledger.parks + b.index && (armed ==> s.world.gate.armNext)
      requires Continues(s.world, s.trigger) ==> o.exact
      requires Continues(s.world, s.trigger) && s.trigger != ScreenshotCompleted ==>
        b.before == Clock(s.world, s.trigger) + b.index && b.frameBefore == Clock(s.world, s.trigger)
      requires (s.known ==> ClockKnown() && r != Failed(Mismatch)) && (o.latch ==> s.latch)
      ensures Honest(r, s)
    {
    }

    /** An exit between two boundaries, for the step as a whole. */
    lemma EarlyOutcome(r: StepResult, s: Start, p: Progress)
      requires UnderCourse(s, p) && p.index < s.count
      requires r == Cancelled(p.index) || (r == HostDeadline(p.index) && p.index > 0)
      ensures Outcome(r, s) && Alive(r)
    {
    }

    /** The way from one launch to the next. */
    method NextBoundary(p: Progress, releaseDebugger: bool, t: Trigger, deadline: nat, frameWait: nat, ghost s: Start)
      returns (done: bool, r: StepResult, observed: nat)
      requires UnderCourse(s, p) && p.index < s.count && s.trigger == t && (!framePaused ==> releaseDebugger)
      modifies this
      ensures done ==> Outcome(r, s) && !r.Completed? && Alive(r) && !EarlyRefusal(r)
      ensures Onward() && (done ==> Excused(r, old(tally), old(now), deadline, frameWait, MayMismatch(s)))
      ensures old(cancelled) ==> done && r == Cancelled(p.index)
      ensures !done ==> UnderCourse(s, p.Beyond(observed, p.index > 0 || s.verified))
    {
      observed := 0;
      hide Honest, Misled;
      done, r := BetweenBoundaries(p.index, deadline);
      assert UnderCourse(s, p);
      if done {
        EarlyOutcome(r, s, p);
        return;
      }
      done, r, observed := TakeStep(p, releaseDebugger, t, deadline, frameWait, s);
    }

    /** One boundary, for the step as a whole. */
    method TakeStep(p: Progress, releaseDebugger: bool, t: Trigger, deadline: nat, frameWait: nat, ghost s: Start)
      returns (done: bool, r: StepResult, observed: nat)
      requires UnderCourse(s, p) && p.index < s.count && s.trigger == t && (!framePaused ==> releaseDebugger)
      modifies this
      ensures done ==> Outcome(r, s) && !r.Completed? && Alive(r) && !EarlyRefusal(r)
      ensures Onward() && (done ==> Excused(r, old(tally), old(now), deadline, frameWait, MayMismatch(s)))
      ensures !done ==> UnderCourse(s, p.Beyond(observed, p.index > 0 || s.verified))
    {
      hide Honest, Interrupted, ArmAfter;
      var b := BoundaryAt(t, p.index, p.frameBefore);
      ghost var o, armed := OutlookAt(t), world.gate.armNext;
      done, r, observed := StepBoundary(b, releaseDebugger, deadline, frameWait, o);
      if done && s.agreed {
        ToHonest(r, b, o, s, armed);
      }
    }

    /**
      The step itself. `frameWait` bounds the wait for one boundary.

      Whatever the other thread and the client do meanwhile: if the record of the stop is right
      when the step starts, a completed step has advanced its clock by exactly `count`, every
      successful result leaves the machine recorded as frozen and really stopped, and an
      interrupted step reports exactly the boundaries reached. If it is wrong, nothing moves,
      and boundaries are reported nevertheless exactly if the old one passes for a new one. So
      a completed step is a true one if and only if the barrier that was blocked, if any, was
      on record.
    */
    method StepWithFrameGate(t: Trigger, count: nat, frameWait: nat) returns (r: StepResult)
      requires Sound()
      modifies this
      ensures Outcome(r, old(StartOf(t, count)))
      ensures r.Completed? ==>
        (world.ledger.parks == old(world.ledger.parks) + count <==> old(framePaused || !world.gate.blocked))
      ensures old(Agrees()) && r.Completed? ==> CompletedAt(r, t, count, old(world))
      ensures old(terminal || !frozen || !(world.paused || framePaused)) <==> r == Failed(NotFrozen)
      ensures r == Failed(BadCount) <==> r != Failed(NotFrozen) && !(1 <= count <= 5000)
      ensures r == Failed(NotFrozen) || r == Failed(BadCount) ==>
        && world == old(world) && frozen == old(frozen) && framePaused == old(framePaused)
        && terminal == old(terminal) && lastUpdateSeen == old(lastUpdateSeen)
      ensures Onward()
      ensures Excused(r, old(tally), old(now), old(now) + 250_000, frameWait,
                      MayMismatch(old(StartOf(t, count))))
      ensures old(cancelled) ==> EarlyRefusal(r) || r == Cancelled(0)
    {
      if terminal || !(frozen && (world.paused || framePaused)) {
        return Failed(NotFrozen);
      }
      if !(1 <= count <= MAX_STEP_COUNT) {
        return Failed(BadCount);
      }
      r := StepBoundaries(t, count, frameWait);
    }

    /** The state a step sets out from. */
    ghost function StartOf(t: Trigger, count: nat): Start
      reads this
    {
      Start(t, count, world, LatchPending(), ClockKnown(), Verified(t), Agrees())
    }

    /** What a completed step reports when its record was right. */
    ghost predicate CompletedAt(r: StepResult, t: Trigger, count: nat, was: World)
      requires r.Completed?
      reads this
    {
      && framePaused && HeldAtGate(world) && r.pollsBefore == was.polls && r.pollsAfter == world.polls
      && (t == NextPoll ==> r.pollsAfter == r.pollsBefore + count && r.before == was.frames && r.after == world.frames)
      && (t == NextFrame ==> r.after == world.frames == r.before + count)
      && (t == NextFrame && Continues(was, t) ==> r.before == was.frames)
    }

    /** The boundaries one after the other, each under the deadline of the whole step. */
    method StepBoundaries(t: Trigger, count: nat, frameWait: nat) returns (r: StepResult)
      requires Ready() && 1 <= count
      modifies this
      ensures Alive(r) && Outcome(r, old(StartOf(t, count))) && !EarlyRefusal(r)
      ensures old(cancelled) ==> r == Cancelled(0)
      ensures Onward()
      ensures Excused(r, old(tally), old(now), old(now) + 250_000, frameWait,
                      MayMismatch(old(StartOf(t, count))))
      ensures old(Agrees()) && r.Completed? ==> CompletedAt(r, t, count, old(world))
    {
      ghost var s := StartOf(t, count);
      var publicBefore: nat, pollBefore: nat := world.frames, world.polls;
      var deadline := now + MAX_SYNC_OPERATION_MS;
      var releaseDebugger, verified := !framePaused, Verified(t);
      var p := Progress(0, Clock(world, t), Clock(world, t));
      while p.index < count
        invariant UnderCourse(s, p) && (!framePaused ==> releaseDebugger)
        invariant verified == (p.index > 0 || s.verified) && Onward()
        invariant old(cancelled) ==> p.index == 0
      {
        var done, stop, observed := NextBoundary(p, releaseDebugger, t, deadline, frameWait, s);
        releaseDebugger := false;
        if done {
          return stop;
        }
        p := p.Beyond(observed, verified);
        verified := true;
      }
      frozen := true;
      r := Completed(if t == NextPoll then publicBefore else p.frameBefore,
                     if t == NextPoll then world.frames else p.currentFrame, pollBefore, world.polls);
    }
  }

  /** One round of the step's loop: the kind, what was read before it, and the first clock of the step. */
  datatype Boundary =
    Boundary(trigger: Trigger, index: nat, verified: bool, before: nat, updates: nat, frameBefore: nat)

  /**
    What is known of a round when it begins: `latch` says whether a breakpoint stop was left
    undrained before, and `stuck` whether the barrier is one that will not be let go.
  */
  datatype Outlook = Outlook(exact: bool, latch: bool, parks: nat, stuck: bool)

  function AimOf(b: Boundary, o: Outlook): Aim {
    Aim(b.trigger, b.before, o.exact, b.updates)
  }

  ghost predicate StillAwaited(w: World, b: Boundary, o: Outlook) {
    if o.stuck then CoreInv(w) && HeldAtGate(w) && w.gate.armNext && b.before == Clock(w, b.trigger)
    else Advancing(w, AimOf(b, o))
  }

  lemma AwaitedInv(w: World, b: Boundary, o: Outlook)
    requires StillAwaited(w, b, o)
    ensures CoreInv(w)
  {
  }

  /** What is waited for is still awaited when the core has been left alone. */
  lemma Waited(w: World, v: World, b: Boundary, o: Outlook)
    requires CoreReaches(w, v) && StillAwaited(w, b, o)
    ensures StillAwaited(v, b, o) && Arrivals(v) == Arrivals(w)
    ensures v.gate.blocked ==> HeldAtGate(v) && 1 <= v.gate.frame
    ensures CoreInv(w) && (!o.stuck ==> !v.gate.shutdown) && (o.stuck ==> v.gate.blocked)
    ensures o.stuck ==> HeldOn(w, v)
  {
    if o.stuck {
      KeptAlone(w, v);
    } else {
      NeverPastTheBoundary(w, v, AimOf(b, o));
    }
  }

  /** How far a step has come. */
  datatype Progress = Progress(index: nat, frameBefore: nat, currentFrame: nat) {
    /** One boundary on; one that was reached on an unverified clock is where that clock begins. */
    function Beyond(observed: nat, verified: bool): Progress {
      Progress(index + 1, if verified then frameBefore else SaturatingSub(observed, 1), observed)
    }
  }

  /** The state a step sets out from, and what it is asked for. */
  datatype Start = Start(
    trigger: Trigger,
    count: nat,
    world: World,
    latch: bool,
    known: bool,
    verified: bool,
    agreed: bool)

  /** The boundaries a result reports as reached. */
  function Claimed(r: StepResult, count: nat): nat {
    match r
    case Completed(_, _, _, _) => count
    case Cancelled(n) => n
    case HostDeadline(n) => n
    case Breakpoint(n) => n
    case Failed(_) => 0
  }
}
