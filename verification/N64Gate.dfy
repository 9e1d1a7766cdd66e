/**
  The callback barrier that holds the N64 emulation thread at an exact frame or
  controller-poll boundary.

  Two threads share it. The control thread arms, releases, cancels, resets and shuts the
  gate down; the emulation thread publishes a counter, takes the gate's lock and, when the
  gate is armed for that kind of boundary, parks on the condition variable. Every critical
  section is one atomic step here, so a run is a sequence of steps of either thread.
*/
module N64Gate {

  datatype Trigger = NextFrame | NextPoll | ScreenshotCompleted

  /** The fields guarded by the gate's mutex. */
  datatype Gate = Gate(
    armNext: bool,
    trigger: Trigger,
    blocked: bool,
    shutdown: bool,
    frame: nat,
    debugUpdate: nat,
    resumeHook: bool)

  const INITIAL_GATE := Gate(false, NextFrame, false, false, 0, 0, false)

  /** Where the one emulation thread is. */
  datatype Thread =
    | Running
      // A counter has been published; the gate's lock has not been taken yet.
    | AtBoundary(at: nat, poll: bool)
      // Inside the wait loop; `notified` says that a wakeup is pending.
    | Parked(at: nat, poll: bool, notified: bool)
      // A debugger update is counted but the gate has not been told yet.
    | Updating(update: nat, released: bool)
      // Stopped in the debugger until a debugger step.
    | Halted(released: bool)

  /** What the run has done so far; nothing reads it. */
  datatype Ledger = Ledger(arms: nat, parks: nat, disarms: nat, hookRuns: nat)

  datatype World = World(
    gate: Gate,
    thread: Thread,
    frames: nat,
    polls: nat,
    updates: nat,
    paused: bool,       // the debugger run state is PAUSED
    hit: bool,          // the native breakpoint latch is set
    captured: bool,     // the screenshot result is known
    rebase: bool,       // the next frame number need not continue the previous one
    ledger: Ledger)

  const INITIAL_WORLD :=
    World(INITIAL_GATE, Running, 0, 0, 0, false, false, false, true, Ledger(0, 0, 0, 0))

  // ---------------------------------------------------------------- control thread

  function Notify(t: Thread): Thread {
    if t.Parked? then t.(notified := true) else t
  }

  predicate ArmRefused(g: Gate) {
    g.shutdown || g.armNext
  }

  function Arm(w: World, t: Trigger): World {
    if ArmRefused(w.gate) then w
    else w.(gate := w.gate.(armNext := true, trigger := t),
            ledger := w.ledger.(arms := w.ledger.arms + 1))
  }

  function Disarmed(l: Ledger, g: Gate): Ledger {
    if g.armNext then l.(disarms := l.disarms + 1) else l
  }

  function Release(w: World): World {
    if !w.gate.blocked then w
    else w.(gate := w.gate.(blocked := false), thread := Notify(w.thread))
  }

  function Cancel(w: World): World {
    w.(gate := w.gate.(armNext := false, trigger := NextFrame, blocked := false),
       thread := Notify(w.thread),
       ledger := Disarmed(w.ledger, w.gate))
  }

  /** A verified debugger stop lets the owner drop the arm without waking anybody. */
  function Disarm(w: World): World {
    w.(gate := w.gate.(armNext := false, trigger := NextFrame),
       ledger := Disarmed(w.ledger, w.gate))
  }

  function Reset(w: World): World {
    w.(gate := INITIAL_GATE,
       thread := Notify(w.thread),
       ledger := Disarmed(w.ledger, w.gate))
  }

  function Shutdown(w: World): World {
    w.(gate := w.gate.(armNext := false, trigger := NextFrame, blocked := false,
                       shutdown := true, resumeHook := false),
       thread := Notify(w.thread),
       ledger := Disarmed(w.ledger, w.gate))
  }

  function SetHook(w: World): World {
    w.(gate := w.gate.(resumeHook := true))
  }

  function SetPaused(w: World, paused: bool): World {
    w.(paused := paused)
  }

  predicate AtDebugStop(w: World) {
    (w.thread.Updating? || w.thread.Halted?) && !w.thread.released
  }

  /** A debugger step lets a thread that is stopped in the debugger go on. */
  function DebugStep(w: World): World {
    match w.thread
    case Updating(u, _) => w.(thread := Updating(u, true))
    case Halted(_) => w.(thread := Halted(true))
    case _ => w
  }

  function ConsumeLatch(w: World): World {
    w.(hit := false)
  }

  datatype Control =
    | DoArm(trigger: Trigger)
    | DoRelease
    | DoCancel
    | DoDisarm
    | DoReset
    | DoShutdown
    | DoSetHook
    | DoSetPaused(paused: bool)
    | DoDebugStep
    | DoConsume
    | DoAwaitCapture
    | DoRebase

  function ControlNext(w: World, c: Control): World {
    match c
    case DoArm(t) => Arm(w, t)
    case DoRelease => Release(w)
    case DoCancel => Cancel(w)
    case DoDisarm => Disarm(w)
    case DoReset => Reset(w)
    case DoShutdown => Shutdown(w)
    case DoSetHook => SetHook(w)
    case DoSetPaused(p) => SetPaused(w, p)
    case DoDebugStep => DebugStep(w)
    case DoConsume => ConsumeLatch(w)
    case DoAwaitCapture => w.(captured := false)
    case DoRebase => w.(rebase := true)
  }

  // -------------------------------------------------------------- emulation thread

  datatype CoreStep =
    | PublishFrame(number: nat)
    | PublishPoll
    | EnterGate
    | WakeUp
    | CountUpdate(breakpoint: bool)
    | TellGate
    | Leave
    | Capture

  predicate CoreEnabled(w: World, s: CoreStep) {
    match s
    case PublishFrame(n) => w.thread.Running? && 1 <= n && (n == w.frames + 1 || w.rebase)
    case PublishPoll => w.thread.Running?
    case EnterGate => w.thread.AtBoundary?
    case WakeUp => w.thread.Parked? && w.thread.notified
    case CountUpdate(breakpoint) => w.thread.Running? && (w.paused || breakpoint)
    case TellGate => w.thread.Updating?
    case Leave => w.thread.Halted? && w.thread.released
    case Capture => w.thread.Running?
  }

  predicate TriggerReached(w: World, poll: bool) {
    match w.gate.trigger
    case NextFrame => !poll
    case NextPoll => poll
    case ScreenshotCompleted => !poll && w.captured
  }

  predicate Parks(w: World, poll: bool) {
    w.gate.armNext && TriggerReached(w, poll) && !w.gate.shutdown
  }

  function CoreNext(w: World, s: CoreStep): World
    requires CoreEnabled(w, s)
  {
    match s
    case PublishFrame(n) =>
      w.(frames := n, rebase := false, thread := AtBoundary(n, false))
    case PublishPoll =>
      w.(polls := w.polls + 1, thread := AtBoundary(w.polls + 1, true))
    case EnterGate =>
      if Parks(w, w.thread.poll) then
        w.(gate := w.gate.(armNext := false, trigger := NextFrame, blocked := true, frame := w.thread.at),
           thread := Parked(w.thread.at, w.thread.poll, false),
           ledger := w.ledger.(parks := w.ledger.parks + 1))
      else
        w.(thread := Running)
    case WakeUp =>
      if w.gate.blocked && !w.gate.shutdown then
        w.(thread := w.thread.(notified := false))
      else
        w.(thread := Running,
           ledger := if w.gate.resumeHook then w.ledger.(hookRuns := w.ledger.hookRuns + 1) else w.ledger)
    case CountUpdate(breakpoint) =>
      w.(updates := w.updates + 1, paused := true, hit := w.hit || breakpoint,
         thread := Updating(w.updates + 1, false))
    case TellGate =>
      w.(gate := w.gate.(debugUpdate := w.thread.update), thread := Halted(w.thread.released))
    case Leave =>
      w.(thread := Running)
    case Capture =>
      w.(captured := true)
  }

  // ------------------------------------------------------------------- whole runs

  datatype Step = ByControl(control: Control) | ByCore(core: CoreStep)

  predicate Enabled(w: World, s: Step) {
    s.ByCore? ==> CoreEnabled(w, s.core)
  }

  function Next(w: World, s: Step): World
    requires Enabled(w, s)
  {
    match s
    case ByControl(c) => ControlNext(w, c)
    case ByCore(c) => CoreNext(w, c)
  }

  predicate IsRun(w: World, run: seq<Step>)
    decreases |run|
  {
    run == [] || (Enabled(w, run[0]) && IsRun(Next(w, run[0]), run[1..]))
  }

  function After(w: World, run: seq<Step>): World
    requires IsRun(w, run)
    decreases |run|
  {
    if run == [] then w else After(Next(w, run[0]), run[1..])
  }

  /** The gate's promise about the parked thread, its wakeups and its arms. */
  ghost predicate GateInv(w: World) {
    && (w.gate.blocked ==> w.thread.Parked? && w.thread.at == w.gate.frame && !w.gate.shutdown)
    && (w.thread.Parked? && !w.gate.blocked ==> w.thread.notified)
    && (w.gate.shutdown ==> !w.gate.armNext)
    && (w.thread.AtBoundary? || w.thread.Parked? ==>
          1 <= w.thread.at == if w.thread.poll then w.polls else w.frames)
    && w.ledger.arms == w.ledger.parks + w.ledger.disarms + (if w.gate.armNext then 1 else 0)
  }

  lemma GateInvControl(w: World, c: Control)
    requires GateInv(w)
    ensures GateInv(ControlNext(w, c))
  {
    match c
    case DoArm(_) =>
    case DoRelease =>
    case DoCancel =>
    case DoDisarm =>
    case DoReset =>
    case DoShutdown =>
    case DoSetHook =>
    case DoSetPaused(_) =>
    case DoDebugStep =>
    case DoConsume =>
    case DoAwaitCapture =>
    case DoRebase =>
  }

  lemma GateInvCore(w: World, s: CoreStep)
    requires GateInv(w) && CoreEnabled(w, s)
    ensures GateInv(CoreNext(w, s))
  {
    match s
    case PublishFrame(_) =>
    case PublishPoll =>
    case EnterGate =>
    case WakeUp =>
    case CountUpdate(_) =>
    case TellGate =>
    case Leave =>
    case Capture =>
  }

  lemma GateInvStep(w: World, s: Step)
    requires GateInv(w) && Enabled(w, s)
    ensures GateInv(Next(w, s))
  {
    match s
    case ByControl(c) => GateInvControl(w, c);
    case ByCore(c) => GateInvCore(w, c);
  }

  /**
    In every reachable state a blocked gate holds a thread parked at the gate's own frame
    number, a parked thread that nobody holds any more has its wakeup pending, and every
    accepted arm was consumed by exactly one park, dropped once, or is still outstanding.
  */
  lemma {:induction false} GateSafeInEveryRun(run: seq<Step>)
    requires IsRun(INITIAL_WORLD, run)
    ensures var w := After(INITIAL_WORLD, run);
      && (w.gate.blocked ==> w.thread.Parked? && w.thread.at == w.gate.frame)
      && (w.thread.Parked? && (!w.gate.blocked || w.gate.shutdown) ==> w.thread.notified)
      && w.ledger.arms == w.ledger.parks + w.ledger.disarms + (if w.gate.armNext then 1 else 0)
      && w.ledger.parks <= w.ledger.arms
  {
    GateInvRun(INITIAL_WORLD, run);
  }

  lemma {:induction false} GateInvRun(w: World, run: seq<Step>)
    requires GateInv(w) && IsRun(w, run)
    ensures GateInv(After(w, run))
    decreases |run|
  {
    if run != [] {
      GateInvStep(w, run[0]);
      GateInvRun(Next(w, run[0]), run[1..]);
    }
  }

  /** A step parks the thread only by consuming an arm at a boundary of the armed kind. */
  lemma ParkConsumesItsOwnArm(w: World, s: Step)
    requires GateInv(w) && Enabled(w, s)
    requires Next(w, s).ledger.parks != w.ledger.parks
    ensures s == ByCore(EnterGate) && w.gate.armNext && !Next(w, s).gate.armNext
    ensures w.thread.poll <==> w.gate.trigger == NextPoll
    ensures Next(w, s).gate.frame == if w.thread.poll then w.polls else w.frames
    ensures Next(w, s).ledger.parks == w.ledger.parks + 1
  {
    match s
    case ByControl(c) =>
      match c {
        case DoArm(_) =>
        case DoCancel =>
        case _ =>
      }
    case ByCore(c) =>
  }

  /**
    At a boundary the thread parks exactly if the gate is armed for that kind of boundary, and
    for a screenshot only once its result is known; else it runs on and the gate is untouched.
  */
  lemma BoundaryParksIff(w: World)
    requires w.thread.AtBoundary?
    ensures var v := CoreNext(w, EnterGate);
      && (v.thread.Parked? <==>
            && w.gate.armNext && !w.gate.shutdown && (w.gate.trigger == NextPoll <==> w.thread.poll)
            && (w.gate.trigger == ScreenshotCompleted ==> w.captured))
      && (v.thread.Parked? ==> v.gate.blocked && v.gate.frame == v.thread.at == w.thread.at && !v.gate.armNext)
      && (!v.thread.Parked? ==> v == w.(thread := Running))
  {
  }

  /** A screenshot that is awaited anew holds no frame before its result is there. */
  lemma AwaitedCaptureHoldsNothing(w: World, number: nat)
    requires w.thread.Running? && w.gate.armNext && w.gate.trigger == ScreenshotCompleted
    requires CoreEnabled(w, PublishFrame(number))
    ensures var v := CoreNext(ControlNext(w, DoAwaitCapture), PublishFrame(number));
      CoreNext(v, EnterGate).thread.Running? && CoreNext(v, EnterGate).gate.armNext
    ensures var v := CoreNext(CoreNext(w, Capture), PublishFrame(number));
      !w.gate.shutdown ==> CoreNext(v, EnterGate).thread.Parked?
  {
  }

  /** A thread that was woken leaves exactly if nothing holds it; a spurious wakeup changes nothing else. */
  lemma WakesIffLetGo(w: World)
    requires w.thread.Parked? && w.thread.notified
    ensures var v := CoreNext(w, WakeUp);
      && (v.thread.Running? <==> !w.gate.blocked || w.gate.shutdown) && v.gate == w.gate
      && (!v.thread.Running? ==> v == w.(thread := w.thread.(notified := false)))
  {
  }

  /** The gate is shut down, and has counted so many arms and parks. */
  predicate ShutAt(w: World, arms: nat, parks: nat) {
    w.gate.shutdown && w.ledger.arms == arms && w.ledger.parks == parks
  }

  lemma ShutControl(w: World, c: Control, arms: nat, parks: nat)
    requires ShutAt(w, arms, parks) && c != DoReset
    ensures ShutAt(ControlNext(w, c), arms, parks)
  {
    match c
    case DoArm(_) =>
    case DoRelease =>
    case DoCancel =>
    case DoDisarm =>
    case DoShutdown =>
    case _ =>
  }

  lemma ShutCore(w: World, s: CoreStep, arms: nat, parks: nat)
    requires ShutAt(w, arms, parks) && CoreEnabled(w, s)
    ensures ShutAt(CoreNext(w, s), arms, parks)
  {
  }

  /** Once the gate is shut down, nothing parks and nothing is armed until it is reset. */
  lemma {:induction false} ShutdownIsFinal(w: World, run: seq<Step>)
    requires w.gate.shutdown && IsRun(w, run) && ByControl(DoReset) !in run
    ensures ShutAt(After(w, run), w.ledger.arms, w.ledger.parks)
    decreases |run|
  {
    hide ControlNext, CoreNext;
    if run != [] {
      match run[0] {
        case ByControl(c) => ShutControl(w, c, w.ledger.arms, w.ledger.parks);
        case ByCore(c) => ShutCore(w, c, w.ledger.arms, w.ledger.parks);
      }
      ShutdownIsFinal(Next(w, run[0]), run[1..]);
    }
  }

  /** A shutdown lets everything go for good; a reset leaves the gate as it was in the beginning. */
  lemma ShutdownAndReset(w: World)
    ensures var g := Shutdown(w).gate; g.shutdown && !g.armNext && !g.blocked && !g.resumeHook
    ensures Reset(w).gate == Gate(false, NextFrame, false, false, 0, 0, false)
    ensures w.thread.Parked? ==> Shutdown(w).thread.notified && Reset(w).thread.notified
  {
  }

  // --------------------------------------------------------------- the resume hook

  /** `run` starts with the thread parked, keeps it parked, and its last step lets it go. */
  ghost predicate EndsPark(w: World, run: seq<Step>)
    decreases |run|
  {
    && w.thread.Parked? && run != [] && Enabled(w, run[0])
    && var next := Next(w, run[0]);
       if |run| == 1 then !next.thread.Parked? else EndsPark(next, run[1..])
  }

  lemma {:induction false} EndsParkIsRun(w: World, run: seq<Step>)
    requires EndsPark(w, run)
    ensures IsRun(w, run)
    decreases |run|
  {
    if |run| > 1 {
      EndsParkIsRun(Next(w, run[0]), run[1..]);
    }
  }

  predicate DropsHook(s: Step) {
    s == ByControl(DoReset) || s == ByControl(DoShutdown)
  }

  /** Whether the hook is installed once the given steps have been taken. */
  function HookInstalled(hook: bool, run: seq<Step>): bool
    decreases |run|
  {
    if run == [] then hook else HookInstalled(HookStep(hook, run[0]), run[1..])
  }

  function HookStep(hook: bool, s: Step): bool {
    !DropsHook(s) && (hook || s == ByControl(DoSetHook))
  }

  lemma HookUnderControl(w: World, c: Control)
    requires w.thread.Parked?
    ensures var next := ControlNext(w, c);
      && next.thread.Parked? && next.ledger.hookRuns == w.ledger.hookRuns
      && next.gate.resumeHook == HookStep(w.gate.resumeHook, ByControl(c))
  {
    match c
    case DoArm(_) =>
    case DoRelease =>
    case DoCancel =>
    case DoReset =>
    case DoShutdown =>
    case _ =>
  }

  lemma HookWhileParked(w: World, s: Step)
    requires w.thread.Parked? && Enabled(w, s)
    ensures Next(w, s).gate.resumeHook == HookStep(w.gate.resumeHook, s)
    ensures Next(w, s).thread.Parked? ==> Next(w, s).ledger.hookRuns == w.ledger.hookRuns
    ensures !Next(w, s).thread.Parked? ==>
      && s == ByCore(WakeUp)
      && Next(w, s).ledger.hookRuns == w.ledger.hookRuns + (if w.gate.resumeHook then 1 else 0)
  {
    match s
    case ByControl(c) => HookUnderControl(w, c);
    case ByCore(c) => ParkedOnlyWakes(w, c);
  }

  lemma ParkedOnlyWakes(w: World, c: CoreStep)
    requires w.thread.Parked? && CoreEnabled(w, c)
    ensures c == WakeUp
  {
  }

  /**
    However a park ends, and whatever the control thread does meanwhile, the resume hook
    runs once for it exactly when the hook is installed when the thread leaves.
  */
  lemma {:induction false} HookRunsForPark(w: World, run: seq<Step>)
    requires EndsPark(w, run)
    ensures IsRun(w, run)
    ensures After(w, run).ledger.hookRuns
         == w.ledger.hookRuns + (if HookInstalled(w.gate.resumeHook, run) then 1 else 0)
    decreases |run|
  {
    EndsParkIsRun(w, run);
    HookWhileParked(w, run[0]);
    if |run| > 1 {
      HookRunsForPark(Next(w, run[0]), run[1..]);
    } else {
      assert After(Next(w, run[0]), run[1..]) == Next(w, run[0]);
    }
  }

  lemma {:induction false} HookDroppedForGood(hook: bool, run: seq<Step>)
    requires ByControl(DoSetHook) !in run
    ensures HookInstalled(hook, run) <==> hook && forall s :: s in run ==> !DropsHook(s)
    decreases |run|
  {
    if run != [] {
      HookDroppedForGood(hook && !DropsHook(run[0]), run[1..]);
      assert run == [run[0]] + run[1..];
    }
  }

  /**
    For an installed hook that nobody reinstalls during the park: it runs exactly once if no
    reset and no shutdown happens before the thread leaves, and not at all otherwise.
  */
  lemma HookRunsUnlessDropped(w: World, run: seq<Step>)
    requires EndsPark(w, run) && w.gate.resumeHook && ByControl(DoSetHook) !in run
    ensures IsRun(w, run)
    ensures After(w, run).ledger.hookRuns == w.ledger.hookRuns
         || After(w, run).ledger.hookRuns == w.ledger.hookRuns + 1
    ensures After(w, run).ledger.hookRuns == w.ledger.hookRuns + 1
       <==> forall s :: s in run ==> !DropsHook(s)
  {
    HookRunsForPark(w, run);
    HookDroppedForGood(w.gate.resumeHook, run);
  }

  // ---------------------------------------------------------------- reachable states

  lemma {:induction false} RunSnoc(w: World, run: seq<Step>, s: Step)
    requires IsRun(w, run) && Enabled(After(w, run), s)
    ensures IsRun(w, run + [s]) && After(w, run + [s]) == Next(After(w, run), s)
    decreases |run|
  {
    if run == [] {
      assert run + [s] == [s] && [s][1..] == [];
    } else {
      RunSnoc(Next(w, run[0]), run[1..], s);
      assert (run + [s])[1..] == run[1..] + [s];
    }
  }

  ghost predicate Reachable(w: World) {
    exists run: seq<Step> :: IsRun(INITIAL_WORLD, run) && After(INITIAL_WORLD, run) == w
  }

  lemma ReachInitial()
    ensures Reachable(INITIAL_WORLD)
  {
    assert IsRun(INITIAL_WORLD, []) && After(INITIAL_WORLD, []) == INITIAL_WORLD;
  }

  lemma Reach(w: World, s: Step)
    requires Reachable(w) && Enabled(w, s)
    ensures Reachable(Next(w, s))
  {
    var run: seq<Step> :| IsRun(INITIAL_WORLD, run) && After(INITIAL_WORLD, run) == w;
    RunSnoc(INITIAL_WORLD, run, s);
  }

  /** A reachable park with the hook installed. */
  lemma ParkWithHook() returns (w: World)
    ensures Reachable(w) && w.thread.Parked? && w.gate.blocked && w.gate.resumeHook
  {
    ReachInitial();
    var w1 := SetHook(INITIAL_WORLD);
    Reach(INITIAL_WORLD, ByControl(DoSetHook));
    var w2 := Arm(w1, NextFrame);
    Reach(w1, ByControl(DoArm(NextFrame)));
    var w3 := CoreNext(w2, PublishFrame(1));
    Reach(w2, ByCore(PublishFrame(1)));
    w := CoreNext(w3, EnterGate);
    Reach(w3, ByCore(EnterGate));
  }

  /**
    A park that a release ended need not run the hook: the shutdown that overtakes the
    woken thread has already dropped it.
  */
  lemma ReleasedParkMayMissHook()
    ensures exists w: World, run: seq<Step> ::
      && Reachable(w) && w.gate.resumeHook && EndsPark(w, run) && IsRun(w, run)
      && run[0] == ByControl(DoRelease) && w.gate.blocked && !Next(w, run[0]).gate.blocked
      && After(w, run).ledger.hookRuns == w.ledger.hookRuns
  {
    var w := ParkWithHook();
    var run := [ByControl(DoRelease), ByControl(DoShutdown), ByCore(WakeUp)];
    var w1 := Next(w, run[0]);
    var w2 := Next(w1, run[1]);
    assert run[1..] == [run[1], run[2]] && run[1..][1..] == [run[2]];
    assert EndsPark(w2, [run[2]]);
    assert EndsPark(w1, run[1..]);
    assert EndsPark(w, run);
    HookRunsForPark(w, run);
    assert HookInstalled(false, [run[2]]) == HookInstalled(false, []);
    assert HookInstalled(true, run[1..]) == HookInstalled(false, [run[2]]);
    assert HookInstalled(true, run) == HookInstalled(true, run[1..]);
  }
}
