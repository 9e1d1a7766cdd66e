/** Pausing and resuming the N64 machine, from any state and against a running core. */
module N64Control {
  import opened N64Gate
  import opened N64Step

  // ------------------------------------------------------------ where a stop can be seen

  /** The debugger updates counted when the last debugger step was given, or `last` before any. */
  ghost function SteppedAt(w: World, run: seq<Step>, last: nat): nat
    requires IsRun(w, run)
    decreases |run|
  {
    if run == [] then last
    else SteppedAt(Next(w, run[0]), run[1..], if run[0] == ByControl(DoDebugStep) then w.updates else last)
  }

  /** A debugger stop shows in the count of updates, compared with that of the last step. */
  ghost predicate Shows(w: World, last: nat) {
    GateInv(w) && last <= w.updates && (AtDebugStop(w) <==> w.updates > last)
  }

  lemma ShowsControl(w: World, c: Control, last: nat)
    requires Shows(w, last)
    ensures Shows(ControlNext(w, c), if c == DoDebugStep then w.updates else last)
  {
    GateInvControl(w, c);
    match c
    case DoArm(_) =>
    case DoRelease =>
    case DoDebugStep =>
    case _ =>
  }

  lemma ShowsCore(w: World, s: CoreStep, last: nat)
    requires Shows(w, last) && CoreEnabled(w, s)
    ensures Shows(CoreNext(w, s), last)
  {
    GateInvCore(w, s);
  }

  lemma {:induction false} ShowsRun(w: World, run: seq<Step>, last: nat)
    requires Shows(w, last) && IsRun(w, run)
    ensures Shows(After(w, run), SteppedAt(w, run, last))
    decreases |run|
  {
    if run != [] {
      match run[0]
      case ByControl(c) =>
        ShowsControl(w, c, last);
        ShowsRun(ControlNext(w, c), run[1..], if c == DoDebugStep then w.updates else last);
      case ByCore(s) =>
        ShowsCore(w, s, last);
        ShowsRun(CoreNext(w, s), run[1..], last);
    }
  }

  // ------------------------------------------------------------- the verdict of a pause

  /** A latched breakpoint that the adapter has not looked at. */
  predicate Latched(w: World, lastSeen: nat) {
    lastSeen < w.updates && w.hit
  }

  datatype Verdict = StopClaimed | MustAsk

  /** A pause takes the stop for given, or asks for one and waits until it is there. */
  function PauseVerdict(w: World, lastSeen: nat, framePaused: bool): Verdict {
    if Latched(w, lastSeen) || TakenForStopped(w, framePaused) then StopClaimed else MustAsk
  }

  predicate TakenForStopped(w: World, framePaused: bool) {
    framePaused || w.paused
  }

  predicate StopVisible(w: World, steppedAt: nat) {
    w.gate.blocked || w.updates > steppedAt
  }

  /**
    In every run the machine is stopped if and only if the gate is blocked or an update has
    been counted since the last debugger step: two numbers and a flag the control side can
    read. So that is exactly when the claim of a pause is true.
  */
  lemma PauseVerdictTruth(run: seq<Step>, lastSeen: nat, framePaused: bool)
    requires IsRun(INITIAL_WORLD, run)
    ensures var w := After(INITIAL_WORLD, run);
      && (Stopped(w) <==> StopVisible(w, SteppedAt(INITIAL_WORLD, run, 0)))
      && ((PauseVerdict(w, lastSeen, framePaused).StopClaimed? ==> Stopped(w)) <==>
          (PauseVerdict(w, lastSeen, framePaused).StopClaimed? ==> StopVisible(w, SteppedAt(INITIAL_WORLD, run, 0))))
  {
    ShowsRun(INITIAL_WORLD, run, 0);
  }

  ghost predicate Lies(w: World, lastSeen: nat, framePaused: bool) {
    PauseVerdict(w, lastSeen, framePaused).StopClaimed? && !Stopped(w)
  }

  /** After a pause that nobody answered in time, the next pause claims a stop that is not there. */
  lemma UnansweredPauseLies()
    ensures exists run: seq<Step> ::
      && IsRun(INITIAL_WORLD, run) && run == [ByControl(DoSetPaused(true))]
      && PauseVerdict(INITIAL_WORLD, 0, false).MustAsk? && Lies(After(INITIAL_WORLD, run), 0, false)
  {
    var run := [ByControl(DoSetPaused(true))];
    assert run[1..] == [];
    assert IsRun(INITIAL_WORLD, run) && After(INITIAL_WORLD, run) == SetPaused(INITIAL_WORLD, true);
  }

  /** The two commands by which a running machine is resumed once more. */
  predicate ResumesRunning(s: Step) {
    s.ByControl? ==> s.control == DoSetPaused(false) || s.control == DoDebugStep
  }

  /**
    A breakpoint that stops a running machine while it is being resumed is let go unread, and
    its latch makes the next pause claim a stop that is over.
  */
  lemma ResumeRaceLies()
    ensures exists run: seq<Step> ::
      && IsRun(INITIAL_WORLD, run) && (forall s :: s in run ==> ResumesRunning(s))
      && !After(INITIAL_WORLD, run).paused && Lies(After(INITIAL_WORLD, run), 0, false)
  {
    var run := [ByCore(CountUpdate(true)), ByCore(TellGate), ByControl(DoSetPaused(false)), ByControl(DoDebugStep),
                ByCore(Leave)];
    var w2 := Next(Next(INITIAL_WORLD, run[0]), run[1]);
    var w4 := Next(Next(w2, run[2]), run[3]);
    OneByOne(w4, run[4..]);
    TwoByTwo(w2, run[2..]);
    assert run[2..][2..] == run[4..];
    TwoByTwo(INITIAL_WORLD, run);
    assert IsRun(INITIAL_WORLD, run) && After(INITIAL_WORLD, run) == Next(w4, run[4]);
  }

  lemma OneByOne(w: World, run: seq<Step>)
    requires |run| == 1 && Enabled(w, run[0])
    ensures IsRun(w, run) && After(w, run) == Next(w, run[0])
  {
    assert run[1..] == [];
  }

  lemma TwoByTwo(w: World, run: seq<Step>)
    requires |run| >= 2 && Enabled(w, run[0]) && Enabled(Next(w, run[0]), run[1])
    requires IsRun(Next(Next(w, run[0]), run[1]), run[2..])
    ensures IsRun(w, run) && After(w, run) == After(Next(Next(w, run[0]), run[1]), run[2..])
  {
    assert run[1..][1..] == run[2..] && run[1..][0] == run[1];
    assert IsRun(Next(w, run[0]), run[1..]);
  }

  // --------------------------------------------------------------- what the core keeps

  /** The run state does not say PAUSED of a thread that runs. */
  ghost predicate PausedTrue(w: World) {
    w.paused ==> Stopped(w)
  }

  /** An unread latch does not speak of a stop that is over. */
  ghost predicate LatchTrue(w: World, lastSeen: nat) {
    Latched(w, lastSeen) ==> Stopped(w)
  }

  lemma TruthStep(w: World, s: CoreStep, lastSeen: nat)
    requires CoreInv(w) && CoreEnabled(w, s)
    ensures PausedTrue(w) ==> PausedTrue(CoreNext(w, s))
    ensures LatchTrue(w, lastSeen) ==> LatchTrue(CoreNext(w, s), lastSeen)
    ensures CoreNext(w, s).updates >= w.updates && (CoreNext(w, s).updates > w.updates ==> AtDebugStop(CoreNext(w, s)))
  {
    if Stopped(w) {
      StopHolds(w, s);
    }
  }

  lemma {:induction false} TruthRun(w: World, run: seq<CoreStep>, lastSeen: nat)
    requires CoreInv(w) && IsCoreRun(w, run)
    ensures var v := CoreAfter(w, run);
      && CoreInv(v) && (PausedTrue(w) ==> PausedTrue(v)) && (LatchTrue(w, lastSeen) ==> LatchTrue(v, lastSeen))
      && v.updates >= w.updates && (v.updates > w.updates ==> AtDebugStop(v))
    decreases |run|
  {
    if run != [] {
      var next := CoreNext(w, run[0]);
      CoreInvStep(w, run[0]);
      TruthStep(w, run[0], lastSeen);
      TruthRun(next, run[1..], lastSeen);
      if next.updates > w.updates {
        StopHoldsRun(next, run[1..]);
      }
    }
  }

  /** What a machine left alone keeps: its invariant, a stop, and true signs of one. */
  lemma LeftAlone(w: World, v: World, lastSeen: nat)
    requires CoreInv(w) && CoreReaches(w, v)
    ensures CoreInv(v)
    ensures PausedTrue(w) ==> PausedTrue(v)
    ensures LatchTrue(w, lastSeen) ==> LatchTrue(v, lastSeen)
    ensures Stopped(w) ==> SameStop(w, v)
    ensures v.updates >= w.updates && (v.updates > w.updates ==> AtDebugStop(v))
  {
    var run: seq<CoreStep> :| IsCoreRun(w, run) && CoreAfter(w, run) == v;
    TruthRun(w, run, lastSeen);
    if Stopped(w) {
      StopHoldsRun(w, run);
    }
  }

  // -------------------------------------------------------------------------- the methods

  const OPERATION_MS: nat := 3000

  /** The stop is the one it was, and nothing else has moved. */
  ghost predicate StillStopped(w: World, v: World) {
    && (HeldAtGate(w) ==> HeldAtGate(v)) && (AtDebugStop(w) ==> AtDebugStop(v))
    && v.paused == w.paused && v.updates == w.updates && v.gate.armNext == w.gate.armNext
    && v.gate.trigger == w.gate.trigger && v.gate.shutdown == w.gate.shutdown
  }

  /** Looks for a breakpoint, whether or not the machine is stopped. */
  method DrainAny(h: Host) returns (r: Drained)
    requires h.Sound()
    modifies h`world, h`cancelled, h`now, h`frozen, h`framePaused, h`lastUpdateSeen, h`tally
    ensures CoreInv(h.world) && (h.framePaused ==> HeldAtGate(h.world))
    ensures h.tally == Classified(old(h.tally), r) && old(h.now) <= h.now
    ensures h.lastUpdateSeen ==
      if old(h.lastUpdateSeen) < h.world.updates then h.world.updates else old(h.lastUpdateSeen)
    ensures r.Nothing? ==> h.Sound() && h.frozen == old(h.frozen) && h.framePaused == old(h.framePaused)
    ensures !r.Nothing? ==> h.frozen && !h.framePaused
    ensures !Latched(h.world, h.lastUpdateSeen)
    ensures old(PausedTrue(h.world)) ==> PausedTrue(h.world)
    ensures old(LatchTrue(h.world, h.lastUpdateSeen)) ==> h.Sound() && (!r.Nothing? ==> Stopped(h.world))
    ensures old(Stopped(h.world)) ==>
      && StillStopped(old(h.world), h.world) && (r.Nothing? <==> !old(Latched(h.world, h.lastUpdateSeen)))
  {
    h.Interfere();
    LeftAlone(old(h.world), h.world, h.lastUpdateSeen);
    if h.world.updates <= h.lastUpdateSeen {
      return Nothing;
    }
    var hit := h.world.hit;
    h.world := ConsumeLatch(h.world);
    h.lastUpdateSeen := h.world.updates;
    if !hit {
      return Nothing;
    }
    h.frozen := true;
    h.framePaused := false;
    r := h.Classify();
  }

  datatype PauseResult = Paused | AtBreakpoint | NotReady | NoMatchingRecord | NotAsked | TimedOut

  predicate ClaimsStop(r: PauseResult) {
    r.Paused? || r.AtBreakpoint?
  }

  /** Waits for an update newer than `before` while the run state is PAUSED. */
  method AwaitUpdate(h: Host, before: nat) returns (ok: bool)
    requires h.Sound() && before <= h.world.updates && (h.world.updates > before ==> AtDebugStop(h.world))
    modifies h`world, h`cancelled, h`now
    ensures h.Sound() && (ok ==> AtDebugStop(h.world)) && (!ok ==> h.now >= old(h.now) + 3000)
    ensures old(h.world.paused) ==> h.world.paused
    ensures !ok ==> h.world.updates <= before || !h.world.paused
    ensures old(LatchTrue(h.world, h.lastUpdateSeen)) ==> LatchTrue(h.world, h.lastUpdateSeen)
  {
    var deadline := h.now + OPERATION_MS;
    while true
      invariant h.Sound() && before <= h.world.updates && (h.world.updates > before ==> AtDebugStop(h.world))
      invariant h.frozen == old(h.frozen) && h.framePaused == old(h.framePaused) && old(h.now) <= h.now
      invariant old(h.world.paused) ==> h.world.paused
      invariant old(LatchTrue(h.world, h.lastUpdateSeen)) ==> LatchTrue(h.world, h.lastUpdateSeen)
      decreases deadline - h.now
    {
      ghost var was := h.world;
      h.Interfere();
      LeftAlone(was, h.world, h.lastUpdateSeen);
      if h.world.updates > before && h.world.paused {
        return true;
      }
      if h.now >= deadline {
        return false;
      }
      h.now := h.now + 1;
    }
  }

  /** Asks for a stop and waits for the update that proves it. */
  method AskForStop(h: Host) returns (r: PauseResult)
    requires h.Sound() && !h.framePaused
    modifies h`world, h`cancelled, h`now, h`frozen, h`tally
    ensures r.Paused? || r.NotAsked? || r.TimedOut?
    ensures r.NotAsked? ==> h.tally.refusals > old(h.tally.refusals)
    ensures r.TimedOut? ==> h.now >= old(h.now) + 3000 && h.world.paused
    ensures h.tally.events == old(h.tally.events) && h.tally.unmatched == old(h.tally.unmatched)
    ensures h.Sound() && (r.Paused? ==> h.frozen && AtDebugStop(h.world)) && (!r.Paused? ==> h.frozen == old(h.frozen))
    ensures r.NotAsked? && old(PausedTrue(h.world)) ==> PausedTrue(h.world)
    ensures old(LatchTrue(h.world, h.lastUpdateSeen)) ==> LatchTrue(h.world, h.lastUpdateSeen)
  {
    var before := h.world.updates;
    h.Interfere();
    LeftAlone(old(h.world), h.world, h.lastUpdateSeen);
    var ok := h.SetRunState(true);
    if !ok {
      return NotAsked;
    }
    ok := AwaitUpdate(h, before);
    if !ok {
      return TimedOut;
    }
    h.frozen := true;
    r := Paused;
  }

  /**
    Stops the machine. A stop that was asked for is always there. One that was taken for given
    is there if the sign it was taken from was true when the pause began; `given` says whether
    it was. It fails only if PAUSED could not be asked for or brought no stop in time, and
    reports a breakpoint exactly if one was read.
  */
  method Pause(h: Host) returns (r: PauseResult, ghost given: bool)
    requires h.Sound()
    modifies h`world, h`cancelled, h`now, h`frozen, h`framePaused, h`lastUpdateSeen, h`tally
    ensures r.NotAsked? ==> h.tally.refusals > old(h.tally.refusals)
    ensures r.TimedOut? ==> h.now >= old(h.now) + 3000 && h.world.paused
    ensures r.AtBreakpoint? <==> h.tally.events > old(h.tally.events)
    ensures r.NoMatchingRecord? <==> h.tally.unmatched > old(h.tally.unmatched)
    ensures ClaimsStop(r) || r.NoMatchingRecord? ==> h.frozen
    ensures r.NotReady? <==> old(h.terminal)
    ensures r.NotReady? ==> h.world == old(h.world) && h.frozen == old(h.frozen) && h.framePaused == old(h.framePaused)
    ensures r.Paused? && !given ==> h.Sound() && Stopped(h.world)
    ensures r.Paused? && old(PausedTrue(h.world)) ==> h.Sound() && Stopped(h.world)
    ensures (r.AtBreakpoint? || r.NoMatchingRecord?) && old(LatchTrue(h.world, h.lastUpdateSeen)) ==>
      && h.Sound() && Stopped(h.world)
    ensures r.NotAsked? || r.TimedOut? ==> h.Sound()
    ensures r.NotAsked? && old(PausedTrue(h.world)) ==> PausedTrue(h.world)
    ensures old(LatchTrue(h.world, h.lastUpdateSeen)) ==> LatchTrue(h.world, h.lastUpdateSeen)
  {
    given := false;
    if h.terminal {
      return NotReady, given;
    }
    var drained := DrainAny(h);
    if !drained.Nothing? {
      return if drained.Event? then AtBreakpoint else NoMatchingRecord, given;
    }
    ghost var was := h.world;
    h.Interfere();
    LeftAlone(was, h.world, h.lastUpdateSeen);
    given := TakenForStopped(h.world, h.framePaused);
    if !TakenForStopped(h.world, h.framePaused) {
      r := AskForStop(h);
      return;
    }
    h.frozen := true;
    r := Paused;
  }

  datatype ResumeResult = Resumed | Refused

  /** Something the native side refused, or a breakpoint without a record. */
  predicate Obstructed(before: Tally, after: Tally) {
    || after.unmatched > before.unmatched
    || after.refusals > before.refusals
    || after.failedSteps > before.failedSteps
  }

  /**
    Lets the machine run. A machine stopped by the debugger is let go; one held at the gate is
    let go exactly if it is on record and no breakpoint of an earlier stop was still unread.
    A gate left armed stays armed: the machine then comes to the next boundary and no further.
  */
  method Resume(h: Host) returns (r: ResumeResult)
    requires h.Sound()
    modifies h`world, h`cancelled, h`now, h`frozen, h`framePaused, h`lastUpdateSeen, h`tally
    ensures r.Refused? <==> old(h.terminal) || Obstructed(old(h.tally), h.tally)
    ensures CoreInv(h.world) && (r.Resumed? ==> !h.frozen && !h.framePaused && !h.world.paused)
    ensures old(h.terminal) ==>
      && r.Refused? && h.world == old(h.world) && h.frozen == old(h.frozen) && h.framePaused == old(h.framePaused)
    ensures r.Resumed? && old(HeldAtGate(h.world)) ==>
      (LetGo(h.world) <==> old(h.framePaused && !Latched(h.world, h.lastUpdateSeen)))
    ensures r.Resumed? && old(HeldAtGate(h.world)) && !LetGo(h.world) ==> HeldAtGate(h.world)
    ensures r.Resumed? && old(AtDebugStop(h.world) && h.world.paused) ==> LetGo(h.world)
    ensures r.Resumed? && LetGo(h.world) && old(Stopped(h.world) && h.world.gate.armNext && !h.world.gate.shutdown) ==>
      Advancing(h.world, AimAt(h.world, old(h.world.gate.trigger)))
    ensures old(h.frozen && !h.terminal) ==> h.Sound() && PausedTrue(h.world) && LatchTrue(h.world, h.lastUpdateSeen)
    ensures r.Refused? && old(LatchTrue(h.world, h.lastUpdateSeen)) ==>
      && h.Sound() && LatchTrue(h.world, h.lastUpdateSeen)
    ensures r.Refused? && old(LatchTrue(h.world, h.lastUpdateSeen) && PausedTrue(h.world)) ==> PausedTrue(h.world)
  {
    if h.terminal {
      return Refused;
    }
    var drained := DrainAny(h);
    if drained.Unmatched? {
      return Refused;
    }
    var wasPaused := ReadRunState(h);
    var ok := LetRun(h, wasPaused);
    r := if ok then Resumed else Refused;
  }

  method ReadRunState(h: Host) returns (paused: bool)
    requires CoreInv(h.world) && (h.framePaused ==> HeldAtGate(h.world)) && !Latched(h.world, h.lastUpdateSeen)
    modifies h`world, h`cancelled, h`now
    ensures CoreInv(h.world) && (h.framePaused ==> HeldAtGate(h.world))
    ensures old(Stopped(h.world)) ==>
      StillStopped(old(h.world), h.world) && paused == old(h.world.paused) && !Latched(h.world, h.lastUpdateSeen)
    ensures LatchTrue(h.world, h.lastUpdateSeen)
    ensures old(PausedTrue(h.world)) ==> PausedTrue(h.world) && (paused ==> Stopped(h.world))
  {
    h.Interfere();
    LeftAlone(old(h.world), h.world, h.lastUpdateSeen);
    paused := h.world.paused;
    ghost var was := h.world;
    h.Interfere();
    LeftAlone(was, h.world, h.lastUpdateSeen);
  }

  /** Moves the run state to RUNNING and releases the stop that is on record. */
  method LetRun(h: Host, wasPaused: bool) returns (ok: bool)
    requires CoreInv(h.world) && (h.framePaused ==> HeldAtGate(h.world))
    modifies h`world, h`frozen, h`framePaused, h`tally
    ensures CoreInv(h.world)
    ensures !ok <==> Obstructed(old(h.tally), h.tally)
    ensures h.tally.failedSteps > old(h.tally.failedSteps) ==>
      h.world.paused || h.tally.refusals > old(h.tally.refusals)
    ensures ok ==> !h.frozen && !h.framePaused && !h.world.paused
    ensures !ok ==> h.frozen == old(h.frozen) && h.framePaused == old(h.framePaused)
    ensures !ok && !wasPaused ==> h.world == old(h.world)
    ensures !ok && old(Stopped(h.world)) ==> Stopped(h.world) && (HeldAtGate(h.world) <==> old(HeldAtGate(h.world)))
    ensures h.world.updates == old(h.world.updates) && h.world.hit == old(h.world.hit)
    ensures h.world.gate.armNext == old(h.world.gate.armNext) && h.world.gate.trigger == old(h.world.gate.trigger)
    ensures h.world.gate.shutdown == old(h.world.gate.shutdown)
    ensures ok && old(h.framePaused) ==> LetGo(h.world)
    ensures ok && !old(h.framePaused) && old(HeldAtGate(h.world)) ==> HeldAtGate(h.world)
    ensures ok && !old(h.framePaused) && old(AtDebugStop(h.world)) && wasPaused ==> LetGo(h.world)
    ensures ok && !old(h.framePaused) && old(AtDebugStop(h.world)) && !wasPaused ==> AtDebugStop(h.world)
  {
    ok := h.SetRunState(false);
    if !ok {
      return;
    }
    if h.framePaused {
      h.world := Release(h.world);
    } else if wasPaused {
      ok := h.NativeStep();
      if !ok {
        var _ := h.SetRunState(true);
        return;
      }
    }
    h.frozen := false;
    h.framePaused := false;
  }

  // ------------------------------------------------------------------ sequences of calls

  datatype Call = PauseCall | ResumeCall | StepCall(trigger: Trigger, count: nat, frameWait: nat)

  /** The answers a client sees; for a resume also whether the machine was on record as frozen. */
  datatype Answer =
    | PauseAnswer(paused: PauseResult)
    | ResumeAnswer(resumed: ResumeResult, frozen: bool)
    | StepAnswer(stepped: StepResult)

  /** What the answers so far leave to doubt about a claim of a frozen machine. */
  datatype Doubt = Trusted | Unanswered | Lost

  /**
    A pause that timed out is in doubt until a stop is proved, and taking it for a stop loses
    the thread; so does resuming a machine that is not frozen, and a debugger step refused in
    the middle of a launch.
  */
  function DoubtAfter(d: Doubt, a: Answer): Doubt {
    if d.Lost? then Lost
    else
      match a
      case PauseAnswer(TimedOut) => Unanswered
      case PauseAnswer(Paused) => if d.Unanswered? then Lost else Trusted
      case PauseAnswer(NotReady) => d
      case PauseAnswer(NotAsked) => d
      case PauseAnswer(_) => Trusted
      case ResumeAnswer(Resumed, frozen) => if frozen then Trusted else Lost
      case ResumeAnswer(Refused, _) => d
      case StepAnswer(Failed(NotFrozen)) => d
      case StepAnswer(Failed(BadCount)) => d
      case StepAnswer(Failed(GenerationStopped)) => d
      case StepAnswer(Failed(NotLaunched(StepRefused))) => Lost
      case StepAnswer(_) => Trusted
  }

  /** The doubts a history of answers goes through. */
  ghost predicate Weighed(answers: seq<Answer>, doubts: seq<Doubt>) {
    && |doubts| == |answers| + 1 && doubts[0] == Trusted
    && forall k :: 0 <= k < |answers| ==> Weighs(answers, doubts, k)
  }

  ghost predicate Weighs(answers: seq<Answer>, doubts: seq<Doubt>, k: nat)
    requires k < |answers| < |doubts|
  {
    doubts[k + 1] == DoubtAfter(doubts[k], answers[k])
  }

  /** The state a history without loss leaves: the record is true, and so are the signs of a stop. */
  ghost predicate Faithful(h: Host, d: Doubt)
    reads h
  {
    && h.Sound()
    && (!(h.terminal && !h.frozen) ==> LatchTrue(h.world, h.lastUpdateSeen) && (d.Trusted? ==> PausedTrue(h.world)))
  }

  method Serve(h: Host, call: Call, d: Doubt) returns (a: Answer, next: Doubt)
    requires d != Lost && Faithful(h, d)
    modifies h
    ensures next == DoubtAfter(d, a)
    ensures next != Lost ==> Faithful(h, next) && (h.frozen ==> Stopped(h.world))
  {
    a := Answered(h, call, d);
    next := DoubtAfter(d, a);
  }

  method Answered(h: Host, call: Call, ghost d: Doubt) returns (a: Answer)
    requires d != Lost && Faithful(h, d)
    modifies h
    ensures DoubtAfter(d, a) != Lost ==> Faithful(h, DoubtAfter(d, a))
  {
    match call
    case PauseCall =>
      ghost var given;
      var r;
      r, given := Pause(h);
      a := PauseAnswer(r);
    case ResumeCall =>
      var frozen := h.frozen;
      var r := Resume(h);
      a := ResumeAnswer(r, frozen);
    case StepCall(t, count, wait) =>
      var r := h.StepWithFrameGate(t, count, wait);
      a := StepAnswer(r);
  }

  /**
    Any sequence of pauses, resumes and steps, from the start of the machine. As long as its
    answers lose no trust, the machine is really stopped whenever it is on record as frozen;
    `truths` says so call by call. The client sees everything this depends on.
  */
  method Session(calls: seq<Call>) returns (h: Host, answers: seq<Answer>, doubts: seq<Doubt>, ghost truths: seq<bool>)
    ensures |answers| <= |calls| && Truthful(answers, doubts, truths)
    ensures |answers| < |calls| ==> doubts[|answers|] == Lost
    ensures answers != [] ==> truths[|answers| - 1] == (h.frozen ==> Stopped(h.world))
  {
    h := new Host();
    answers, doubts, truths := ServeAll(h, calls);
  }

  method ServeAll(h: Host, calls: seq<Call>) returns (answers: seq<Answer>, doubts: seq<Doubt>, ghost truths: seq<bool>)
    requires Faithful(h, Trusted)
    modifies h
    ensures |answers| <= |calls| && Truthful(answers, doubts, truths)
    ensures |answers| < |calls| ==> doubts[|answers|] == Lost
    ensures answers != [] ==> truths[|answers| - 1] == (h.frozen ==> Stopped(h.world))
  {
    answers, doubts, truths := [], [Trusted], [];
    while |answers| < |calls| && doubts[|answers|] != Lost
      invariant |answers| <= |calls| && Truthful(answers, doubts, truths)
      invariant doubts[|answers|] != Lost ==> Faithful(h, doubts[|answers|])
      invariant answers != [] ==> truths[|answers| - 1] == (h.frozen ==> Stopped(h.world))
    {
      var d := doubts[|answers|];
      var a, next := Serve(h, calls[|answers|], d);
      ghost var truth := h.frozen ==> Stopped(h.world);
      TruthSnoc(answers, doubts, truths, a, next, truth);
      answers, doubts, truths := answers + [a], doubts + [next], truths + [truth];
    }
  }

  /** After every call whose history loses no trust, a machine on record as frozen was stopped. */
  ghost predicate Truthful(answers: seq<Answer>, doubts: seq<Doubt>, truths: seq<bool>) {
    && Weighed(answers, doubts) && |truths| == |answers|
    && forall i :: 0 <= i < |answers| ==> truths[i] || doubts[i + 1] == Lost
  }

  lemma TruthSnoc(answers: seq<Answer>, doubts: seq<Doubt>, truths: seq<bool>, a: Answer, next: Doubt, truth: bool)
    requires Truthful(answers, doubts, truths) && next == DoubtAfter(doubts[|answers|], a) && (truth || next == Lost)
    ensures Truthful(answers + [a], doubts + [next], truths + [truth])
  {
    var answers', doubts' := answers + [a], doubts + [next];
    forall k | 0 <= k < |answers'| ensures Weighs(answers', doubts', k) {
      if k < |answers| {
        assert Weighs(answers, doubts, k);
        assert answers'[k] == answers[k] && doubts'[k] == doubts[k] && doubts'[k + 1] == doubts[k + 1];
      }
    }
  }
}
