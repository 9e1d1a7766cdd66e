/**
  A correlated frame operation that the native emulator owns: admission, polling, cancellation
  and release, driven over a link whose replies, delays and stops are arbitrary.
*/
module OwnedFrames {

  import opened Base
  import opened Text

  // -------------------------------------------------------------------------- replies

  datatype Phase = Running | Stopping | Completed | Interrupted
  datatype Reason = NoReason | Cancelled | HostDeadline | NativeStop
  datatype Reply = Reply(phase: Phase, completed: nat, requested: nat, reason: Reason)

  function PhaseName(phase: Phase): string {
    match phase
    case Running => "running"
    case Stopping => "stopping"
    case Completed => "completed"
    case Interrupted => "interrupted"
  }

  function ReasonName(reason: Reason): string {
    match reason
    case NoReason => "none"
    case Cancelled => "cancelled"
    case HostDeadline => "host_deadline"
    case NativeStop => "native_stop"
  }

  function ReadPhase(s: string): Option<Phase> {
    if s == "running" then Some(Running)
    else if s == "stopping" then Some(Stopping)
    else if s == "completed" then Some(Completed)
    else if s == "interrupted" then Some(Interrupted)
    else None
  }

  function ReadReason(s: string): Option<Reason> {
    if s == "none" then Some(NoReason)
    else if s == "cancelled" then Some(Cancelled)
    else if s == "host_deadline" then Some(HostDeadline)
    else if s == "native_stop" then Some(NativeStop)
    else None
  }

  /** The combinations a native reply to a request for `requested` frames may hold. */
  predicate Sound(r: Reply, requested: nat) {
    && r.requested == requested && r.completed <= requested
    && (r.phase == Completed ==> r.completed == requested && r.reason == NoReason)
    && (r.phase == Running ==> r.reason == NoReason)
    && (r.phase == Interrupted ==> r.reason != NoReason)
  }

  function ParseFields(fields: seq<string>, id: string, requested: nat): Option<Reply> {
    if |fields| != 6 || fields[0] != "FRAME" || fields[1] != id then None
    else
      var completed, count := ParseU64(fields[3]), ParseU64(fields[4]);
      var phase, reason := ReadPhase(fields[2]), ReadReason(fields[5]);
      if completed.None? || count.None? then None
      else if count.value != requested || completed.value > count.value then None
      else if phase.None? || reason.None? then None
      else if phase.value == Completed && (completed.value != count.value || reason.value != NoReason) then None
      else if phase.value == Running && reason.value != NoReason then None
      else if phase.value == Interrupted && reason.value == NoReason then None
      else Some(Reply(phase.value, completed.value, count.value, reason.value))
  }

  function ParseReply(raw: string, id: string, requested: nat): Option<Reply> {
    ParseFields(Split(raw, '|'), id, requested)
  }

  function Terminal(r: Reply): bool {
    r.phase == Completed || r.phase == Interrupted
  }

  function Fields(r: Reply, id: string): seq<string> {
    ["FRAME", id, PhaseName(r.phase), Format(r.completed), Format(r.requested), ReasonName(r.reason)]
  }

  lemma DigitsPlain(s: string)
    requires AllDigits(s)
    ensures '|' !in s
  {
  }

  lemma FieldsPlain(r: Reply, id: string)
    requires '|' !in id
    ensures forall f :: f in Fields(r, id) ==> '|' !in f
  {
    DigitsPlain(Format(r.completed));
    DigitsPlain(Format(r.requested));
  }

  /** A reply written out for an operation is read back for that operation exactly if it is sound. */
  lemma ReplyRoundTrip(r: Reply, id: string, asked: string, requested: nat)
    requires '|' !in id && requested <= U64_MAX
    ensures ParseReply(Join(Fields(r, id), '|'), asked, requested) == Some(r) <==> asked == id && Sound(r, requested)
  {
    FieldsPlain(r, id);
    SplitJoin(Fields(r, id), '|');
    FieldsRead(r, id, asked, requested);
  }

  lemma NamesRead(phase: Phase, reason: Reason)
    ensures ReadPhase(PhaseName(phase)) == Some(phase) && ReadReason(ReasonName(reason)) == Some(reason)
  {
  }

  lemma FieldsRead(r: Reply, id: string, asked: string, requested: nat)
    requires requested <= U64_MAX
    ensures ParseFields(Fields(r, id), asked, requested) == Some(r) <==> asked == id && Sound(r, requested)
  {
    hide PhaseName, ReasonName, ReadPhase, ReadReason, ParseU64, Format;
    NamesRead(r.phase, r.reason);
    ParseOfFormat(r.completed);
    ParseOfFormat(r.requested);
  }

  /** Nothing is accepted for an identity that holds a separator. */
  lemma SeparatorInIdentity(raw: string, id: string, requested: nat)
    requires '|' in id
    ensures ParseReply(raw, id, requested) == None
  {
    JoinSplit(raw, '|');
  }

  // ------------------------------------------------------- what a run may do to its host

  datatype Command = Begin | Poll | Cancel | Finish | Clock

  /**
    A command with the time it was sent at, its budget, the deadline of whoever asked for it
    and the reply; a command given up because that deadline had passed; a look at the clock and
    then, at `at`, at the caller's cancellation flag; or the frozen label being set.
  */
  datatype Event =
    | Sent(command: Command, argument: string, at: nat, budget: nat, owner: nat, raw: Option<string>)
    | GaveUp(command: Command, owner: nat, at: nat)
    | Looked(now: nat, at: nat, seen: bool)
    | Labelled(frozen: bool, when: nat)

  const MILLISECOND: nat := 1_000_000
  const EXCHANGE_BUDGET: nat := 2_000 * MILLISECOND
  const RUN_BUDGET: nat := 240_000 * MILLISECOND
  const STOP_BUDGET: nat := 2_500 * MILLISECOND
  const POLL_PAUSE: nat := 10 * MILLISECOND

  /** Two seconds, four minutes, two and a half seconds and ten milliseconds, in nanoseconds. */
  lemma TimesAre()
    ensures EXCHANGE_BUDGET == 2_000_000_000 && RUN_BUDGET == 240_000_000_000
    ensures STOP_BUDGET == 2_500_000_000 && POLL_PAUSE == 10_000_000
  {
  }

  datatype Job = Job(id: string, count: nat, start: nat)

  function Deadline(job: Job): nat {
    job.start + RUN_BUDGET
  }

  function Argument(command: Command, job: Job): string {
    match command
    case Begin => job.id + ":" + Format(job.count) + ":240000"
    case Clock => ""
    case _ => job.id
  }

  /** Whether a stop is due: not looked at since the last reply, or looked at and found. */
  datatype Due = Unseen | Clear | Wanted

  /** How far the protocol has come. `since` is the time of the last command. */
  datatype Stage =
    | Idle
    | Begun(reply: Reply)
    | Held(reply: Reply, stop: Option<nat>, since: nat, due: Due)
    | Polled(reply: Reply, stop: Option<nat>, since: nat)
    | Released(reply: Reply, stop: Option<nat>, since: nat)
    | Clocked(reply: Reply, stop: Option<nat>, since: nat, frame: nat)
    | Done(reply: Reply, stop: Option<nat>, since: nat, frame: nat)
    | Failed
    | Misused

  function Limit(stop: Option<nat>, job: Job): nat {
    if stop.Some? then stop.value else Deadline(job)
  }

  function Understand(raw: Option<string>, job: Job): Option<Reply> {
    if raw.None? then None else ParseReply(raw.value, job.id, job.count)
  }

  /** A reply that must not report less progress than the one held. */
  function Later(s: Stage, got: Option<Reply>): Option<Reply>
    requires s.Held?
  {
    if got.None? || got.value.completed < s.reply.completed then None else got
  }

  /** The deadline a command must be sent under. */
  predicate Owned(s: Stage, command: Command, at: nat, owner: nat, job: Job) {
    match command
    case Begin => owner == Deadline(job)
    case Cancel => owner <= at + STOP_BUDGET
    case _ => (s.Held? || s.Released?) && owner == Limit(s.stop, job)
  }

  /** A look showed that the run is to be stopped. */
  predicate Sees(e: Event, job: Job) {
    e.Looked? && (e.seen || e.now >= Deadline(job))
  }

  /** The operation may go on: it is being stopped already, or a look found no reason to. */
  predicate Free(s: Stage)
    requires s.Held?
  {
    s.stop.Some? || s.due == Clear
  }

  /** The commands that are in order at a stage. */
  predicate InOrder(s: Stage, command: Command) {
    match command
    case Begin => s == Idle
    case Poll => s.Held? && Free(s) && !Terminal(s.reply)
    case Cancel => s.Held? && s.stop.None? && s.due == Wanted
    case Finish => s.Held? && Free(s) && Terminal(s.reply)
    case Clock => s.Released?
  }

  /** The commands that are in order from a time on. */
  predicate Ready(s: Stage, command: Command, now: nat, job: Job) {
    && InOrder(s, command)
    && match command
       case Begin => now >= job.start
       case Poll => now >= s.since + POLL_PAUSE
       case _ => now >= s.since
  }

  /** All the time the owner has left, up to that of one exchange. */
  function Allowed(at: nat, owner: nat): nat
    requires at < owner
  {
    if owner - at < EXCHANGE_BUDGET then owner - at else EXCHANGE_BUDGET
  }

  /** The next stage, `Misused` for anything a correct owner never does. */
  function Next(s: Stage, e: Event, job: Job): Stage {
    match e
    case Sent(command, argument, at, budget, owner, raw) =>
      if at < owner && budget == Allowed(at, owner) && argument == Argument(command, job)
         && Ready(s, command, at, job) && Owned(s, command, at, owner, job)
      then AfterReply(s, command, at, owner, raw, job)
      else Misused
    case GaveUp(command, owner, at) =>
      if InOrder(s, command) && at >= owner && Owned(s, command, at, owner, job) then Failed else Misused
    case Looked(now, at, seen) =>
      if s.Held? && s.stop.None? && s.due == Unseen && s.since <= now <= at
      then s.(due := if Sees(e, job) then Wanted else Clear)
      else Misused
    case Labelled(frozen, when) =>
      match s
      case Begun(reply) => if frozen then Misused else Held(reply, None, job.start, Unseen)
      case Polled(reply, stop, since) => if frozen == Terminal(reply) then Held(reply, stop, since, Unseen) else Misused
      case Clocked(reply, stop, since, frame) =>
        if frozen && (stop.Some? ==> when < stop.value) then Done(reply, stop, since, frame) else Misused
      case _ => Misused
  }

  function AfterReply(s: Stage, command: Command, at: nat, owner: nat, raw: Option<string>, job: Job): Stage
    requires InOrder(s, command)
  {
    var got := Understand(raw, job);
    match command
    case Begin =>
      if got.None? || got.value.phase != Running || got.value.completed != 0 then Failed else Begun(got.value)
    case Poll =>
      if Later(s, got).None? then Failed else Polled(got.value, s.stop, at)
    case Cancel =>
      if Later(s, got).None? then Failed else Held(got.value, Some(owner), at, Unseen)
    case Finish =>
      if got != Some(s.reply) then Failed else Released(s.reply, s.stop, at)
    case Clock =>
      if raw.None? || ParseU64(raw.value).None? then Failed
      else Clocked(s.reply, s.stop, at, ParseU64(raw.value).value)
  }

  /** A log that keeps to the protocol, with the stages it goes through. */
  ghost predicate Proper(log: seq<Event>, stages: seq<Stage>, job: Job) {
    && |stages| == |log| + 1 && stages[0] == Idle
    && forall k :: 0 <= k < |log| ==> Follows(log, stages, k, job)
  }

  /** Event `k` is in order and leads from its stage to the next. */
  predicate Follows(log: seq<Event>, stages: seq<Stage>, k: nat, job: Job)
    requires k < |log| < |stages|
  {
    stages[k + 1] == Next(stages[k], log[k], job) != Misused
  }

  // ------------------------------------------------------------- laws of every proper run

  lemma StepAt(log: seq<Event>, stages: seq<Stage>, k: nat, job: Job)
    requires Proper(log, stages, job) && k < |log|
    ensures stages[k + 1] == Next(stages[k], log[k], job) != Misused && (stages[k] == Idle <==> k == 0)
  {
    assert Follows(log, stages, k, job);
    if k > 0 {
      assert Follows(log, stages, k - 1, job);
    }
  }

  predicate Is(e: Event, command: Command) {
    e.Sent? && e.command == command
  }

  /** How often a command was sent by the first `k` events. */
  function Count(log: seq<Event>, k: nat, command: Command): nat
    requires k <= |log|
  {
    if k == 0 then 0 else Count(log, k - 1, command) + if Is(log[k - 1], command) then 1 else 0
  }

  predicate HasReply(s: Stage) {
    !s.Idle? && !s.Failed? && !s.Misused?
  }

  predicate Stopped(s: Stage) {
    HasReply(s) && !s.Begun? && s.stop.Some?
  }

  /** The numbers of commands that belong to a stage. */
  predicate Counts(s: Stage, begins: nat, cancels: nat, finishes: nat, clocks: nat) {
    && begins <= 1 && cancels <= 1 && finishes <= 1 && clocks <= 1
    && (HasReply(s) ==> begins == 1 && cancels == if Stopped(s) then 1 else 0)
    && (s.Idle? || s.Begun? || s.Held? || s.Polled? ==> finishes == 0)
    && (s.Released? || s.Clocked? || s.Done? ==> finishes == 1)
    && (s.Clocked? || s.Done? ==> clocks == 1)
    && (s.Idle? ==> begins == 0 && cancels == 0)
    && (s.Idle? || s.Begun? || s.Held? || s.Polled? || s.Released? ==> clocks == 0)
  }

  lemma StepCounts(s: Stage, e: Event, job: Job, b: nat, c: nat, f: nat, l: nat)
    requires Counts(s, b, c, f, l) && Next(s, e, job) != Misused
    ensures Counts(Next(s, e, job), b + (if Is(e, Begin) then 1 else 0), c + (if Is(e, Cancel) then 1 else 0),
                   f + (if Is(e, Finish) then 1 else 0), l + (if Is(e, Clock) then 1 else 0))
  {
  }

  /**
    At most one admission, one cancellation and one release in any run, and exactly one
    admission and one release in a run that succeeds.
  */
  lemma {:induction false} EachCommandOnce(log: seq<Event>, stages: seq<Stage>, k: nat, job: Job)
    requires Proper(log, stages, job) && k <= |log|
    ensures Counts(stages[k], Count(log, k, Begin), Count(log, k, Cancel), Count(log, k, Finish), Count(log, k, Clock))
  {
    hide Next;
    if k > 0 {
      EachCommandOnce(log, stages, k - 1, job);
      StepAt(log, stages, k - 1, job);
      StepCounts(stages[k - 1], log[k - 1], job, Count(log, k - 1, Begin), Count(log, k - 1, Cancel),
                 Count(log, k - 1, Finish), Count(log, k - 1, Clock));
    }
  }

  predicate Reports(e: Event) {
    e.Sent? && e.command != Clock
  }

  /** What one event does to the reply a stage holds. */
  lemma StepReply(s: Stage, e: Event, job: Job)
    requires HasReply(Next(s, e, job))
    ensures HasReply(s) || s.Idle?
    ensures Reports(e) ==> Understand(e.raw, job) == Some(Next(s, e, job).reply)
    ensures HasReply(s) ==> s.reply.completed <= Next(s, e, job).reply.completed
    ensures !Reports(e) ==> HasReply(s) && Next(s, e, job).reply == s.reply
  {
  }

  lemma UnderstoodIsSound(raw: Option<string>, job: Job)
    ensures Understand(raw, job).Some? ==> Sound(Understand(raw, job).value, job.count)
  {
  }

  /** The last reply about the operation itself among the first `k` events. */
  function LastReply(log: seq<Event>, k: nat, job: Job): Option<Reply>
    requires k <= |log|
  {
    if k == 0 then None
    else if Reports(log[k - 1]) then Understand(log[k - 1].raw, job)
    else LastReply(log, k - 1, job)
  }

  lemma {:induction false} StageHoldsLastReply(log: seq<Event>, stages: seq<Stage>, k: nat, job: Job)
    requires Proper(log, stages, job) && k <= |log| && HasReply(stages[k])
    ensures LastReply(log, k, job) == Some(stages[k].reply) && Sound(stages[k].reply, job.count)
  {
    hide Next;
    if k > 0 {
      StepAt(log, stages, k - 1, job);
      StepReply(stages[k - 1], log[k - 1], job);
      if Reports(log[k - 1]) {
        UnderstoodIsSound(log[k - 1].raw, job);
      } else {
        StageHoldsLastReply(log, stages, k - 1, job);
      }
    }
  }

  lemma {:induction false} ReportedByStage(log: seq<Event>, stages: seq<Stage>, i: nat, k: nat, job: Job)
    requires Proper(log, stages, job) && i < k <= |log| && Reports(log[i]) && HasReply(stages[k])
    ensures Understand(log[i].raw, job).Some?
    ensures Understand(log[i].raw, job).value.completed <= stages[k].reply.completed
    decreases k
  {
    hide Next;
    StepAt(log, stages, k - 1, job);
    StepReply(stages[k - 1], log[k - 1], job);
    if i < k - 1 {
      ReportedByStage(log, stages, i, k - 1, job);
    }
  }

  /** Accepted progress never falls and never exceeds the count, whatever the replies are. */
  lemma ProgressNeverFalls(log: seq<Event>, stages: seq<Stage>, i: nat, j: nat, job: Job)
    requires Proper(log, stages, job) && i < j < |log| && Reports(log[i]) && Reports(log[j]) && HasReply(stages[j + 1])
    ensures Understand(log[i].raw, job).Some? && Understand(log[j].raw, job).Some?
    ensures Understand(log[i].raw, job).value.completed <= Understand(log[j].raw, job).value.completed <= job.count
  {
    ReportedByStage(log, stages, i, j + 1, job);
    StageHoldsLastReply(log, stages, j + 1, job);
  }

  // ----------------------------------------------------------------------- the frozen label

  /** A release is only asked for over a terminal reply. */
  predicate EndsTerminal(s: Stage) {
    s.Released? || s.Clocked? || s.Done? ==> Terminal(s.reply)
  }

  predicate Raises(e: Event) {
    e.Labelled? && e.frozen
  }

  predicate Lowers(e: Event) {
    e.Labelled? && !e.frozen
  }

  /** Nothing but a stop request can bring a label down from here. */
  predicate Settled(s: Stage) {
    HasReply(s) ==> Terminal(s.reply) && !s.Polled? && !s.Begun?
  }

  lemma StepTerminal(s: Stage, e: Event, job: Job)
    requires EndsTerminal(s) && Next(s, e, job) != Misused
    ensures EndsTerminal(Next(s, e, job))
    ensures Raises(e) ==> HasReply(s) && Terminal(s.reply) && Settled(Next(s, e, job))
  {
  }

  lemma StepSettled(s: Stage, e: Event, job: Job)
    requires Settled(s) && !s.Idle? && !Is(e, Cancel) && Next(s, e, job) != Misused
    ensures Settled(Next(s, e, job)) && !Lowers(e)
  {
  }

  lemma {:induction false} TerminalIsKept(log: seq<Event>, stages: seq<Stage>, k: nat, job: Job)
    requires Proper(log, stages, job) && k <= |log|
    ensures EndsTerminal(stages[k])
  {
    hide Next;
    if k > 0 {
      TerminalIsKept(log, stages, k - 1, job);
      StepAt(log, stages, k - 1, job);
      StepTerminal(stages[k - 1], log[k - 1], job);
    }
  }

  lemma RaisedSettles(log: seq<Event>, stages: seq<Stage>, i: nat, job: Job)
    requires Proper(log, stages, job) && i < |log| && Raises(log[i])
    ensures i > 0 && HasReply(stages[i]) && Terminal(stages[i].reply) && Settled(stages[i + 1])
  {
    hide Next;
    StepAt(log, stages, i, job);
    TerminalIsKept(log, stages, i, job);
    StepTerminal(stages[i], log[i], job);
  }

  /** Every run, even a failing one, raises the frozen label only over a terminal reply. */
  lemma RaisedOverTerminal(log: seq<Event>, stages: seq<Stage>, i: nat, job: Job)
    requires Proper(log, stages, job) && i < |log| && Raises(log[i])
    ensures LastReply(log, i, job).Some? && Terminal(LastReply(log, i, job).value)
  {
    RaisedSettles(log, stages, i, job);
    StageHoldsLastReply(log, stages, i, job);
  }

  /** Once a stage is settled, it stays so until a stop request, and the label stays up. */
  lemma {:induction false} SettledUntilCancel(log: seq<Event>, stages: seq<Stage>, i: nat, j: nat, job: Job)
    requires Proper(log, stages, job) && i <= j < |log| && Settled(stages[i + 1])
    requires forall k :: i < k <= j ==> !Is(log[k], Cancel)
    ensures Settled(stages[j + 1]) && (i < j ==> !Lowers(log[j]))
    decreases j
  {
    hide Next;
    if i < j {
      SettledUntilCancel(log, stages, i, j - 1, job);
      StepAt(log, stages, j, job);
      StepSettled(stages[j], log[j], job);
    }
  }

  /** A command that an operation answered which is not over. */
  predicate AnsweredRunning(e: Event, job: Job) {
    e.Sent? && Understand(e.raw, job).Some? && !Terminal(Understand(e.raw, job).value)
  }

  lemma StepLowers(s: Stage, d: Event, e: Event, job: Job)
    requires Next(Next(s, d, job), e, job) != Misused && !s.Idle?
    ensures Lowers(e) <==> Is(d, Poll) && AnsweredRunning(d, job)
  {
  }

  /** A stop request answered by a terminal operation settles the run like a poll does. */
  lemma StepCancelled(s: Stage, e: Event, job: Job)
    requires Is(e, Cancel) && Next(s, e, job) != Misused
    ensures !AnsweredRunning(e, job) ==> Settled(Next(s, e, job))
    ensures Stopped(Next(s, e, job)) || Next(s, e, job) == Failed
  {
  }

  /** Nothing is cancelled twice. */
  lemma StepStopped(s: Stage, e: Event, job: Job)
    requires (Stopped(s) || s == Failed) && Next(s, e, job) != Misused
    ensures !Is(e, Cancel) && (Stopped(Next(s, e, job)) || Next(s, e, job) == Failed)
  {
  }

  lemma CancelStops(log: seq<Event>, stages: seq<Stage>, c: nat, job: Job)
    requires Proper(log, stages, job) && c < |log| && Is(log[c], Cancel)
    ensures Stopped(stages[c + 1]) || stages[c + 1] == Failed
    ensures !AnsweredRunning(log[c], job) ==> Settled(stages[c + 1])
  {
    hide Next;
    StepAt(log, stages, c, job);
    StepCancelled(stages[c], log[c], job);
  }

  lemma {:induction false} OneCancel(log: seq<Event>, stages: seq<Stage>, c: nat, k: nat, job: Job)
    requires Proper(log, stages, job) && c < k < |log| && Is(log[c], Cancel)
    ensures !Is(log[k], Cancel) && (Stopped(stages[k + 1]) || stages[k + 1] == Failed)
    decreases k
  {
    hide Next;
    if c < k - 1 {
      OneCancel(log, stages, c, k - 1, job);
    } else {
      CancelStops(log, stages, c, job);
    }
    StepAt(log, stages, k, job);
    StepStopped(stages[k], log[k], job);
  }

  /** A stop request and a poll behind it, both answered by a running operation. */
  predicate Crossing(log: seq<Event>, c: nat, p: nat, job: Job) {
    && c < p && p + 1 < |log|
    && Is(log[c], Cancel) && AnsweredRunning(log[c], job) && Is(log[p], Poll) && AnsweredRunning(log[p], job)
  }

  /** The label behind a poll answers to the poll. */
  lemma LowersAt(log: seq<Event>, stages: seq<Stage>, p: nat, job: Job)
    requires Proper(log, stages, job) && 0 < p && p + 1 < |log|
    ensures Lowers(log[p + 1]) <==> Is(log[p], Poll) && AnsweredRunning(log[p], job)
  {
    hide Next;
    StepAt(log, stages, p, job);
    StepAt(log, stages, p + 1, job);
    StepLowers(stages[p], log[p], log[p + 1], job);
  }

  /** Behind a stop request answered by a terminal operation no label comes down. */
  lemma CancelAnswered(log: seq<Event>, stages: seq<Stage>, c: nat, j: nat, job: Job)
    requires Proper(log, stages, job) && c < j < |log| && Is(log[c], Cancel) && Lowers(log[j])
    ensures AnsweredRunning(log[c], job)
  {
    CancelStops(log, stages, c, job);
    forall k | c < k <= j ensures !Is(log[k], Cancel) {
      OneCancel(log, stages, c, k, job);
    }
    if !AnsweredRunning(log[c], job) {
      SettledUntilCancel(log, stages, c, j, job);
    }
  }

  lemma LoweredByCrossing(log: seq<Event>, stages: seq<Stage>, i: nat, j: nat, job: Job) returns (c: nat)
    requires Proper(log, stages, job) && i < j < |log| && Raises(log[i]) && Lowers(log[j])
    ensures i < c && Crossing(log, c, j - 1, job)
  {
    c := CancelBetween(log, stages, i, j, job);
    LowersAt(log, stages, j - 1, job);
    CancelAnswered(log, stages, c, j, job);
  }

  lemma CancelBetween(log: seq<Event>, stages: seq<Stage>, i: nat, j: nat, job: Job) returns (c: nat)
    requires Proper(log, stages, job) && i < j < |log| && Raises(log[i]) && Lowers(log[j])
    ensures i < c < j && Is(log[c], Cancel)
  {
    RaisedSettles(log, stages, i, job);
    if forall k :: i < k <= j ==> !Is(log[k], Cancel) {
      SettledUntilCancel(log, stages, i, j, job);
    }
    c :| i < c <= j && Is(log[c], Cancel);
  }

  /**
    Exactly when a raised label comes down again: a stop request behind it was answered by a
    running operation, and so was a poll behind that.
  */
  lemma LowersIffCrossed(log: seq<Event>, stages: seq<Stage>, i: nat, job: Job)
    requires Proper(log, stages, job) && i < |log| && Raises(log[i])
    ensures (exists j :: i < j < |log| && Lowers(log[j])) <==> (exists c, p :: i < c && Crossing(log, c, p, job))
  {
    forall j | i < j < |log| && Lowers(log[j]) ensures exists c, p :: i < c && Crossing(log, c, p, job) {
      var c := LoweredByCrossing(log, stages, i, j, job);
      assert Crossing(log, c, j - 1, job);
    }
    forall c, p | i < c && Crossing(log, c, p, job) ensures Lowers(log[p + 1]) {
      LowersAt(log, stages, p, job);
    }
  }

  // ------------------------------------------------------------------ polls and budgets

  /** The polls sent before the stop request, or after it. */
  function Polls(log: seq<Event>, stages: seq<Stage>, k: nat, stopping: bool): nat
    requires k <= |log| < |stages|
  {
    if k == 0 then 0
    else
      var here := Is(log[k - 1], Poll) && Stopped(stages[k - 1]) == stopping;
      Polls(log, stages, k - 1, stopping) + if here then 1 else 0
  }

  /** What the numbers of polls before and after the stop request say about the time. */
  predicate Paced(s: Stage, before: nat, after: nat, job: Job) {
    && before < 24_000 && after < 250
    && (HasReply(s) && !Stopped(s) ==> after == 0)
    && (HasReply(s) && !Stopped(s) && !s.Begun? ==> job.start + before * POLL_PAUSE <= s.since)
    && (Stopped(s) ==> s.stop.value + after * POLL_PAUSE <= s.since + STOP_BUDGET)
    && (s.Idle? || s.Begun? ==> before == 0 && after == 0)
  }

  lemma StepPaced(s: Stage, e: Event, before: nat, after: nat, job: Job)
    requires Paced(s, before, after, job) && Next(s, e, job) != Misused
    ensures !Is(e, Poll) ==> Paced(Next(s, e, job), before, after, job)
    ensures Is(e, Poll) && !Stopped(s) ==> Paced(Next(s, e, job), before + 1, after, job)
    ensures Is(e, Poll) && Stopped(s) ==> Paced(Next(s, e, job), before, after + 1, job)
  {
  }

  /** The pauses and the two deadlines bound the polls of every run, however it ends. */
  lemma {:induction false} PollsBounded(log: seq<Event>, stages: seq<Stage>, k: nat, job: Job)
    requires Proper(log, stages, job) && k <= |log|
    ensures Polls(log, stages, k, false) < 24_000 && Polls(log, stages, k, true) < 250
    ensures Paced(stages[k], Polls(log, stages, k, false), Polls(log, stages, k, true), job)
  {
    hide Next;
    if k > 0 {
      PollsBounded(log, stages, k - 1, job);
      StepAt(log, stages, k - 1, job);
      StepPaced(stages[k - 1], log[k - 1], Polls(log, stages, k - 1, false), Polls(log, stages, k - 1, true), job);
    }
  }

  predicate StopIsClose(s: Stage) {
    Stopped(s) ==> s.stop.value <= s.since + STOP_BUDGET
  }

  lemma StepBudget(s: Stage, e: Event, job: Job)
    requires Next(s, e, job) != Misused && StopIsClose(s)
    ensures StopIsClose(Next(s, e, job))
    ensures e.Sent? ==> 0 < e.budget <= EXCHANGE_BUDGET && e.at + e.budget <= e.owner
    ensures e.Sent? ==> e.budget == EXCHANGE_BUDGET || e.at + e.budget == e.owner
    ensures e.Sent? && (e.command == Cancel || Stopped(s)) ==> e.owner <= e.at + STOP_BUDGET
    ensures e.Sent? && !(e.command == Cancel || Stopped(s)) ==> e.owner == Deadline(job)
  {
  }

  lemma {:induction false} StopStaysClose(log: seq<Event>, stages: seq<Stage>, k: nat, job: Job)
    requires Proper(log, stages, job) && k <= |log|
    ensures StopIsClose(stages[k])
  {
    hide Next;
    if k > 0 {
      StopStaysClose(log, stages, k - 1, job);
      StepAt(log, stages, k - 1, job);
      StepBudget(stages[k - 1], log[k - 1], job);
    }
  }

  /** Every command is given a positive budget that fits what its owner has left. */
  lemma BudgetsAreBorrowed(log: seq<Event>, stages: seq<Stage>, i: nat, job: Job)
    requires Proper(log, stages, job) && i < |log| && log[i].Sent?
    ensures 0 < log[i].budget <= 2_000_000_000 && log[i].at + log[i].budget <= log[i].owner
    ensures log[i].budget == 2_000_000_000 || log[i].at + log[i].budget == log[i].owner
    ensures var stopping := Is(log[i], Cancel) || Stopped(stages[i]);
      if stopping then log[i].owner <= log[i].at + 2_500_000_000 else log[i].owner == job.start + 240_000_000_000
  {
    hide Next;
    StepAt(log, stages, i, job);
    StopStaysClose(log, stages, i, job);
    StepBudget(stages[i], log[i], job);
  }

  lemma StepSays(s: Stage, e: Event, job: Job)
    requires Next(s, e, job) != Misused && e.Sent?
    ensures e.argument == match e.command
      case Begin => Join([job.id, Format(job.count), "240000"], ':')
      case Clock => ""
      case _ => job.id
  {
    JoinOfThree(job.id, Format(job.count), "240000");
  }

  lemma JoinOfThree(a: string, b: string, c: string)
    ensures Join([a, b, c], ':') == a + ":" + b + ":" + c
  {
    assert [a, b, c][1..] == [b, c] && [b, c][1..] == [c];
    assert Join([b, c], ':') == b + [':'] + Join([c], ':');
    assert Join([a, b, c], ':') == a + [':'] + Join([b, c], ':');
    assert a + ":" + (b + ":" + c) == a + ":" + b + ":" + c;
  }

  /** Every command names the operation; the admission also the count and the run's budget in milliseconds. */
  lemma CommandsName(log: seq<Event>, stages: seq<Stage>, i: nat, job: Job)
    requires Proper(log, stages, job) && i < |log| && log[i].Sent?
    ensures log[i].argument == match log[i].command
      case Begin => Join([job.id, Format(job.count), "240000"], ':')
      case Clock => ""
      case _ => job.id
  {
    StepAt(log, stages, i, job);
    StepSays(stages[i], log[i], job);
  }

  // ------------------------------------------------------------- when a stop is asked for

  /** A stop request that was sent, or given up because its own deadline had passed. */
  predicate Asks(e: Event) {
    Is(e, Cancel) || (e.GaveUp? && e.command == Cancel)
  }

  predicate WantsStop(s: Stage) {
    s.Held? && s.stop.None? && s.due == Wanted
  }

  lemma StepWants(s: Stage, e: Event, job: Job)
    requires Next(s, e, job) != Misused
    ensures Asks(e) <==> WantsStop(s)
    ensures WantsStop(Next(s, e, job)) <==> Sees(e, job)
  {
  }

  lemma FirstIsBegin(e: Event, job: Job)
    requires Next(Idle, e, job) != Misused
    ensures (e.Sent? || e.GaveUp?) && e.command == Begin
  {
  }

  /**
    A stop request is sent or given up exactly behind a look that found the cancellation flag
    set or the run's deadline passed, and behind every such look.
  */
  lemma AsksIffSeen(log: seq<Event>, stages: seq<Stage>, k: nat, job: Job)
    requires Proper(log, stages, job) && k < |log|
    ensures Asks(log[k]) <==> k > 0 && Sees(log[k - 1], job)
  {
    hide Next;
    StepAt(log, stages, k, job);
    if k > 0 {
      StepAt(log, stages, k - 1, job);
      StepWants(stages[k - 1], log[k - 1], job);
      StepWants(stages[k], log[k], job);
    } else {
      FirstIsBegin(log[0], job);
    }
  }

  predicate Asked(log: seq<Event>) {
    exists k :: 0 <= k < |log| && Asks(log[k])
  }

  predicate Seen(log: seq<Event>, job: Job) {
    exists k :: 0 <= k < |log| && Sees(log[k], job)
  }

  /** So a run that does not end with a look has asked for a stop if and only if some look saw a reason. */
  lemma AskedIffSeen(log: seq<Event>, stages: seq<Stage>, job: Job)
    requires Proper(log, stages, job) && (log != [] ==> !log[|log| - 1].Looked?)
    ensures Asked(log) <==> Seen(log, job)
  {
    forall k | 0 <= k < |log| && Asks(log[k]) ensures Seen(log, job) {
      AsksIffSeen(log, stages, k, job);
    }
    forall k | 0 <= k < |log| && Sees(log[k], job) ensures Asked(log) {
      AsksIffSeen(log, stages, k + 1, job);
    }
  }

  /** The stop is under way, or the run is over. */
  predicate Leaving(s: Stage) {
    Stopped(s) || s.Failed?
  }

  lemma StepWanted(s: Stage, e: Event, job: Job)
    requires Next(s, e, job) != Misused && WantsStop(s)
    ensures !e.Looked? && Leaving(Next(s, e, job))
  {
  }

  lemma StepLeaving(s: Stage, e: Event, job: Job)
    requires Leaving(s) && Next(s, e, job) != Misused
    ensures !e.Looked? && Leaving(Next(s, e, job))
  {
  }

  /** The look that sees a reason is the last one. */
  lemma {:induction false} SeenIsLast(log: seq<Event>, stages: seq<Stage>, k: nat, j: nat, job: Job)
    requires Proper(log, stages, job) && k < j < |log| && Sees(log[k], job)
    ensures !log[j].Looked? && Leaving(stages[j + 1])
    decreases j
  {
    hide Next;
    StepAt(log, stages, j, job);
    StepAt(log, stages, j - 1, job);
    if k < j - 1 {
      SeenIsLast(log, stages, k, j - 1, job);
      StepLeaving(stages[j], log[j], job);
    } else {
      StepWants(stages[k], log[k], job);
      StepWanted(stages[j], log[j], job);
    }
  }

  lemma StepHolds(s: Stage, e: Event, job: Job)
    requires Next(s, e, job) != Misused && e.Looked?
    ensures Next(s, e, job).Held? && !Stopped(Next(s, e, job))
  {
  }

  /** A look leaves the operation held and not yet stopped, so no run ends with one. */
  lemma LookLeaves(log: seq<Event>, stages: seq<Stage>, job: Job)
    requires Proper(log, stages, job)
    ensures log != [] && log[|log| - 1].Looked? ==> stages[|log|].Held? && !Stopped(stages[|log|])
  {
    hide Next;
    if log != [] && log[|log| - 1].Looked? {
      StepAt(log, stages, |log| - 1, job);
      StepHolds(stages[|log| - 1], log[|log| - 1], job);
    }
  }

  /** Nothing was found that asks for a stop. */
  predicate IsClear(s: Stage) {
    s.Held? && s.stop.None? && s.due == Clear
  }

  lemma StepGoesOn(s: Stage, e: Event, job: Job)
    requires Next(s, e, job) != Misused && (Is(e, Poll) || Is(e, Finish))
    ensures Stopped(s) || IsClear(s)
  {
  }

  lemma StepClears(s: Stage, e: Event, job: Job)
    requires IsClear(Next(s, e, job))
    ensures e.Looked? && !Sees(e, job)
  {
  }

  /** Without a stop, a poll or a release goes out only directly behind a look that found no reason for one. */
  lemma LooksBeforeEachPoll(log: seq<Event>, stages: seq<Stage>, k: nat, job: Job)
    requires Proper(log, stages, job) && k < |log| && (Is(log[k], Poll) || Is(log[k], Finish)) && !Stopped(stages[k])
    ensures k > 0 && log[k - 1].Looked? && !Sees(log[k - 1], job)
  {
    hide Next;
    StepAt(log, stages, k, job);
    StepGoesOn(stages[k], log[k], job);
    if k > 0 {
      StepAt(log, stages, k - 1, job);
      StepClears(stages[k - 1], log[k - 1], job);
    }
  }

  lemma StepGivesUp(s: Stage, e: Event, job: Job)
    requires Next(s, e, job) != Misused && e.GaveUp?
    ensures e.at >= e.owner && (Stopped(s) || e.command == Cancel || e.owner == Deadline(job))
  {
  }

  /** A command is given up only past a deadline, which is the run's own unless a stop is under way. */
  lemma GivenUpLate(log: seq<Event>, stages: seq<Stage>, k: nat, job: Job)
    requires Proper(log, stages, job) && k < |log| && log[k].GaveUp?
    ensures log[k].at >= log[k].owner
    ensures Stopped(stages[k]) || log[k].command == Cancel || log[k].owner == Deadline(job)
  {
    hide Next;
    StepAt(log, stages, k, job);
    StepGivesUp(stages[k], log[k], job);
  }

  // ------------------------------------------------------------------------- two example runs

  function Answer(r: Reply, job: Job): Option<string> {
    Some(Join(Fields(r, job.id), '|'))
  }

  lemma AnswerUnderstood(r: Reply, job: Job)
    requires '|' !in job.id && job.count <= U64_MAX && Sound(r, job.count)
    ensures Understand(Answer(r, job), job) == Some(r)
  {
    ReplyRoundTrip(r, job.id, job.id, job.count);
  }

  lemma ProperEmpty(job: Job)
    ensures Proper([], [Idle], job)
  {
  }

  /** One event more. */
  lemma ProperSnoc(log: seq<Event>, stages: seq<Stage>, e: Event, s: Stage, job: Job)
    requires Proper(log, stages, job) && s == Next(stages[|log|], e, job) != Misused
    ensures Proper(log + [e], stages + [s], job)
  {
    var more, after := log + [e], stages + [s];
    forall k | 0 <= k < |more| ensures Follows(more, after, k, job) {
      if k < |log| {
        assert Follows(log, stages, k, job);
        assert more[k] == log[k] && after[k] == stages[k] && after[k + 1] == stages[k + 1];
      }
    }
  }

  function Going(job: Job): Reply { Reply(Running, 0, job.count, NoReason) }

  function Cut(job: Job): Reply { Reply(Interrupted, 0, job.count, NativeStop) }

  /** A run that has been admitted at once. */
  lemma AdmittedRun(job: Job) returns (log: seq<Event>, stages: seq<Stage>)
    requires '|' !in job.id && job.count <= U64_MAX
    ensures Proper(log, stages, job) && stages[|log|] == Held(Going(job), None, job.start, Unseen) && |log| == 2
    ensures Is(log[0], Begin) && Lowers(log[1])
  {
    var begin := Sent(Begin, Argument(Begin, job), job.start, EXCHANGE_BUDGET, Deadline(job), Answer(Going(job), job));
    AnswerUnderstood(Going(job), job);
    ProperEmpty(job);
    ProperSnoc([], [Idle], begin, Begun(Going(job)), job);
    log, stages := [] + [begin], [Idle] + [Begun(Going(job))];
    ProperSnoc(log, stages, Labelled(false, job.start), Held(Going(job), None, job.start, Unseen), job);
    log, stages := log + [Labelled(false, job.start)], stages + [Held(Going(job), None, job.start, Unseen)];
  }

  /** Adds a look that finds nothing. */
  lemma LookRun(log: seq<Event>, stages: seq<Stage>, job: Job) returns (log': seq<Event>, stages': seq<Stage>)
    requires Proper(log, stages, job)
    requires var s := stages[|log|]; s.Held? && s.stop.None? && s.due == Unseen && s.since < Deadline(job)
    ensures Proper(log', stages', job) && log <= log' && |log'| == |log| + 1
    ensures log'[|log|].Looked? && !Sees(log'[|log|], job)
    ensures stages'[|log'|] == stages[|log|].(due := Clear)
  {
    var s := stages[|log|];
    var look := Looked(s.since, s.since, false);
    ProperSnoc(log, stages, look, s.(due := Clear), job);
    log', stages' := log + [look], stages + [s.(due := Clear)];
  }

  /** A run whose time is up during the pause before a poll: it ends without a stop request. */
  lemma SilentRun(job: Job) returns (log: seq<Event>, stages: seq<Stage>)
    requires '|' !in job.id && job.count <= U64_MAX
    ensures Proper(log, stages, job) && stages[|log|] == Failed && !Asked(log)
    ensures log[|log| - 1] == GaveUp(Poll, Deadline(job), Deadline(job))
  {
    log, stages := AdmittedRun(job);
    log, stages := LookRun(log, stages, job);
    var late := GaveUp(Poll, Deadline(job), Deadline(job));
    ProperSnoc(log, stages, late, Failed, job);
    log, stages := log + [late], stages + [Failed];
  }

  /** Adds a poll and the label it calls for. */
  lemma PollRun(log: seq<Event>, stages: seq<Stage>, r: Reply, owner: nat, job: Job)
    returns (log': seq<Event>, stages': seq<Stage>)
    requires '|' !in job.id && job.count <= U64_MAX && Sound(r, job.count)
    requires Proper(log, stages, job) && InOrder(stages[|log|], Poll)
    requires stages[|log|].reply.completed <= r.completed
    requires owner == Limit(stages[|log|].stop, job) > stages[|log|].since + POLL_PAUSE
    ensures Proper(log', stages', job) && log <= log' && |log'| == |log| + 2
    ensures Is(log'[|log|], Poll) && log'[|log| + 1].Labelled? && log'[|log| + 1].frozen == Terminal(r)
    ensures stages'[|log'|] == Held(r, stages[|log|].stop, stages[|log|].since + POLL_PAUSE, Unseen)
  {
    var s := stages[|log|];
    var at := s.since + POLL_PAUSE;
    var poll := Sent(Poll, job.id, at, Allowed(at, owner), owner, Answer(r, job));
    AnswerUnderstood(r, job);
    ProperSnoc(log, stages, poll, Polled(r, s.stop, at), job);
    log', stages' := log + [poll], stages + [Polled(r, s.stop, at)];
    ProperSnoc(log', stages', Labelled(Terminal(r), at), Held(r, s.stop, at, Unseen), job);
    log', stages' := log' + [Labelled(Terminal(r), at)], stages' + [Held(r, s.stop, at, Unseen)];
  }

  /** The label may come down again: a stop request may replace a terminal reply by another. */
  lemma RaisedMayFall(job: Job) returns (log: seq<Event>, stages: seq<Stage>)
    requires '|' !in job.id && job.count <= U64_MAX
    ensures Proper(log, stages, job) && |log| == 9 && Raises(log[4]) && Lowers(log[8])
  {
    log, stages := AdmittedRun(job);
    log, stages := LookRun(log, stages, job);
    log, stages := PollRun(log, stages, Cut(job), Deadline(job), job);
    assert Raises(log[4]);
    log, stages := CancelRun(log, stages, job);
    log, stages := PollRun(log, stages, Going(job), stages[|log|].stop.value, job);
  }

  /** Adds a look that finds the flag set, and a stop request answered by a running operation. */
  lemma CancelRun(log: seq<Event>, stages: seq<Stage>, job: Job) returns (log': seq<Event>, stages': seq<Stage>)
    requires '|' !in job.id && job.count <= U64_MAX
    requires Proper(log, stages, job)
    requires var s := stages[|log|]; s.Held? && s.stop.None? && s.due == Unseen && s.reply.completed == 0
    ensures Proper(log', stages', job) && log <= log' && |log'| == |log| + 2
    ensures var at := stages[|log|].since; stages'[|log'|] == Held(Going(job), Some(at + STOP_BUDGET), at, Unseen)
  {
    var s := stages[|log|];
    var look, wanted := Looked(s.since, s.since, true), s.(due := Wanted);
    ProperSnoc(log, stages, look, wanted, job);
    log', stages' := log + [look], stages + [wanted];
    var stop := s.since + STOP_BUDGET;
    var cancel := Sent(Cancel, job.id, s.since, EXCHANGE_BUDGET, stop, Answer(Going(job), job));
    var held := Held(Going(job), Some(stop), s.since, Unseen);
    AnswerUnderstood(Going(job), job);
    ProperSnoc(log', stages', cancel, held, job);
    log', stages' := log' + [cancel], stages' + [held];
  }

  // ----------------------------------------------------------------------------- the owner

  datatype Error =
    | ExchangeExpired | Transport | Unverified | NotNew | Backwards | StopExpired | Changed | NoClock | CleanupExpired

  datatype Result<+T> = Got(value: T) | Bad(error: Error)

  datatype Outcome =
    | Ended(status: Phase, completed: nat, frame: nat, reason: Reason)
    | Broke(error: Error)

  /** The reason reported for a stop: the owner's own deadline takes the place of its cancellation. */
  function Why(reply: Reply, hostDeadline: bool): Reason {
    if hostDeadline && reply.reason == Cancelled then HostDeadline else reply.reason
  }

  /** A look reports the clock and the flag as they were at that moment. */
  predicate TrueLook(e: Event, cancelled: Option<nat>, now: nat) {
    && (e.Looked? ==> e.at <= now)
    && (e.Looked? && e.seen ==> cancelled.Some? && cancelled.value <= e.at)
    && (e.Looked? && !e.seen && cancelled.Some? ==> e.at <= cancelled.value)
  }

  ghost predicate Truthful(log: seq<Event>, cancelled: Option<nat>, now: nat) {
    forall k :: 0 <= k < |log| ==> TrueLook(log[k], cancelled, now)
  }

  lemma TruthfulSnoc(log: seq<Event>, e: Event, cancelled: Option<nat>, now: nat)
    requires Truthful(log, cancelled, now) && TrueLook(e, cancelled, now)
    ensures Truthful(log + [e], cancelled, now)
  {
    forall k | 0 <= k <= |log| ensures TrueLook((log + [e])[k], cancelled, now) {
      assert k < |log| ==> TrueLook(log[k], cancelled, now);
    }
  }

  /** What was seen stays true: the flag is never taken back, nor set in the past. */
  lemma TruthfulLater(log: seq<Event>, cancelled: Option<nat>, now: nat, cancelled': Option<nat>, now': nat)
    requires Truthful(log, cancelled, now) && now <= now'
    requires cancelled' == cancelled || (cancelled.None? && cancelled'.Some? && now <= cancelled'.value)
    ensures Truthful(log, cancelled', now')
  {
    forall k | 0 <= k < |log| ensures TrueLook(log[k], cancelled', now') {
      assert TrueLook(log[k], cancelled, now);
    }
  }

  /** The caller cancelled before some look. */
  ghost predicate CancelledInTime(log: seq<Event>, cancelled: Option<nat>) {
    cancelled.Some? && exists k :: 0 <= k < |log| && log[k].Looked? && cancelled.value < log[k].at
  }

  lemma CancelledIsSeen(log: seq<Event>, cancelled: Option<nat>, now: nat, job: Job)
    requires Truthful(log, cancelled, now)
    ensures CancelledInTime(log, cancelled) ==> Seen(log, job)
  {
    if CancelledInTime(log, cancelled) {
      var k :| 0 <= k < |log| && log[k].Looked? && cancelled.value < log[k].at;
      assert TrueLook(log[k], cancelled, now) && Sees(log[k], job);
    }
  }

  /** The emulator side with the host clock and the caller's cancellation flag. */
  class Host {
    var frozen: bool
    var clock: nat
    var cancelled: Option<nat>
    /** The run that is going on: what it is about, its events and the stages they lead through. */
    ghost var job: Job
    ghost var log: seq<Event>
    ghost var stages: seq<Stage>

    constructor ()
      ensures Sane() && Recorded() && log == [] && clock == 0
    {
      frozen := true;
      clock := 0;
      cancelled := None;
      job := Job("", 0, 0);
      log := [];
      stages := [Idle];
    }

    ghost predicate Recorded()
      reads this
    {
      Proper(log, stages, job)
    }

    ghost function Stage(): Stage
      reads this
      requires Recorded()
    {
      stages[|log|]
    }

    /** An event that is in order is added to the record. */
    ghost method Record(e: Event)
      requires Sane() && Recorded() && Next(Stage(), e, job) != Misused && TrueLook(e, cancelled, clock)
      modifies this`log, this`stages
      ensures Sane() && Recorded() && log == old(log) + [e] && Stage() == Next(old(Stage()), e, job)
      ensures stages == old(stages) + [Stage()]
    {
      var s := Next(Stage(), e, job);
      ProperSnoc(log, stages, e, s, job);
      TruthfulSnoc(log, e, cancelled, clock);
      log, stages := log + [e], stages + [s];
    }

    /** The flag was set at a time that has passed, and every look on record was a true one. */
    ghost predicate Sane()
      reads this
    {
      (cancelled.Some? ==> cancelled.value <= clock) && Truthful(log, cancelled, clock)
    }

    twostate predicate Aged(least: nat)
      reads this
    {
      && clock >= old(clock) + least && Sane()
      && (old(cancelled).Some? ==> cancelled == old(cancelled))
      && (cancelled.Some? && old(cancelled).None? ==> cancelled.value >= old(clock))
    }

    method Pass(least: nat)
      requires Sane()
      modifies this`clock, this`cancelled
      ensures Aged(least)
    {
      var n: int :| n >= least;
      clock := clock + n;
      var flag: bool := *;
      if flag && cancelled.None? {
        cancelled := Some(clock);
      }
      TruthfulLater(log, old(cancelled), old(clock), cancelled, clock);
    }

    /** Any answer after any time, or none. */
    method Exchange(command: Command, argument: string, budget: nat) returns (raw: Option<string>)
      requires Sane()
      modifies this`clock, this`cancelled
      ensures Aged(0)
    {
      raw := *;
      Pass(0);
    }

    method SetFrozen(value: bool)
      requires Sane() && Recorded() && Next(Stage(), Labelled(value, clock), job) != Misused
      modifies this`frozen, this`log, this`stages
      ensures Sane() && Recorded() && frozen == value && old(log) <= log
      ensures Stage() == Next(old(Stage()), Labelled(value, clock), job)
    {
      frozen := value;
      Record(Labelled(value, clock));
    }

    /**
      One command under the deadline of its owner; nothing is sent once that has passed. `at` is
      the time it was sent at.
    */
    method ExchangeUntil(command: Command, argument: string, owner: nat, ghost s: Stage)
      returns (r: Result<string>, ghost at: nat)
      requires Sane() && Recorded() && Stage() == s && argument == Argument(command, job)
      requires Owned(s, command, clock, owner, job) && Ready(s, command, clock, job)
      modifies this`clock, this`cancelled, this`log, this`stages
      ensures Aged(0) && old(clock) <= at <= clock && Recorded()
      ensures old(log) <= log
      ensures r == Bad(ExchangeExpired) ==> log == old(log) + [GaveUp(command, owner, at)]
      ensures r.Got? ==> at < owner && Stage() == AfterReply(s, command, at, owner, Some(r.value), job)
      ensures r.Bad? ==> BrokenOff(r.error) && (r.error == ExchangeExpired || r.error == Transport)
      ensures r.Got? ==> Answered(s, command, Some(r.value))
    {
      hide AfterReply, Understand, Sees;
      Pass(0);
      at := clock;
      if clock >= owner {
        Record(GaveUp(command, owner, at));
        return Bad(ExchangeExpired), at;
      }
      var budget := if owner - clock < EXCHANGE_BUDGET then owner - clock else EXCHANGE_BUDGET;
      var raw := Exchange(command, argument, budget);
      NoAnswerFails(s, command, at, owner, raw, job);
      Record(Sent(command, argument, at, budget, owner, raw));
      r := if raw.Some? then Got(raw.value) else Bad(Transport);
    }

    /** The last event was a command sent at stage `s`, and what came back. */
    ghost predicate Answered(s: Stage, command: Command, raw: Option<string>)
      reads this
      requires Recorded()
    {
      && log != [] && stages[|log| - 1] == s
      && var e := log[|log| - 1]; e.Sent? && e.command == command && e.raw == raw
    }

    /** A command whose reply must not report less progress than `floor`. */
    method Report(command: Command, floor: nat, owner: nat, id: string, count: nat, ghost s: Stage)
      returns (r: Result<Reply>, ghost at: nat)
      requires Sane() && Recorded() && s.Held? && Stage() == s
      requires id == job.id && count == job.count && floor == s.reply.completed
      requires command == Poll || command == Cancel
      requires Owned(s, command, clock, owner, job) && Ready(s, command, clock, job)
      modifies this`clock, this`cancelled, this`log, this`stages
      ensures Recorded() && old(log) <= log
      ensures Aged(0) && old(clock) <= at <= clock
      ensures r.Got? ==> at < owner
      ensures r.Got? && command == Poll ==> Stage() == Polled(r.value, s.stop, at)
      ensures r.Got? && command == Cancel ==> Stage() == Held(r.value, Some(owner), at, Unseen)
      ensures r.Bad? ==> BrokenOff(r.error)
    {
      var raw;
      raw, at := ExchangeUntil(command, id, owner, s);
      if raw.Bad? {
        return Bad(raw.error), at;
      }
      var got := ParseReply(raw.value, id, count);
      if got.None? {
        return Bad(Unverified), at;
      }
      if got.value.completed < floor {
        return Bad(Backwards), at;
      }
      r := Got(got.value);
    }

    /** Asks for the release of a terminal operation, which must still report the same. */
    method Finishes(reply: Reply, owner: nat, id: string, count: nat, ghost s: Stage)
      returns (r: Result<Reply>, ghost at: nat)
      requires Sane() && Recorded() && Stage() == s
      requires Ready(s, Finish, clock, job) && Owned(s, Finish, clock, owner, job)
      requires s.reply == reply && id == job.id && count == job.count
      modifies this`clock, this`cancelled, this`log, this`stages
      ensures Recorded() && old(log) <= log
      ensures Aged(0) && old(clock) <= at <= clock
      ensures r.Got? ==> r.value == reply && Stage() == Released(reply, s.stop, at)
      ensures r.Bad? ==> BrokenOff(r.error)
    {
      var raw;
      raw, at := ExchangeUntil(Finish, id, owner, s);
      if raw.Bad? {
        return Bad(raw.error), at;
      }
      var finished := ParseReply(raw.value, id, count);
      if finished.None? {
        return Bad(Unverified), at;
      }
      if finished.value != reply {
        return Bad(Changed), at;
      }
      r := Got(reply);
    }

    method TerminalClock(owner: nat, ghost s: Stage) returns (r: Result<nat>, ghost at: nat)
      requires Sane() && Recorded() && Stage() == s && Ready(s, Clock, clock, job) && Owned(s, Clock, clock, owner, job)
      modifies this`clock, this`cancelled, this`log, this`stages
      ensures Recorded() && old(log) <= log
      ensures Aged(0)
      ensures r.Got? ==> Stage() == Clocked(s.reply, s.stop, at, r.value)
      ensures r.Bad? ==> BrokenOff(r.error)
    {
      var raw;
      raw, at := ExchangeUntil(Clock, "", owner, s);
      if raw.Bad? {
        return Bad(raw.error), at;
      }
      var frame := ParseU64(raw.value);
      if frame.None? {
        return Bad(NoClock), at;
      }
      r := Got(frame.value);
    }

    /** The part of a run behind a terminal reply. */
    method Release(reply: Reply, stop: Option<nat>, owner: nat, hostDeadline: bool, id: string, count: nat,
                   ghost s: Stage)
      returns (r: Outcome)
      requires Sane() && Recorded() && Stage() == s && At(s, reply, stop, clock) && Free(s)
      requires Terminal(reply) && id == job.id && count == job.count && owner == Limit(stop, job)
      modifies this`clock, this`cancelled, this`log, this`stages, this`frozen
      ensures Recorded() && old(log) <= log
      ensures Aged(0)
      ensures r.Ended? ==> Delivered(r, Stage(), reply, stop, hostDeadline) && frozen
      ensures r.Ended? && stop.Some? ==> clock < stop.value
      ensures r.Broke? ==> BrokenOff(r.error)
    {
      var finished, frame;
      ghost var at, later;
      finished, at := Finishes(reply, owner, id, count, s);
      if finished.Bad? {
        return Broke(finished.error);
      }
      frame, later := TerminalClock(owner, Released(reply, stop, at));
      if frame.Bad? {
        return Broke(frame.error);
      }
      Pass(0);
      if stop.Some? && clock >= stop.value {
        return Broke(CleanupExpired);
      }
      SetFrozen(true);
      r := Ended(reply.phase, reply.completed, frame.value, Why(reply, hostDeadline));
    }

    /** The admission, after which the operation is this owner's. */
    method Admit(deadline: nat, id: string, count: nat) returns (r: Result<Reply>)
      requires Sane() && Recorded() && Stage() == Idle && clock >= job.start
      requires deadline == Deadline(job) && id == job.id && count == job.count
      modifies this`clock, this`cancelled, this`log, this`stages, this`frozen
      ensures Recorded()
      ensures Aged(0)
      ensures r.Got? ==> Stage() == Held(r.value, None, job.start, Unseen) && !frozen
      ensures r.Got? ==> r.value == Reply(Running, 0, count, NoReason)
      ensures r.Bad? ==> BrokenOff(r.error)
    {
      var raw;
      ghost var at;
      raw, at := ExchangeUntil(Begin, id + ":" + Format(count) + ":240000", deadline, Idle);
      if raw.Bad? {
        return Bad(raw.error);
      }
      var got := ParseReply(raw.value, id, count);
      if got.None? {
        return Bad(Unverified);
      }
      if got.value.phase != Running || got.value.completed != 0 {
        return Bad(NotNew);
      }
      SetFrozen(false);
      r := Got(got.value);
    }

    method AskToStop(reply: Reply, owner: nat, id: string, count: nat, ghost s: Stage)
      returns (r: Result<Reply>, ghost since: nat)
      requires Sane() && Recorded() && Stage() == s && Ready(s, Cancel, clock, job) && owner <= clock + STOP_BUDGET
      requires s.reply == reply && id == job.id && count == job.count
      modifies this`clock, this`cancelled, this`log, this`stages
      ensures Recorded() && old(log) <= log
      ensures Aged(0) && since <= clock
      ensures r.Got? ==> Stage() == Held(r.value, Some(owner), since, Unseen)
      ensures r.Bad? ==> BrokenOff(r.error)
    {
      r, since := Report(Cancel, reply.completed, owner, id, count, s);
    }

    /** Looks at the clock and then at the flag: whether a stop is due, and the deadline it is then given. */
    method StopDue(deadline: nat, ghost s: Stage)
      returns (due: Option<nat>, overdue: bool, ghost look: Event)
      requires Sane() && Recorded() && Stage() == s && deadline == Deadline(job)
      requires s.Held? && s.stop.None? && s.due == Unseen && s.since <= clock
      modifies this`clock, this`cancelled, this`log, this`stages
      ensures Recorded()
      ensures Aged(0)
      ensures log == old(log) + [look] && look.Looked? && (due.Some? <==> Sees(look, job))
      ensures overdue <==> look.now >= deadline
      ensures Stage() == s.(due := if due.Some? then Wanted else Clear)
      ensures due.Some? ==> due.value <= clock + STOP_BUDGET
      ensures Justified(due, overdue, cancelled, clock, job)
    {
      Pass(0);
      var now := clock;
      Pass(0);
      look := Looked(now, clock, cancelled.Some?);
      Record(look);
      if cancelled.None? && now < deadline {
        return None, false, look;
      }
      Pass(0);
      var start := if cancelled.Some? then cancelled.value else now;
      return Some(start + STOP_BUDGET), now >= deadline, look;
    }

    /** Asks the other side to stop, once, when the caller cancelled or the run's time is up. */
    method StopIfAsked(reply: Reply, stop: Option<nat>, overdue: bool, deadline: nat, id: string, count: nat,
                       ghost s: Stage)
      returns (r: Result<Reply>, stop': Option<nat>, overdue': bool, ghost s': Stage, ghost look: Event)
      requires Sane() && Recorded() && Stage() == s && At(s, reply, stop, clock) && s.due == Unseen
      requires deadline == Deadline(job) && id == job.id && count == job.count
      requires Justified(stop, overdue, cancelled, clock, job)
      modifies this`clock, this`cancelled, this`log, this`stages
      ensures Recorded()
      ensures Aged(0)
      ensures r.Got? ==> Stage() == s' && At(s', r.value, stop', clock) && Free(s')
      ensures stop.Some? ==> r == Got(reply) && stop' == stop && log == old(log)
      ensures stop.None? ==> look.Looked? && old(log) + [look] <= log && (stop'.Some? <==> Sees(look, job))
      ensures if stop.None? then overdue' <==> look.now >= deadline else overdue' == overdue
      ensures stop'.None? ==> r == Got(reply) && log == old(log) + [look]
      ensures Justified(stop', overdue', cancelled, clock, job)
      ensures r.Bad? ==> BrokenOff(r.error)
    {
      r, stop', overdue', s', look := Got(reply), stop, overdue, s, Looked(0, 0, false);
      if stop.None? {
        stop', overdue', look := StopDue(deadline, s);
        s' := Stage();
        if stop'.Some? {
          ghost var since;
          r, since := AskToStop(reply, stop'.value, id, count, s');
          s' := Stage();
        }
      }
    }

    /** The first part of a round: the look, and the stop deadline. */
    method LookOnce(reply: Reply, stop: Option<nat>, overdue: bool, deadline: nat, id: string, count: nat,
                    ghost s: Stage, ghost look: Event)
      returns (r: Result<Reply>, stop': Option<nat>, overdue': bool, ghost s': Stage, ghost look': Event)
      requires Sane() && Recorded() && Stage() == s && At(s, reply, stop, clock) && s.due == Unseen
      requires deadline == Deadline(job) && id == job.id && count == job.count
      requires Justified(stop, overdue, cancelled, clock, job) && Explains(log, stop, overdue, look, job)
      modifies this`clock, this`cancelled, this`log, this`stages
      ensures Recorded() && Aged(0) && (stop.Some? ==> stop' == stop)
      ensures Justified(stop', overdue', cancelled, clock, job)
      ensures r.Got? ==> Stage() == s' && At(s', r.value, stop', clock) && Free(s')
      ensures r.Got? ==> Explains(log, stop', overdue', look', job)
      ensures r.Got? && stop'.Some? ==> clock < stop'.value
      ensures r.Bad? ==> BrokenOff(r.error)
    {
      hide Explains, Sees, Next, AfterReply, Truthful;
      ghost var was := log;
      r, stop', overdue', s', look' := StopIfAsked(reply, stop, overdue, deadline, id, count, s);
      if stop.Some? {
        look' := look;
      }
      if r.Bad? {
        return;
      }
      StillExplained(was, log, stop, stop', overdue', look', job);
      Pass(0);
      if stop'.Some? && clock >= stop'.value {
        r := Bad(StopExpired);
      }
    }

    method PollAgain(reply: Reply, stop: Option<nat>, owner: nat, id: string, count: nat, ghost s: Stage)
      returns (r: Result<Reply>, ghost s': Stage)
      requires Sane() && Recorded() && Stage() == s && At(s, reply, stop, clock) && Free(s)
      requires !Terminal(reply) && owner == Limit(stop, job) && id == job.id && count == job.count
      requires stop.Some? ==> clock < stop.value
      modifies this`clock, this`cancelled, this`log, this`stages, this`frozen
      ensures Recorded() && old(log) <= log
      ensures r.Got? ==> Aged(POLL_PAUSE) && old(clock) + POLL_PAUSE < owner
      ensures r.Got? ==> Stage() == s' && At(s', r.value, stop, clock) && s'.due == Unseen
      ensures r.Got? ==> frozen == Terminal(r.value)
      ensures r.Bad? ==> Sane() && BrokenOff(r.error)
    {
      s' := s;
      Pass(0);
      if stop.Some? && clock >= stop.value {
        return Bad(StopExpired), s;
      }
      Pass(POLL_PAUSE);
      ghost var at;
      r, at := Report(Poll, reply.completed, owner, id, count, s);
      if r.Got? {
        SetFrozen(Terminal(r.value));
        s' := Stage();
      }
    }

    /**
      Owns one frame operation from admission to release. Whatever the other side answers and
      however long it takes, the run ends, keeps to the protocol, and reports success only for
      a run that went through all of it. It asks for a stop exactly if one of its looks found
      the flag set or its time up; so it always does once cancelled before a look.
    */
    method Run(id: string, count: nat) returns (r: Outcome, ghost overdue: bool)
      requires Sane()
      modifies this
      ensures job.id == id && job.count == count && old(clock) <= job.start
      ensures Recorded() && (r.Ended? <==> Stage().Done?)
      ensures r.Ended? ==> frozen && Delivered(r, Stage(), Stage().reply, Stage().stop, overdue)
      ensures r.Ended? ==> Justified(Stage().stop, overdue, cancelled, clock, job)
      ensures r.Ended? && Stage().stop.Some? ==> clock < Stage().stop.value
      ensures r.Ended? ==> Relabelled(r.reason, Stage().reply.reason, overdue) && (overdue <==> RanOut(log, job))
      ensures r.Broke? ==> BrokenOff(r.error)
      ensures Truthful(log, cancelled, clock) && (Asked(log) <==> Seen(log, job))
      ensures CancelledInTime(log, cancelled) ==> Asked(log)
    {
      log, stages := [], [Idle];
      overdue := false;
      Pass(0);
      job := Job(id, count, clock);
      ghost var look;
      r, overdue, look := Own(clock + RUN_BUDGET, id, count);
      if r.Ended? {
        OverdueIffRanOut(log, stages, overdue, look, job);
      }
      LookLeaves(log, stages, job);
      AskedIffSeen(log, stages, job);
      CancelledIsSeen(log, cancelled, clock, job);
    }

    /** How a run breaks off: over a command that was not sent, one that failed, or a stop that came too late. */
    ghost predicate BrokenOff(error: Error)
      reads this
      requires Recorded()
    {
      match error
      case StopExpired => Stopped(Stage()) && Stage().Held? && clock >= Stage().stop.value
      case CleanupExpired => Stopped(Stage()) && Stage().Clocked? && clock >= Stage().stop.value
      case ExchangeExpired => Stage() == Failed && log != [] && log[|log| - 1].GaveUp?
      case _ => Stage() == Failed && EndsSent(log) && error == Blame(stages[|log| - 1], log[|log| - 1], job)
    }

    method Own(deadline: nat, id: string, count: nat)
      returns (r: Outcome, ghost overdue: bool, ghost look: Event)
      requires Sane() && Recorded() && Stage() == Idle && clock >= job.start && deadline == Deadline(job)
      requires id == job.id && count == job.count
      modifies this`clock, this`cancelled, this`log, this`stages, this`frozen
      ensures Sane() && Recorded()
      ensures r.Ended? <==> Stage().Done?
      ensures r.Ended? ==> frozen && Delivered(r, Stage(), Stage().reply, Stage().stop, overdue)
      ensures r.Ended? ==> Justified(Stage().stop, overdue, cancelled, clock, job)
      ensures r.Ended? && Stage().stop.Some? ==> clock < Stage().stop.value
      ensures r.Ended? ==> Explains(log, Stage().stop, overdue, look, job)
      ensures r.Broke? ==> BrokenOff(r.error)
    {
      hide Explains, Sees, Next, AfterReply, Truthful;
      overdue, look := false, Looked(0, 0, false);
      var admitted := Admit(deadline, id, count);
      if admitted.Bad? {
        return Broke(admitted.error), overdue, look;
      }
      var reply := admitted.value;
      var stop: Option<nat> := None;
      var hostDeadline := false;
      ghost var s := Stage();
      NothingToExplain(log, look, job);
      while true
        invariant Sane() && Recorded() && Stage() == s && At(s, reply, stop, clock) && s.due == Unseen
        invariant Justified(stop, hostDeadline, cancelled, clock, job)
        invariant Explains(log, stop, hostDeadline, look, job)
        decreases stop.None?, if stop.Some? then stop.value - clock else deadline - clock
      {
        var asked;
        asked, stop, hostDeadline, s, look := LookOnce(reply, stop, hostDeadline, deadline, id, count, s, look);
        if asked.Bad? {
          return Broke(asked.error), overdue, look;
        }
        reply := asked.value;
        var owner := if stop.Some? then stop.value else deadline;
        if Terminal(reply) {
          overdue := hostDeadline;
          ghost var before := log;
          r := Release(reply, stop, owner, hostDeadline, id, count, s);
          ExplainsLater(before, log, stop, hostDeadline, look, job);
          return;
        }
        var polled;
        ghost var before := log;
        polled, s := PollAgain(reply, stop, owner, id, count, s);
        ExplainsLater(before, log, stop, hostDeadline, look, job);
        if polled.Bad? {
          return Broke(polled.error), overdue, look;
        }
        reply := polled.value;
      }
    }
  }

  lemma NoAnswerFails(s: Stage, command: Command, at: nat, owner: nat, raw: Option<string>, job: Job)
    requires InOrder(s, command)
    ensures AfterReply(s, command, at, owner, raw, job) != Misused
    ensures raw.None? ==> AfterReply(s, command, at, owner, raw, job) == Failed
  {
  }

  /** What is wrong with the answer to a command. */
  function Blame(s: Stage, e: Event, job: Job): Error
    requires e.Sent?
  {
    if e.raw.None? then Transport
    else if e.command == Clock then NoClock
    else if Understand(e.raw, job).None? then Unverified
    else
      match e.command
      case Begin => NotNew
      case Finish => Changed
      case _ => Backwards
  }

  /** A look found the run's own deadline passed. */
  ghost predicate RanOut(log: seq<Event>, job: Job) {
    exists k :: 0 <= k < |log| && log[k].Looked? && log[k].now >= Deadline(job)
  }

  /** A stop was asked for because of one look, and `overdue` says whether that was for the deadline. */
  ghost predicate Explains(log: seq<Event>, stop: Option<nat>, overdue: bool, look: Event, job: Job) {
    if stop.None? then !overdue
    else look in log && Sees(look, job) && (overdue <==> look.now >= Deadline(job))
  }

  lemma NothingToExplain(log: seq<Event>, look: Event, job: Job)
    ensures Explains(log, None, false, look, job)
  {
  }

  /** A longer log still has the look that explains the stop. */
  lemma ExplainsLater(log: seq<Event>, log': seq<Event>, stop: Option<nat>, overdue: bool, look: Event, job: Job)
    requires Explains(log, stop, overdue, look, job) && log <= log'
    ensures Explains(log', stop, overdue, look, job)
  {
    if stop.Some? {
      var k :| 0 <= k < |log| && log[k] == look;
      assert log'[k] == look;
    }
  }

  /** The same behind another look, or when a stop was under way. */
  lemma StillExplained(log: seq<Event>, log': seq<Event>, last: Option<nat>, stop: Option<nat>, overdue: bool,
                       look: Event, job: Job)
    requires log <= log'
    requires if last.Some? then stop == last && Explains(log, last, overdue, look, job)
             else log + [look] <= log' && look.Looked? && (stop.Some? <==> Sees(look, job))
    requires last.None? ==> (overdue <==> look.now >= Deadline(job))
    ensures Explains(log', stop, overdue, look, job)
  {
    if last.Some? {
      ExplainsLater(log, log', stop, overdue, look, job);
    } else {
      assert (log + [look])[|log|] == look && log'[|log|] == look;
    }
  }

  lemma OneSees(log: seq<Event>, stages: seq<Stage>, i: nat, j: nat, job: Job)
    requires Proper(log, stages, job) && i < |log| && j < |log| && Sees(log[i], job) && Sees(log[j], job)
    ensures i == j
  {
    if i < j {
      SeenIsLast(log, stages, i, j, job);
    } else if j < i {
      SeenIsLast(log, stages, j, i, job);
    }
  }

  /** Before a stage without a stop no look saw a reason, unless it was the very last event. */
  lemma NothingSeen(log: seq<Event>, stages: seq<Stage>, k: nat, job: Job)
    requires Proper(log, stages, job) && k < |log| && Sees(log[k], job)
    ensures k == |log| - 1 || Leaving(stages[|log|])
  {
    if k < |log| - 1 {
      SeenIsLast(log, stages, k, |log| - 1, job);
    }
  }

  /** The run ended over its own deadline exactly if a look says so. */
  lemma OverdueIffRanOut(log: seq<Event>, stages: seq<Stage>, overdue: bool, look: Event, job: Job)
    requires Proper(log, stages, job) && stages[|log|].Done?
    requires Explains(log, stages[|log|].stop, overdue, look, job)
    ensures overdue <==> RanOut(log, job)
  {
    if stages[|log|].stop.Some? {
      var i :| 0 <= i < |log| && log[i] == look;
      forall k | 0 <= k < |log| && log[k].Looked? && log[k].now >= Deadline(job) ensures log[k] == look {
        OneSees(log, stages, i, k, job);
      }
    } else {
      LookLeaves(log, stages, job);
      forall k | 0 <= k < |log| && log[k].Looked? && log[k].now >= Deadline(job) ensures false {
        NothingSeen(log, stages, k, job);
      }
    }
  }

  predicate EndsSent(log: seq<Event>) {
    log != [] && log[|log| - 1].Sent?
  }

  /** An operation that is held with a given reply and stop. */
  predicate At(s: Stage, reply: Reply, stop: Option<nat>, now: nat) {
    s.Held? && s.reply == reply && s.stop == stop && s.since <= now
  }

  /**
    The reason that is reported: the run's own deadline takes the place of the cancellation it
    led to, and every other reason is the other side's.
  */
  predicate Relabelled(reason: Reason, given: Reason, overdue: bool) {
    && (reason == HostDeadline <==> given == HostDeadline || (overdue && given == Cancelled))
    && (reason != HostDeadline ==> reason == given)
  }

  /** What a successful run reports about the stage it ended in. */
  ghost predicate Delivered(r: Outcome, s: Stage, reply: Reply, stop: Option<nat>, hostDeadline: bool)
    requires r.Ended?
  {
    && s.Done? && s.reply == reply && s.stop == stop
    && r == Ended(reply.phase, reply.completed, s.frame, Why(reply, hostDeadline))
  }

  /**
    A stop was asked for because the run's time was up, or else because the caller cancelled. Its
    budget starts at the cancellation, or not before the run's own deadline.
  */
  ghost predicate Justified(stop: Option<nat>, overdue: bool, cancelled: Option<nat>, now: nat, job: Job) {
    && (overdue ==> stop.Some? && now >= Deadline(job))
    && (stop.Some? ==> overdue || cancelled.Some?)
    && (stop.Some? ==> Origin(stop.value - STOP_BUDGET, cancelled, job))
  }

  ghost predicate Origin(origin: int, cancelled: Option<nat>, job: Job) {
    (cancelled.Some? && origin == cancelled.value) || origin >= Deadline(job)
  }

  // ------------------------------------------------------------ replies among stop packets

  const MAX_STOPS: nat := 128

  predicate IsHex(c: char) {
    IsDigit(c) || 'a' <= c <= 'f' || 'A' <= c <= 'F'
  }

  predicate IsStop(reply: string) {
    |reply| >= 3 && (reply[0] == 'S' || reply[0] == 'T') && IsHex(reply[1]) && IsHex(reply[2])
  }

  /** A stop packet is an S or a T and two hexadecimal digits, and anything behind them. */
  lemma StopIs(reply: string)
    ensures IsStop(reply) <==>
      && |reply| >= 3 && reply[0] in "ST"
      && reply[1] in "0123456789abcdefABCDEF" && reply[2] in "0123456789abcdefABCDEF"
  {
    if |reply| >= 3 {
      HexIs(reply[1]);
      HexIs(reply[2]);
    }
  }

  lemma HexIs(c: char)
    ensures IsHex(c) <==> c in "0123456789abcdefABCDEF"
  {
    var all := "0123456789abcdefABCDEF";
    assert IsDigit(c) ==> all[c as int - '0' as int] == c;
    assert 'a' <= c <= 'f' ==> all[10 + c as int - 'a' as int] == c;
    assert 'A' <= c <= 'F' ==> all[16 + c as int - 'A' as int] == c;
  }

  /** No reply to an owned operation is ever mistaken for a stop packet. */
  lemma RepliesAreNoStops(raw: string, id: string, requested: nat)
    requires ParseReply(raw, id, requested).Some?
    ensures !IsStop(raw)
  {
    JoinSplit(raw, '|');
    assert raw[0] == 'F';
  }

  datatype LinkError = Silent | Late | TooManyStops

  datatype Heard = Heard(reply: string) | Lost(error: LinkError)

  /** The packets a link delivers, with the time limit each was awaited under. */
  class Link {
    var clock: nat
    ghost var packets: seq<string>
    ghost var latest: nat
    /** How many waits brought nothing. */
    ghost var silences: nat

    constructor ()
      ensures packets == []
    {
      clock := 0;
      packets := [];
      latest, silences := 0, 0;
    }

    /** Any packet after any time, or none. `latest` is when the wait has to be over. */
    method Await(budget: nat) returns (packet: Option<string>)
      requires budget > 0
      modifies this
      ensures clock >= old(clock) && latest == old(clock) + budget
      ensures packets == if packet.Some? then old(packets) + [packet.value] else old(packets)
      ensures silences == old(silences) + if packet.Some? then 0 else 1
    {
      latest := clock + budget;
      packet := *;
      if packet.Some? {
        packets := packets + [packet.value];
      } else {
        silences := silences + 1;
      }
      Tick();
    }

    method Tick()
      modifies this`clock
      ensures clock >= old(clock)
    {
      var n: int :| n >= 0;
      clock := clock + n;
    }

    /**
      Sends a command and awaits its reply. The stop packets that come first are handed over in
      order, none is lost, and no wait reaches beyond the budget of the whole exchange.
    */
    method Converse(budget: nat) returns (r: Heard, stops: seq<string>)
      requires budget > 0
      modifies this
      ensures forall i :: 0 <= i < |stops| ==> IsStop(stops[i])
      ensures packets == old(packets) + stops + if r.Heard? then [r.reply] else []
      ensures r.Heard? ==> !IsStop(r.reply) && |stops| <= 128
      ensures r == Lost(TooManyStops) ==> |stops| == 129
      ensures silences == old(silences) + if r == Lost(Silent) then 1 else 0
      ensures r == Lost(Late) ==> |stops| > 0 && clock - old(clock) >= budget
      ensures latest == old(clock) + budget
    {
      stops := [];
      var deadline := clock + budget;
      var next := Await(budget);
      while next.Some? && IsStop(next.value)
        invariant forall i :: 0 <= i < |stops| ==> IsStop(stops[i])
        invariant packets == old(packets) + stops + if next.Some? then [next.value] else []
        invariant |stops| <= MAX_STOPS && latest == deadline && clock >= old(clock)
        invariant silences == old(silences) + if next.Some? then 0 else 1
        decreases MAX_STOPS - |stops|, next.Some?
      {
        stops := stops + [next.value];
        Tick();
        if clock >= deadline {
          return Lost(Late), stops;
        }
        if |stops| > MAX_STOPS {
          return Lost(TooManyStops), stops;
        }
        next := Await(deadline - clock);
      }
      r := if next.Some? then Heard(next.value) else Lost(Silent);
    }
  }
}
