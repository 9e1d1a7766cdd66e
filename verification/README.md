# emucap: stops, steps, transports and media graphs

A Dafny model of the parts of emucap whose correctness depends on interleavings, on whole runs,
or on two separately written pieces of code agreeing.

| module | what it models |
|---|---|
| `N64Gate` | the mutex and condition variable that park the one emulation thread at a frame or poll boundary, as a transition system of critical sections |
| `N64Step` | the control thread's exact step over that gate: arm, launch, wait, cancel, recover |
| `N64Control` | pause and resume against the same core |
| `MediaSnapshot`, `IndirectMedia`, `PlaylistHashing` | one state of the file system, the review of indirect media over it, and the separately written hashing traversal |
| `MediaDiscovery`, `PlaylistListing` | what the two traversals find, written out as trees: exactly when they succeed, and every name in order |
| `MediaAgreement`, `MediaReview` | that the two traversals agree, and what a whole review does |
| `MediaWalks` | the two traversals as the stateful objects they are, proved equal to their specifications |
| `RspCodec`, `RspClient` | packet framing of the GDB Remote Serial Protocol, and the client with buffer, deadlines and poisoning |
| `OwnedFrames` | the correlated frame operation: reply grammar, protocol of a run, the loop itself, stop packets |
| `Breakpoints` | the public breakpoint map over a native array whose removals shift slots |
| `BoundedLines` | the bounded line reader of the stdio transport |
| `GraphHash`, `MediaGraph` | what is fed to the digest of a media graph, and validation and hashing of its members |
| `InputMovie` | parsing and canonical form of input movies |
| `PollRing` | the ring of controller polls and readers that follow it |
| `XmlText` | XML escaping by sequential replacement |
| `Base`, `Ordered`, `Text` | shared types; sorted string sets; splitting, trimming and decimal numbers |

Code that changes state is a class or method with loops, proved against a specification function
or a protocol; the properties of those are lemmas. The other side of every boundary (the core, the
peer, the disk, the clock, a cancelling client) is arbitrary.

## Assumptions about the environment

- N64: there is one emulation thread; frame numbers continue by one except after a reset or a state
  load; poll numbers always continue; a debugger update is counted only when the thread stops in
  the debugger, and it stays there until a debugger step; a debugger step given to a thread that is
  not stopped has no effect; only the control side moves the run state away from PAUSED. The value
  an `Interfere` leaves is reached by the core's own steps alone.
- Every wait, poll pause or retry moves the clock on by at least one tick, and by at least its own
  length where it has one. Clocks never run backwards.
- Media: one fixed snapshot while a review and a hashing run are compared. Names are opaque portable
  relative paths, one character a byte; a member's canonical path has the extension of its name.
- RSP: `reliable` says that no socket operation fails and no deadline passes; claims that a call
  succeeds are made for that case, all others hold for every failure. `closes` says whether the peer
  ends the connection behind its last byte.

## What turned out otherwise than one might expect

- The resume hook need not run for a park that a release ended (`N64Gate.ReleasedParkMayMissHook`);
  `N64Gate.HookRunsUnlessDropped` says exactly when it runs.
- A breakpoint latch left unread before a step makes a cancelled step record a debugger stop over a
  held barrier (`N64Step.Host.OnCancel`). The next resume then reports a running machine that is
  still held (`N64Control.Resume`), and the next step can report boundaries although nothing has
  moved (`N64Step.ForgottenBarrierPassesForAFrame`). `N64Step.Host.StepWithFrameGate` says exactly
  when: a completed step is a true one if and only if a blocked gate was on record at its start,
  and from a wrong record boundaries are reported exactly if the old one passes the check.
- A host-deadline count is exact while the clock continues, and can be wrong after a reset or a state
  load (`N64Step.ContinuingCountIsRight`, `N64Step.UnsynchronizedCountCanFail`).
- A launch whose run state cannot be set leaves the gate armed (`N64Step.Host.Launch`); a resume then
  runs the machine to its next boundary only (`N64Control.Resume`).
- A pause after one that timed out, and a pause after a breakpoint hit during a resume, claim a stop
  that is not there (`N64Control.UnansweredPauseLies`, `N64Control.ResumeRaceLies`).
  `N64Control.PauseVerdictTruth` says exactly when the claim is true, and `N64Control.Session` which
  histories of calls keep it true.
- Playlist hashing applies the Mednafen sidecar rule for every adapter, the review only for
  mednafen (`MediaReview.HashedNamesWereApproved`, `MediaReview.SidecarEscapesReview`).
- At the last breakpoint id the native point is armed and left without an owner
  (`Breakpoints.BreakpointTable.Set`); a trigger that names several covered kinds matches several
  records (`Breakpoints.MatchesPerKind`).
- In an owned frame run the frozen label can fall again (`OwnedFrames.RaisedMayFall`);
  `OwnedFrames.LowersIffCrossed` says exactly when.
- An owned frame run whose time is up between its last look at the clock and the poll behind it ends
  with an error and asks for no stop (`OwnedFrames.SilentRun`). A run asks for one exactly if a look
  found the cancellation flag set or the time up (`OwnedFrames.AskedIffSeen`).
- Recovery over a debugger stop that is already counted always ends the generation
  (`N64Step.Host.Recover`), so an update that is no known breakpoint never leaves a usable step
  (`N64Step.Host.OnUpdate`).
- The records of a Mednafen sidecar are not checked again at hashing if a track is the same file
  (`MediaGraph.CueGraphIdentity`).
- Of noise and payload together, 8 MiB and one byte are tolerated while polling
  (`RspCodec.CutsFitIffOrderly`).
- A checksum of a plus sign and one hexadecimal digit is accepted, because the library routine that
  reads it accepts a sign.

## Model

| member | source | states |
|---|---|---|
| `N64Gate.GateInvStep` | src/n64_adapter_frame.rs:40-52 | Every critical section of either thread keeps the gate invariant: blocked only over a thread parked at the gate's own number, a wakeup pending for every parked thread nobody holds, no arm outstanding after shutdown. |
| `N64Gate.GateSafeInEveryRun` | src/n64_adapter_frame.rs:165-276 | In every state reachable by any interleaving: blocked implies parked at `frame`, a released or shut-down park has its wakeup pending, and accepted arms equal parks plus dropped arms plus the one outstanding. |
| `N64Gate.ParkConsumesItsOwnArm` | src/n64_adapter_frame.rs:249-267 | The only step that parks is the boundary's entry, it consumes exactly one arm, and the boundary is of the armed kind. |
| `N64Gate.BoundaryParksIff` | src/n64_adapter_frame.rs:249-267 | At a boundary the thread parks if and only if the gate is armed for that kind and not shut down, for a screenshot only with its result known; otherwise the gate is untouched. |
| `N64Gate.WakesIffLetGo` | src/n64_adapter_frame.rs:268-276 | A woken thread leaves if and only if nothing blocks it any more; a wakeup without that changes nothing. |
| `N64Gate.ShutdownIsFinal` | src/n64_adapter_frame.rs:222-234 | After a shutdown nothing parks and no arm is accepted, over any run without a reset. |
| `N64Gate.HookRunsForPark` | src/n64_adapter_frame.rs:259-276 | However a park ends and whatever the control side does meanwhile, the resume hook runs once for it exactly if it is installed when the thread leaves, else not at all. |
| `N64Gate.HookDroppedForGood` | src/n64_adapter_frame.rs:205-234 | A hook nobody reinstalls is still installed after a run exactly if the run has no reset and no shutdown. |
| `N64Gate.HookRunsUnlessDropped` | src/n64_adapter_frame.rs:196-234 | For an installed hook: one more run of it if and only if neither reset nor shutdown happened before the thread left. |
| `N64Gate.ReleasedParkMayMissHook` | src/n64_adapter_frame.rs:165-176 | "Exactly once per park ended by release" is false: a shutdown that overtakes the woken thread drops the hook. A concrete run shows it. |
| `N64Step.StopHoldsAlone` | src/n64_adapter_frame.rs:261-265 | A thread held by gate or debugger stays so under any number of core steps, and no counter, run state or arm moves. |
| `N64Step.AdvancingStep` | src/n64_adapter_frame.rs:236-276 | No core step leaves the set of states "not yet at, arriving at, held at, or stopped on the way to the one armed boundary". |
| `N64Step.NeverPastTheBoundary` | src/n64_adapter.rs:723-902 | The core never runs past the armed boundary, however many steps it takes before anyone looks. |
| `N64Step.ReleasedAdvances` | src/n64_adapter.rs:748-773 | Letting a stop go with the gate already armed starts an advance by exactly one boundary. |
| `N64Step.StaleLatchForgetsTheBarrier` | src/n64_adapter.rs:789-841 | A breakpoint latch left unread makes the drain of the cancellation path forget a barrier that really holds the thread; a concrete run shows it. |
| `N64Step.UnsynchronizedCountCanFail` | src/n64_adapter.rs:867-879 | After a reset or a state load the host-deadline result can report one boundary as another number of them. |
| `N64Step.ContinuingCountIsRight` | src/n64_adapter.rs:867-879 | A clock that continues is reported right, synchronized or not: the count is the number of parks gained. |
| `N64Step.MisreadIffUnverified` | src/n64_adapter_frame.rs:278-301 | A wait over a barrier that was never let go takes the old boundary for the new one, for a hold of the kind asked for, if and only if the clock is not verified. |
| `N64Step.ForgottenBarrierPassesForAFrame` | src/n64_adapter.rs:739-902 | A reachable state after a cancelled poll step: the next frame step takes the held poll for a frame, verified clock or not, and nothing moves. |
| `N64Step.Host.WaitForGate` | src/n64_adapter_frame.rs:71-110 | Whatever the wait reports, only the core has moved; a frame outcome means held at the gate's number, an update outcome means stopped at exactly one newer update. |
| `N64Step.Host.ParkCancelled` | src/n64_adapter_frame.rs:129-163 | A held boundary is reported unreleased; the arm is dropped only after a newer debugger update proved the other stop; on failure neither is touched. It gives up only after a shutdown, when PAUSED could not be set, or when a second is over, PAUSED having been asked for unless the first look alone took that long. |
| `N64Step.Host.Recover` | src/n64_adapter.rs:1025-1042 | Recovery either proves a stop and records which of the two it is, or ends the generation with nothing claimed frozen; over a debugger stop it always ends the generation, because it asks for a newer update than the one the thread sits at. |
| `N64Step.Host.StopGeneration` | src/n64_adapter.rs:1068-1090 | Ending the generation leaves a record that is true and claims no stop, and a gate that neither holds the thread nor will: not armed, not blocked, a parked thread woken. |
| `N64Step.Host.Drain` | src/n64_adapter_debug.rs:590-625 | The latch is looked at exactly when an update is newer than the last one seen; a pending breakpoint makes the record say "debugger stop". |
| `N64Step.Host.Launch` | src/n64_adapter.rs:741-773 | Arm first, clear the stale pause intent while the thread still cannot run, then let the stop on record go: success starts an exact advance with the run state RUNNING; a failure leaves the stop, and the gate armed exactly if the run state could not be set; a barrier not on record is never let go but by a refused debugger step. |
| `N64Step.Host.OnCancel` | src/n64_adapter.rs:789-841 | Cancellation counts a held boundary and not a debugger stop, leaves the machine frozen and stopped, and leaves the record right exactly if no latch was left unread. It ends the generation only after a search for a stop in vain, over a breakpoint without a record, or for a boundary whose check can fail. |
| `N64Step.Host.OnUpdate` | src/n64_adapter.rs:842-866 | A classified breakpoint ends the step at the boundaries completed; any other update always ends the generation: no recovery over the stop it announced can succeed. |
| `N64Step.Host.OnExpired` | src/n64_adapter.rs:867-879 | A spent host budget is reported only over a proved stop and past the deadline, with the boundaries the clock shows; the generation ends only after a search for a stop in vain. |
| `N64Step.Host.StepBoundary` | src/n64_adapter.rs:741-902 | One boundary: from a right record, not done means held exactly one boundary on and, with a known clock, checked without fail; from a wrong one, nothing moves and the old boundary is taken exactly if it passes the check. |
| `N64Step.Host.StepWithFrameGate` | src/n64_adapter.rs:685-920 | From any start whose frozen record is true, and over every interleaving: a completed step of N has gained N parks if and only if a blocked gate was on record at the start; then its clock ends at its start plus N, every successful result is frozen and really stopped, interrupted steps report exactly the boundaries reached, and the gate is left armed exactly if the run state could not be set. Otherwise nothing moves, and boundaries are reported exactly if the old one passes for a new one. Every other result has its cause: a cancellation somebody made, a deadline that is over, a wait or a whole second of recovery spent, a breakpoint read, or a native call that was refused. |
| `N64Control.PauseVerdictTruth` | src/n64_adapter.rs:539-573 | In every run a pause claims a stop truly if and only if the gate is blocked or an update was counted since the last debugger step. The control side can read the update count, but only before or after its debugger step; the model takes it in the same step. |
| `N64Control.UnansweredPauseLies` | src/n64_adapter.rs:548-566 | After a pause that timed out the next pause claims a stop over a running thread; the run is given. |
| `N64Control.ResumeRaceLies` | src/n64_adapter.rs:575-599 | A breakpoint that hits while a running machine is being resumed is let go unread, and the next pause claims a stop that is over; the run is given. |
| `N64Control.TruthRun` | src/n64_adapter_lifecycle.rs:142-146 | Left alone, the core keeps true signs of a stop true, and an update counted since means a debugger stop. |
| `N64Control.DrainAny` | src/n64_adapter_debug.rs:590-604 | Looking for a breakpoint with the machine running: a latch that is true gives a true claim, and nothing stopped is disturbed. |
| `N64Control.Pause` | src/n64_adapter.rs:539-573 | A stop that was asked for is always there; one taken for given is there if the sign it was taken from was true. A breakpoint is reported if and only if one was read; the pause fails only if PAUSED was refused or brought no stop in three seconds. |
| `N64Control.Resume` | src/n64_adapter.rs:575-599 | A debugger stop is let go; a gate stop is let go if and only if it is on record and no breakpoint was unread, and otherwise stays held although "running" is reported; it is refused if and only if a native call was, a breakpoint had no record or the generation is over; a gate left armed holds the machine again at its next boundary. |
| `N64Control.Session` | src/n64_adapter.rs:539-599 | Over any sequence of pauses, resumes and steps a machine on record as frozen is really stopped, as long as no timed-out pause was taken for a stop, no running machine was resumed and no debugger step was refused; the client sees all three. |
| `MediaReview.NormalizedIffSorted` | src/content_identity.rs:591-608 | Submitted names are the exact normalized set if and only if they are strictly sorted. |
| `Ordered.LessIsLexicographic` | src/content_identity.rs:591-608 | The order of names is that of their bytes: one string ends first or has the smaller character where they part. |
| `MediaReview.FaultlessIff` | src/content_identity.rs:568-608 | An approval is refused unread exactly if it is another entry's or adapter's, or for its bounds, its order or a name that is not portable. |
| `MediaReview.FirstInspection` | src/content_identity.rs:573-643 | A first inspection approves nothing: it is refused if and only if the walk without approvals is, and else asks for everything that walk found. |
| `MediaReview.ApprovedWasSubmitted` | src/content_identity.rs:573-643 | Whatever is submitted: approved is only what was submitted name for name, a review asks for exactly the names that were not, and stale is only what names a member no longer found. |
| `MediaAgreement.EntriesAgree` | src/m3u.rs:97-184 | The review walk and the hashing walk over the same playlist lines stay in step, name for name, through nested playlists and descriptors. |
| `MediaAgreement.DiscAgrees` | src/m3u.rs:186-216 | One approved disc descriptor keeps the two walks in step, sidecar rules of both sides included. |
| `MediaReview.OnlyApprovedIsOpened` | src/content_identity.rs:439-506 | In every outcome, refusals included, descriptors below the entry are opened only if already approved, and every declared set fits the member bounds. |
| `MediaReview.DiscoveryMonotone` | src/content_identity.rs:415-557 | Approving more never makes discovery lose a name. |
| `MediaReview.ApprovedSetIsTheClosure` | src/content_identity.rs:612-643 | A set that discovery reproduces is the closure: no discovery under any approval finds a name outside it. |
| `MediaReview.OneAdmissibleApproval` | src/content_identity.rs:560-644 | On an unchanged file system at most one approval is ever admitted. |
| `MediaReview.ResubmissionIsCurrent` | src/content_identity.rs:573-643 | Resubmitting a handed-out approval is never foreign, oversized, unnormalized or stale; it is admitted, grows strictly, or stops at the walk. |
| `MediaReview.ReviewSettles` | src/content_identity.rs:560-644 | A review that resubmits what it is handed ends within 256 rounds in a refusal by the walk, or in the approval of exactly the names submitted last; without a submission nothing is approved. |
| `MediaReview.HashedNamesWereApproved` | src/m3u.rs:70-216 | For an approved playlist that hashing accepts: all hashed names are approved if and only if the adapter is mednafen or every present sidecar was approved; every approved name is hashed but an absent sidecar. |
| `MediaReview.OneDiscExists` | src/m3u.rs:131-146 | The file system of the next row exists: a playlist naming one CUE with one track beside a present sidecar. |
| `MediaReview.SidecarEscapesReview` | src/m3u.rs:131-146 | With any other adapter a present sidecar is hashed that nobody approved; a concrete file system shows it. |
| `MediaDiscovery.DiscoverIs` | src/content_identity.rs:415-557 | A walk goes through if and only if every line and member it meets is in order and the names and discs keep the bounds, and then has declared exactly the names that occur, in all its descriptors. |
| `MediaDiscovery.DeclaredIs` | src/content_identity.rs:290-337 | A declared member is a descriptor if some occurrence of its name is one, else what the first occurrence says, and optional if all of them are. |
| `MediaDiscovery.JoinedBeside` | src/content_identity.rs:338-363 | A name that a descriptor in a folder declares is a name in that folder. |
| `PlaylistListing.AddReferencesInOrder` | src/m3u.rs:186-216 | Members are listed in the order in which they are declared, all of them, or there are more than 255. |
| `PlaylistListing.CollectRootIs` | src/m3u.rs:70-216 | Hashing lists the lines one after the other, each followed by what it stands for: a nested playlist by its own lines, a disc by its members in declared order and its sidecar. It succeeds if and only if every line fits, with at most 255 names and 25 discs. |
| `PlaylistListing.HashedBeside` | src/m3u.rs:111-130 | A name that a playlist or disc in a folder declares is a name in that folder. |
| `MediaWalks.PlaylistDeclaration.AddDeclaration` | src/content_identity.rs:290-337 | The record is merged before the bounds are checked: the state left, also by a bounds refusal, and the result are those of the specification of the walk. |
| `MediaWalks.PlaylistDeclaration.Collect` | src/content_identity.rs:416-437 | The recursive walk over mutable state gives the specified walk and restores the chain of open playlists. |
| `MediaWalks.PlaylistDeclaration.CollectEntry` | src/content_identity.rs:439-506 | One playlist entry: declared, and entered only when approved, as specified. |
| `MediaWalks.Collector.CollectRoot` | src/m3u.rs:89-95 | The hashing collector lists exactly the specified names and leaves no playlist active. |
| `MediaWalks.Collector.CollectNested` | src/m3u.rs:70-87 | A nested playlist is listed as specified, with its depth and cycle checks, and the active set restored. |
| `MediaWalks.Collector.CollectMember` | src/m3u.rs:131-184 | A descriptor or nested playlist contributes its members and counts as specified. |
| `RspCodec.FrameDecodesIffPlain` | src/gdb_rsp.rs:293-305 | A framed payload behind short noise decodes to itself, ending where the frame ends, if and only if it has no '#' and no '}' before another byte ("Overview" of the GDB Remote Serial Protocol). |
| `RspCodec.ChecksumOfOne` | src/gdb_rsp.rs:293-295 | The checksum of one byte is that byte. |
| `RspCodec.ChecksumOfBoth` | src/gdb_rsp.rs:293-295 | The checksum of two parts is the sum of theirs modulo 256, which with the row before fixes it. |
| `RspCodec.FrameIs` | src/gdb_rsp.rs:293-305 | A frame is the header, the payload, the end mark and the checksum in two lower-case hexadecimal digits. |
| `RspCodec.HexIs` | src/gdb_rsp.rs:486-495 | Two hexadecimal digits of either case are read as one number, a sign and one digit as that digit, and nothing else is accepted. |
| `RspCodec.FlipIsOneBit` | src/gdb_rsp.rs:496-507 | The byte an escape stands for differs in the bit of value 32 only. |
| `RspCodec.UnescapeOne` | src/gdb_rsp.rs:496-507 | Behind plain bytes an escape and the flipped byte stand for one byte. |
| `RspCodec.DecodeOfPrefix` | src/gdb_rsp.rs:525-535 | Once a packet is complete in the buffer, later bytes change neither the packet nor its length. |
| `RspCodec.UnescapeLength` | src/gdb_rsp.rs:496-507 | Escape decoding returns its input exactly for bodies without an escape before another byte, and otherwise shortens it. |
| `RspCodec.CutsFitIffOrderly` | src/gdb_rsp.rs:537-556 | A packet may be cut anywhere without being given up while pending if and only if noise and payload together are at most 8 MiB and one byte. |
| `RspClient.AnswerRoundTrip` | src/gdb_rsp.rs:429-508 | Whether the peer acknowledges first or answers straight away, a plain answer to a request decodes to itself and the bytes behind it remain. |
| `RspClient.AckScanIs` | src/gdb_rsp.rs:429-453 | The wait for an acknowledgement ends behind the first plus sign, or before the first header, among the first eight bytes. |
| `RspClient.GdbRspClient.WritePacket` | src/gdb_rsp.rs:429-453 | At most 8 bytes are taken while waiting for the acknowledgement, also when that fails; on success the frame went out once more per NAK, and no reply byte is lost. |
| `RspClient.GdbRspClient.ReadBody` | src/gdb_rsp.rs:467-480 | The body read is everything up to the first '#', within the payload limit. |
| `RspClient.GdbRspClient.DecodeEscapes` | src/gdb_rsp.rs:496-507 | The decoding loop computes the recursive unescaping. |
| `RspClient.GdbRspClient.ReadPacket` | src/gdb_rsp.rs:455-508 | The blocking reader takes exactly the first packet of the stream, acknowledges it or refuses its checksum, and needs no socket byte for a packet already buffered. |
| `RspClient.GdbRspClient.RecvNonblockingPacket` | src/gdb_rsp.rs:558-596 | A poll without result drops no byte and answers nothing, and comes only from a wait that found nothing, a chunk that ends no packet, or a silent peer; a poll with a result took exactly the next packet; the socket is read at most once and no error of it is passed over. |
| `RspClient.GdbRspClient.PollRepeatedly` | src/gdb_rsp.rs:558-596 | However the stream is cut into reads, polling yields the packets the blocking decoder would take, in order; on a clean stream it fails only behind the end of the connection, with all of them out. |
| `RspClient.GdbRspClient.ReadRepeatedly` | src/gdb_rsp.rs:455-508 | Blocking reads take the packets of the stream one by one. |
| `RspClient.GdbRspClient.Begin` | src/gdb_rsp.rs:345-357 | An exchange gets at most its budget and never more than the exchange around it; a poisoned client is refused. |
| `RspClient.GdbRspClient.End` | src/gdb_rsp.rs:358-400 | The outer deadline is restored on every path, and any failure of an exchange poisons. |
| `RspClient.GdbRspClient.Exchange` | src/gdb_rsp.rs:655-746 | One budgeted call: deadline restored, failure of a begun exchange poisons, a poisoned client moves no data byte, success is the decoded answer. |
| `RspClient.GdbRspClient.RunCalls` | src/gdb_rsp.rs:345-400 | Over any sequence of calls, with budgets or without, everything after the first begun failure is refused as poisoned, and the bytes stay what they were at that failure. |
| `OwnedFrames.ReplyRoundTrip` | src/mame_owned_frames.rs:83-113 | A reply written out is read back for an operation if and only if it names that operation and its phase, progress and reason fit together. |
| `OwnedFrames.SeparatorInIdentity` | src/mame_owned_frames.rs:84-88 | For an identity with a separator in it no reply is ever accepted. |
| `OwnedFrames.EachCommandOnce` | src/mame_owned_frames.rs:139-216 | Any proper run has at most one admission, cancellation, release and clock query, and a successful one exactly one admission, release and clock query. |
| `OwnedFrames.ProgressNeverFalls` | src/mame_owned_frames.rs:161-213 | Accepted progress never decreases and never exceeds the count, whatever the host answers. |
| `OwnedFrames.RaisedOverTerminal` | src/mame_owned_frames.rs:173-216 | The frozen label is raised only over a terminal reply, in failing runs too. |
| `OwnedFrames.LowersIffCrossed` | src/mame_owned_frames.rs:156-216 | A raised label comes down again if and only if a stop request behind it was answered by a running operation, and so was a poll behind that. |
| `OwnedFrames.RaisedMayFall` | src/mame_owned_frames.rs:157-168 | A proper run in which that happens. |
| `OwnedFrames.AsksIffSeen` | src/mame_owned_frames.rs:154-160 | A stop request is sent, or given up past its own deadline, exactly behind a look that found the cancellation flag set or the run's deadline passed, and behind every such look. |
| `OwnedFrames.AskedIffSeen` | src/mame_owned_frames.rs:154-160 | So a run that does not end with a look has asked for a stop if and only if one of its looks saw a reason. |
| `OwnedFrames.SeenIsLast` | src/mame_owned_frames.rs:154-160 | The look that sees a reason is the last one, and from then on the stop is under way or the run is over. |
| `OwnedFrames.LooksBeforeEachPoll` | src/mame_owned_frames.rs:154-207 | Without a stop, every poll and every release goes out directly behind a look that found no reason for one. |
| `OwnedFrames.GivenUpLate` | src/mame_owned_frames.rs:119-131 | A command is given up only past a deadline: the run's own, unless a stop is under way or asked for. |
| `OwnedFrames.CommandsName` | src/mame_owned_frames.rs:139-144 | Every command names the operation, the admission also the count and 240000 milliseconds. |
| `OwnedFrames.OverdueIffRanOut` | src/mame_owned_frames.rs:154-160 | A successful run was stopped by its own deadline if and only if one of its looks found that deadline passed. |
| `OwnedFrames.SilentRun` | src/mame_owned_frames.rs:202-210 | A proper run whose time is up between its last look and the poll behind it: it ends without asking for a stop. |
| `OwnedFrames.PollsBounded` | src/mame_owned_frames.rs:207-213 | Whatever the host does, fewer than 24000 polls precede the stop request and fewer than 250 follow it. |
| `OwnedFrames.BudgetsAreBorrowed` | src/mame_owned_frames.rs:119-131 | Every command gets all the time its owner has left, up to two seconds: until the run's deadline 240 s behind its start, or within 2500 ms for and after a stop request. |
| `OwnedFrames.Host.ExchangeUntil` | src/mame_owned_frames.rs:119-131 | Nothing is sent once the owner's deadline has passed; otherwise one command goes out within it. |
| `OwnedFrames.Host.StopIfAsked` | src/mame_owned_frames.rs:153-168 | One look at clock and flag; a stop is asked for exactly if it finds the flag set or the deadline passed, its budget starts at the cancellation or not before the deadline, and nothing is looked at once a stop is under way. |
| `OwnedFrames.Host.Release` | src/mame_owned_frames.rs:173-201 | Success needs the unchanged terminal reply, a valid clock, and time left of the stop budget. |
| `OwnedFrames.Host.Run` | src/mame_owned_frames.rs:133-217 | The loop ends for every host and keeps to the protocol; success means all of it was gone through, reports the terminal reply, names the deadline as reason exactly for a cancellation whose look found the time up and the other side's reason else, and comes before the stop deadline; a run that breaks off says how, its error that of the answer it got. Every look on record reports clock and flag as they were, and the run has asked for a stop if and only if one of them found the flag set or the time up; so it has whenever it was cancelled before a look. |
| `OwnedFrames.RepliesAreNoStops` | src/mame_owned_frames.rs:66-72 | No acceptable reply looks like a stop packet. |
| `OwnedFrames.StopIs` | src/mame_owned_frames.rs:66-72 | A stop packet is an S or a T and two hexadecimal digits of either case, and anything behind them. |
| `OwnedFrames.Link.Converse` | src/mame_owned_frames.rs:26-64 | Leading stop packets, at most 128, are all handed over in order; the first other packet is the reply; every wait reaches exactly to the end of the budget, and silence is reported only after a wait that brought nothing. |
| `Breakpoints.LookupFindsOwner` | src/n64_adapter_debug.rs:693-725 | Looking up a public record's own range answers with its own slot. |
| `Breakpoints.AddCoherent` | src/n64_adapter_debug.rs:444-500 | Appending a disjoint point keeps the public map a bijection onto the native array. |
| `Breakpoints.RemoveCoherent` | src/n64_adapter_debug.rs:344-352 | Removing a point and shifting the slots behind it keeps the bijection. |
| `Breakpoints.MatchesPerKind` | src/n64_adapter_debug.rs:354-362 | A trigger matches as many public records as it covers kinds: exactly one if and only if exactly one kind is covered. |
| `Breakpoints.MatchIffCaught` | src/n64_adapter_debug.rs:354-375 | A record matches a trigger if and only if its kind is among the flags and the native lookup of the triggering address answers its slot. |
| `Breakpoints.OverlapIffShared` | src/n64_adapter_debug.rs:338-342 | Two points overlap if and only if they are of one kind and share an address. |
| `Breakpoints.AdmissibleIs` | src/n64_adapter_debug.rs:219-262 | Exec points are one 32-bit address, data points ranges within 8 MiB. |
| `Breakpoints.SingleKindHasOneOwner` | src/n64_adapter_debug.rs:605-620 | A single-kind trigger over an armed point matches one record, the owner of the slot that caught it. |
| `Breakpoints.BreakpointTable.VerifyNative` | src/n64_adapter_debug.rs:693-725 | Verification succeeds if and only if every record's lookup answers its own slot, and always on a coherent table. |
| `Breakpoints.BreakpointTable.Set` | src/n64_adapter_debug.rs:427-500 | A set appends one armed and owned point; every refusal has its cause, in order: 128 points, a bad range, an overlap, a native refusal; it changes nothing; the table stays coherent if and only if ids were not exhausted, in which case the native point is left without an owner. |
| `Breakpoints.BreakpointTable.Clear` | src/n64_adapter_debug.rs:502-538 | A clear removes exactly one record and its slot and shifts the rest; verification then succeeds. |
| `Breakpoints.BreakpointTable.ClearAll` | src/n64_adapter_debug.rs:540-548 | Clearing all empties table and native array. |
| `Breakpoints.BreakpointTable.RunOperations` | src/n64_adapter_debug.rs:427-548 | Any sequence of operations below the id limit keeps the table coherent and never hands out an id twice. |
| `BoundedLines.ItemsOfLines` | src/mcp_stdio.rs:64-109 | Lines written one after another come back one by one, longer ones as oversized; an open tail counts only if it is too long. |
| `BoundedLines.ItemsByFirst` | src/mcp_stdio.rs:64-109 | The answer to one read and the stream behind it make up the items of the whole stream. |
| `BoundedLines.LineReader.ReadBoundedLine` | src/mcp_stdio.rs:64-109 | For every way of cutting the stream the answer is that of the whole stream, the line is its bytes, the buffer never exceeds 1 MiB, an abandoned wait loses nothing, and only an abandoned wait interrupts it. |
| `BoundedLines.LineReader.Receive` | src/mcp_stdio.rs:257-283 | A caller that clears the line after each one gets the items of the whole stream in order, over any number of abandoned waits, and gives up only after as many as allowed. |
| `GraphHash.DecodeEncode` | src/media_graph.rs:374-386 | The length-prefixed encoding of any list of names and contents decodes to that list. |
| `GraphHash.LittleEndianAt` | src/media_graph.rs:374-386 | The byte at a place of a length is the digit of that weight, the lowest first. |
| `GraphHash.EncodeIs` | src/media_graph.rs:374-386 | A member is the length and bytes of its name, then the length and bytes of its content. |
| `GraphHash.PreimageIs` | src/media_graph.rs:290-303 | The digest is fed the domain, the marked entry and the members in order. |
| `GraphHash.PreimageUnique` | src/media_graph.rs:290-303 | Equal digest inputs mean one format, equal entry bytes and the same ordered members; formats never share one. |
| `GraphHash.CuePreimageUnique` | src/cue.rs:579-592 | The SHA-1 input of a CUE sheet decides the sheet's name, bytes and ordered members. |
| `GraphHash.DomainsDiffer` | src/cue.rs:11 | The digest domains of the five formats are different. |
| `GraphHash.DomainIs` | src/cue.rs:12 | The domains follow one scheme with the name of the format in it. |
| `MediaGraph.KeptOncePerFile` | src/media_graph.rs:304-309 | Deduplication keeps exactly one name for every file referred to. |
| `MediaGraph.KeptAreFirsts` | src/media_graph.rs:304-309 | It keeps the first name of each file, in the order of the references. |
| `MediaGraph.AdmitHashedMember` | src/media_graph.rs:37-48 | A member is admitted if and only if it has 1 byte to 2 GiB and the total stays within 8 GiB, without overflow. |
| `MediaGraph.ValidateReferences` | src/media_graph.rs:178-263 | Accepts if and only if count, names, each member and the sum over distinct files are within bounds and none is the entry. |
| `MediaGraph.FeedFile` | src/media_graph.rs:318-337 | A file read in pieces of any length goes whole into both digests, and one that grew is noticed after one byte. |
| `MediaGraph.GraphIdentity` | src/media_graph.rs:279-372 | Succeeds if and only if both readings of the entry are whole and equal, the references are admissible, and every kept member is still within bounds and stays the same in bytes, length and modification time; the digest input, size and file list are then those of the distinct members. |
| `MediaGraph.CheckSbi` | src/cue.rs:420-447 | Accepts exactly a sidecar of 4 bytes to 8 MiB that is the header and whole records, each with a decimal position and of the one known kind. |
| `MediaGraph.SbiIsWritten` | src/cue.rs:420-447 | A file is such a sidecar if and only if it is a list of positions in decimal digits written out behind the header, of at most 8 MiB. |
| `MediaGraph.CueGraphIdentity` | src/cue.rs:548-692 | The same for a CUE sheet and both of its digests, if and only if also the paths resolve once more beside the sheet, and the sidecar is well-formed at validation, and at hashing unless a track before it is the same file. |
| `MediaGraph.SizeIsWhatWasHashed` | src/media_graph.rs:295-313 | The size a successful identity reports is the exact sum of entry and distinct members, at most 8 GiB. |
| `MediaGraph.CueDigestInputsDecide` | src/cue.rs:579-592 | Two successful CUE identities with one SHA-1 input have the same sheet name, sheet and ordered members; with one SHA-256 input the same sheet and members. |
| `MediaGraph.DigestInputDecides` | src/media_graph.rs:279-372 | Two successful identities with one digest input are of one format with the same entry and the same ordered members. |
| `InputMovie.SortIsStable` | src/input_movie.rs:74 | Rows of one frame keep their order when the rows are sorted. |
| `InputMovie.SortSorts` | src/input_movie.rs:74 | Sorting puts the rows in order of their frames. |
| `InputMovie.DenseOrderUnique` | src/input_movie.rs:97-105 | Rows numbered densely from zero have only one order by frame. |
| `InputMovie.OrderOfRowsIsImmaterial` | src/input_movie.rs:78-140 | Texts with the same nonblank rows in any order are both refused or recorded identically. |
| `InputMovie.LooseRowIsRead` | src/input_movie.rs:36-66 | White space around the frame and the names, any letter case and empty names make no difference to the row that is read. |
| `InputMovie.RowsOfLine` | src/input_movie.rs:36-40 | Blank lines are no rows, and every other line is one without the white space around it. |
| `InputMovie.ParsedIff` | src/input_movie.rs:32-76 | A movie is read if and only if it has no more rows than allowed and every row can be read. |
| `InputMovie.RecordedIff` | src/input_movie.rs:78-140 | A recording is accepted if and only if it has the frames asked for, dense from zero, without axes, each with few enough, distinct, plainly written buttons. |
| `InputMovie.ButtonCharIs` | src/input_movie.rs:111-119 | A button is written in lower-case letters, digits and three signs. |
| `InputMovie.MovieRoundTrip` | src/input_movie.rs:32-76 | A canonical movie written out parses to itself. |
| `InputMovie.CanonicalRoundTrip` | src/input_movie.rs:78-140 | The canonical text parses to exactly the canonical movie, and recording it again changes nothing. |
| `InputMovie.CanonicalKeepsState` | src/input_movie.rs:97-134 | Recording keeps every frame: its number, no axes, and exactly its pressed buttons, each once and in order, within the limit. |
| `InputMovie.ParseMovieBounded` | src/input_movie.rs:32-76 | The parsing loop refuses exactly the texts with a bad row or too many, and else gives the sorted rows. |
| `InputMovie.CheckButtons` | src/input_movie.rs:110-128 | The button loop accepts exactly distinct valid names and collects their set. |
| `InputMovie.CanonicalRecordingMovie` | src/input_movie.rs:78-140 | The recording loop computes the canonical form, or refuses, as specified. |
| `PollRing.SelectIsSlice` | src/n64_adapter_poll.rs:76-93 | A selection from the ring is a slice of the generation's whole history. |
| `PollRing.PageIsSlice` | src/n64_adapter_poll.rs:44-73 | A read hands out the history behind the cursor less what was evicted, and next minus after is dropped plus delivered. |
| `PollRing.DroppedIffEvicted` | src/n64_adapter_poll.rs:68-71 | Nothing is reported dropped if and only if the cursor is at most 4096 polls behind. |
| `PollRing.FollowerConserves` | src/n64_adapter_poll.rs:21-93 | Over any interleaving of polls and reads a reader sees rising numbers, each poll as it was made, and seen plus dropped equals its cursor. |
| `PollRing.Polls.Completed` | src/n64_adapter_poll.rs:21-37 | The ring stays the last 4096 polls, numbered consecutively up to the poll count. |
| `PollRing.Polls.ReadInputPolls` | src/n64_adapter_poll.rs:44-93 | A read of the real ring answers with that slice, or refuses a bad limit or a cursor ahead of the generation. |
| `XmlText.EscapeIsTokens` | src/openmsx_bridge.rs:1138-1142 | The three sequential replacements write each special character as its entity exactly once. |
| `XmlText.EscapedHasNoMarkup` | src/openmsx_bridge.rs:1138-1142 | Escaped text has no angle bracket. |
| `XmlText.ReplaceEntity` | src/openmsx_bridge.rs:1144-1151 | One replacement pass decodes one entity and leaves every other entity alone. |
| `XmlText.UnescapeEscape` | src/openmsx_bridge.rs:1138-1151 | The six sequential replacements undo the three for every text, entity text included (section 4.6 of XML 1.0). |

## Left out

- N64Control.Session: a state refresh that recomputes the frozen record, instruction steps and event polling are not among the calls, and a debugger step refused in a launch counts as lost trust although it is harmless over a debugger stop.
- N64Step.Host.OnExpired: after a reset or a state load, and for the screenshot trigger, the count of a host deadline is the difference of the clock; only there it is not tied to the parks.
- Breakpoints.MatchesPerKind: execution points are compared by the program counter, as the code does; conditions and snapshots of a breakpoint are not modelled.
- InputMovie.CanonicalRoundTrip: the JSON controller rows are an arbitrary function of their text; canonical rows never use it.
- RspClient.GdbRspClient.ReadPacket: the payload is kept as bytes; the lossy conversion to text behind it is not modelled.
- BoundedLines.LineReader.Receive: parsing and rejection of messages are left out; a receive dropped while it writes a rejection leaves the line uncleared, and the next line is then read behind it.
- N64Step.Host.StepWithFrameGate: a frozen record over a running thread, as a pause that lies leaves it, is not among the starts, because a cancellation seen at entry would report frozen over a running thread there.
- MediaGraph.GraphIdentity: which names a descriptor refers to is an input; a file that cannot be opened or read to its end counts as one that is not there or has changed.
- MediaGraph.CueGraphIdentity: whether a sidecar is the last reference, and under which name, is an input.
- Instruction steps, screenshots, state files, input setting, memory access and the event queue of the N64 adapter.
- Condition-variable time slices and the polling interval of cancellation: waits are a loop with arbitrary interference.
- The socket layer, authentication, SHA-1, SHA-256 and HMAC: only what is fed to a digest is modelled.
- The wait log and error texts of the RSP client; environment limits of 64-bit counters other than the breakpoint id.
- CUE, CCD, TOC and GDI parsing: a descriptor is given by the names it declares, and in the media review an SBI file by whether it is intact.
- JSON shapes, capability lists, parameter parsing and readiness labels.
- ProducerOwnership, memory_batch, pacing and reconnect are not part of this model.
- Request dispatch of the NDS, Neo Geo, NP2kai and openMSX bridges.
