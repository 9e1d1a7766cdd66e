/** What a whole review does on an unchanged file system. */
module MediaReview {
  import opened Base
  import opened Ordered
  import opened MediaSnapshot
  import opened IndirectMedia
  import opened PlaylistHashing
  import opened MediaAgreement

  // --------------------------------------------- every walk stays within its permissions

  predicate Fits(snap: Snapshot, declared: Declarations) {
    WithinBounds(declared.Keys) && forall n :: n in declared ==> snap.portable(n)
  }

  /** Whatever the walk ends in: it opened approved names only and kept the member bounds. */
  predicate Proper(loader: Loader, d: Discovery, walk: Walk) {
    match walk
    case Refused(_, accessed) => accessed <= d.accessed + loader.approved
    case Going(e) =>
      && e.accessed <= d.accessed + loader.approved
      && (Fits(loader.snap, d.declared) ==> Fits(loader.snap, e.declared))
  }

  lemma AddDeclarationFits(snap: Snapshot, a: Declarations, name: string, role: Role, optional: bool)
    requires AddDeclaration(snap, a, name, role, optional).Ok? && Fits(snap, a)
    ensures Fits(snap, AddDeclaration(snap, a, name, role, optional).value)
  {
  }

  lemma {:induction false} AddAllFits(snap: Snapshot, a: Declarations, owner: string, names: seq<string>,
                                      role: Role, optional: bool)
    requires AddAll(snap, a, owner, names, role, optional).Ok? && Fits(snap, a)
    ensures Fits(snap, AddAll(snap, a, owner, names, role, optional).value)
    decreases |names|
  {
    if names != [] {
      var name := JoinName(owner, names[0]);
      AddDeclarationFits(snap, a, name, role, optional);
      AddAllFits(snap, AddDeclaration(snap, a, name, role, optional).value, owner, names[1..], role, optional);
    }
  }

  lemma DiscFits(loader: Loader, a: Declarations, owner: string, file: FileId, kind: Kind)
    requires DiscMembers(loader, a, owner, file, kind).Ok? && Fits(loader.snap, a)
    ensures Fits(loader.snap, DiscMembers(loader, a, owner, file, kind).value)
  {
    var role := if kind == Ccd then Companion else Track;
    AddAllFits(loader.snap, a, owner, loader.snap.files[file], role, false);
    if kind == Cue && loader.adapter == "mednafen" {
      var next := AddAll(loader.snap, a, owner, loader.snap.files[file], role, false).value;
      AddAllFits(loader.snap, next, owner, [loader.snap.sidecar[file]], OptionalSidecar, true);
    }
  }

  lemma {:induction false} EntriesProper(loader: Loader, d: Discovery, descriptor: string, entries: seq<string>,
                                         depth: nat, active: set<string>)
    requires depth <= MAX_RECURSION_DEPTH
    ensures Proper(loader, d, CollectEntries(loader, d, descriptor, entries, depth, active))
    decreases MAX_RECURSION_DEPTH + 1 - depth, 1, |entries|
  {
    if entries != [] {
      EntryProper(loader, d, descriptor, entries[0], depth, active);
      var walk := CollectEntry(loader, d, descriptor, entries[0], depth, active);
      if walk.Going? {
        EntriesProper(loader, walk.d, descriptor, entries[1..], depth, active);
      }
    }
  }

  lemma {:induction false} EntryProper(loader: Loader, d: Discovery, descriptor: string, child: string,
                                       depth: nat, active: set<string>)
    requires depth <= MAX_RECURSION_DEPTH
    ensures Proper(loader, d, CollectEntry(loader, d, descriptor, child, depth, active))
    decreases MAX_RECURSION_DEPTH + 1 - depth, 0, 1
  {
    var nested := JoinName(descriptor, child);
    var added := AddDeclaration(loader.snap, d.declared, nested, Descriptor, false);
    if added.Ok? {
      if Fits(loader.snap, d.declared) {
        AddDeclarationFits(loader.snap, d.declared, nested, Descriptor, false);
      }
      if nested in loader.approved && nested in loader.snap.resolve {
        DescriptorProper(loader, Declaring(d, nested), nested, depth, active);
      }
    }
  }

  lemma {:induction false} DescriptorProper(loader: Loader, d: Discovery, nested: string, depth: nat,
                                            active: set<string>)
    requires depth <= MAX_RECURSION_DEPTH && nested in loader.snap.resolve
    ensures Proper(loader, d, EnterDescriptor(loader, d, nested, depth, active))
    decreases MAX_RECURSION_DEPTH + 1 - depth, 0, 0
  {
    var file := loader.snap.resolve[nested];
    var kind := loader.snap.kind(nested);
    if kind == M3u {
      PlaylistProper(loader, d, nested, file, depth + 1, active);
    } else if DiscMembers(loader, d.declared, nested, file, kind).Ok? && Fits(loader.snap, d.declared) {
      DiscFits(loader, d.declared, nested, file, kind);
    }
  }

  lemma {:induction false} PlaylistProper(loader: Loader, d: Discovery, descriptor: string, file: FileId,
                                          depth: nat, active: set<string>)
    requires depth <= MAX_RECURSION_DEPTH + 1
    ensures Proper(loader, d, Collect(loader, d, descriptor, file, depth, active))
    decreases MAX_RECURSION_DEPTH + 1 - depth, 2, 0
  {
    if depth <= MAX_RECURSION_DEPTH && DirectEntries(loader.snap, file).Ok? {
      EntriesProper(loader, d, descriptor, DirectEntries(loader.snap, file).value, depth,
                    active + {ActiveName(descriptor)});
    }
  }

  /** Descriptors other than the entry are opened only when already approved, in every outcome. */
  lemma OnlyApprovedIsOpened(loader: Loader, entry: Entry)
    ensures match Discover(loader, entry)
      case Refused(_, accessed) => accessed <= loader.approved
      case Going(d) => d.accessed <= loader.approved && Fits(loader.snap, d.declared)
  {
    assert Ascending({}) == [] && NameBytes([]) == 0;
    assert Fits(loader.snap, NOTHING_YET.declared);
    if entry.kind == M3u {
      PlaylistProper(loader, NOTHING_YET, "", entry.file, 0, {});
    } else if entry.kind != OtherKind && DiscMembers(loader, map[], "", entry.file, entry.kind).Ok? {
      DiscFits(loader, map[], "", entry.file, entry.kind);
    }
  }

  // ------------------------------------------------- two approvals over the same files

  /** Every name the first review may enter and the second one finds is one it may enter too. */
  ghost predicate Covers(big: Loader, small: Loader, found: Declarations) {
    && big.snap == small.snap && big.adapter == small.adapter
    && forall n :: n in small.approved && n in found ==> n in big.approved
  }

  lemma CoversLess(big: Loader, small: Loader, some: Declarations, all: Declarations)
    requires Covers(big, small, all) && some.Keys <= all.Keys
    ensures Covers(big, small, some)
  {
  }

  lemma {:induction false} EntriesMonotone(small: Loader, big: Loader, d: Discovery, e: Discovery, descriptor: string,
      entries: seq<string>, depth: nat, active: set<string>, d1: Discovery, e1: Discovery)
    requires depth <= MAX_RECURSION_DEPTH && d.declared.Keys <= e.declared.Keys
    requires CollectEntries(small, d, descriptor, entries, depth, active) == Going(d1)
    requires CollectEntries(big, e, descriptor, entries, depth, active) == Going(e1)
    requires Covers(big, small, e1.declared)
    ensures d1.declared.Keys <= e1.declared.Keys
    decreases MAX_RECURSION_DEPTH + 1 - depth, 1, |entries|
  {
    if entries != [] {
      var d2 := CollectEntry(small, d, descriptor, entries[0], depth, active).d;
      var e2 := CollectEntry(big, e, descriptor, entries[0], depth, active).d;
      EntriesGrow(big, e2, descriptor, entries[1..], depth, active);
      CoversLess(big, small, e2.declared, e1.declared);
      EntryMonotone(small, big, d, e, descriptor, entries[0], depth, active, d2, e2);
      EntriesMonotone(small, big, d2, e2, descriptor, entries[1..], depth, active, d1, e1);
    }
  }

  lemma {:induction false} EntryMonotone(small: Loader, big: Loader, d: Discovery, e: Discovery, descriptor: string,
      child: string, depth: nat, active: set<string>, d1: Discovery, e1: Discovery)
    requires depth <= MAX_RECURSION_DEPTH && d.declared.Keys <= e.declared.Keys
    requires CollectEntry(small, d, descriptor, child, depth, active) == Going(d1)
    requires CollectEntry(big, e, descriptor, child, depth, active) == Going(e1)
    requires Covers(big, small, e1.declared)
    ensures d1.declared.Keys <= e1.declared.Keys
    decreases MAX_RECURSION_DEPTH + 1 - depth, 0, 1
  {
    var nested := JoinName(descriptor, child);
    EntryGrows(big, e, descriptor, child, depth, active);
    if nested in small.approved {
      DescriptorMonotone(small, big, Declaring(d, nested), Declaring(e, nested), nested, depth, active, d1, e1);
    }
  }

  lemma {:induction false} DescriptorMonotone(small: Loader, big: Loader, d: Discovery, e: Discovery, nested: string,
      depth: nat, active: set<string>, d1: Discovery, e1: Discovery)
    requires depth <= MAX_RECURSION_DEPTH && d.declared.Keys <= e.declared.Keys
    requires small.snap == big.snap && nested in small.snap.resolve
    requires EnterDescriptor(small, d, nested, depth, active) == Going(d1)
    requires EnterDescriptor(big, e, nested, depth, active) == Going(e1)
    requires Covers(big, small, e1.declared)
    ensures d1.declared.Keys <= e1.declared.Keys
    decreases MAX_RECURSION_DEPTH + 1 - depth, 0, 0
  {
    var file := small.snap.resolve[nested];
    if small.snap.kind(nested) == M3u {
      PlaylistMonotone(small, big, d, e, nested, file, depth + 1, active, d1, e1);
    } else {
      DiscDeclares(small, d.declared, nested, file, small.snap.kind(nested));
      DiscDeclares(big, e.declared, nested, file, small.snap.kind(nested));
    }
  }

  lemma {:induction false} PlaylistMonotone(small: Loader, big: Loader, d: Discovery, e: Discovery, descriptor: string,
      file: FileId, depth: nat, active: set<string>, d1: Discovery, e1: Discovery)
    requires depth <= MAX_RECURSION_DEPTH + 1 && d.declared.Keys <= e.declared.Keys
    requires Collect(small, d, descriptor, file, depth, active) == Going(d1)
    requires Collect(big, e, descriptor, file, depth, active) == Going(e1)
    requires Covers(big, small, e1.declared)
    ensures d1.declared.Keys <= e1.declared.Keys
    decreases MAX_RECURSION_DEPTH + 1 - depth, 2, 0
  {
    var entries := DirectEntries(small.snap, file).value;
    EntriesMonotone(small, big, d, e, descriptor, entries, depth, active + {ActiveName(descriptor)}, d1, e1);
  }

  lemma DiscoveryCovers(small: Loader, big: Loader, entry: Entry, d: Discovery, e: Discovery)
    requires Discover(small, entry) == Going(d) && Discover(big, entry) == Going(e)
    requires Covers(big, small, e.declared)
    ensures d.declared.Keys <= e.declared.Keys
  {
    if entry.kind == M3u {
      PlaylistMonotone(small, big, NOTHING_YET, NOTHING_YET, "", entry.file, 0, {}, d, e);
    } else {
      DiscDeclares(small, map[], "", entry.file, entry.kind);
      DiscDeclares(big, map[], "", entry.file, entry.kind);
    }
  }

  /** Approving more never makes the discovery lose a name. */
  lemma DiscoveryMonotone(snap: Snapshot, adapter: string, entry: Entry, a: set<string>, b: set<string>,
                          d: Discovery, e: Discovery)
    requires a <= b
    requires Discover(Loader(snap, adapter, a), entry) == Going(d)
    requires Discover(Loader(snap, adapter, b), entry) == Going(e)
    ensures d.declared.Keys <= e.declared.Keys
  {
    DiscoveryCovers(Loader(snap, adapter, a), Loader(snap, adapter, b), entry, d, e);
  }

  /**
    A set that discovery reproduces is the closure of the entry: no discovery, under any
    approval whatsoever, finds a name outside it.
  */
  lemma ApprovedSetIsTheClosure(snap: Snapshot, adapter: string, entry: Entry, closed: set<string>, other: set<string>,
                                d: Discovery, e: Discovery)
    requires Discover(Loader(snap, adapter, closed), entry) == Going(e) && e.declared.Keys == closed
    requires Discover(Loader(snap, adapter, other), entry) == Going(d)
    ensures d.declared.Keys <= closed
  {
    DiscoveryCovers(Loader(snap, adapter, other), Loader(snap, adapter, closed), entry, d, e);
  }

  predicate Admits(snap: Snapshot, entry: Entry, adapter: string, a: Approval) {
    var r := Inspect(snap, entry, adapter, Some(a));
    r.Admitted? && r.admission.Approved?
  }

  /** On an unchanged file system there is at most one approval that can be admitted. */
  lemma OneAdmissibleApproval(snap: Snapshot, entry: Entry, adapter: string, a: Approval, b: Approval)
    requires Admits(snap, entry, adapter, a) && Admits(snap, entry, adapter, b)
    ensures a == b
  {
    var da := AdmittedMeans(snap, entry, adapter, a);
    var db := AdmittedMeans(snap, entry, adapter, b);
    SameClosure(snap, adapter, entry, Elements(a.members), Elements(b.members), da, db);
  }

  lemma SameClosure(snap: Snapshot, adapter: string, entry: Entry, sa: set<string>, sb: set<string>,
                    da: Discovery, db: Discovery)
    requires Discover(Loader(snap, adapter, sa), entry) == Going(da) && da.declared.Keys == sa
    requires Discover(Loader(snap, adapter, sb), entry) == Going(db) && db.declared.Keys == sb
    ensures sa == sb
  {
    ApprovedSetIsTheClosure(snap, adapter, entry, sa, sb, db, da);
    ApprovedSetIsTheClosure(snap, adapter, entry, sb, sa, da, db);
  }

  /** Unfolds an admission: the submitted names are exactly what discovery found under them. */
  lemma AdmittedMeans(snap: Snapshot, entry: Entry, adapter: string, a: Approval) returns (d: Discovery)
    requires Admits(snap, entry, adapter, a)
    ensures entry.kind != OtherKind
    ensures Discover(Loader(snap, adapter, Elements(a.members)), entry) == Going(d)
    ensures d.declared.Keys == Elements(a.members)
    ensures a == Approval(entry.binding(adapter), adapter, Ascending(Elements(a.members)))
    ensures Inspect(snap, entry, adapter, Some(a)).admission == Approved(a, d.declared)
  {
    d := Discover(Loader(snap, adapter, Elements(a.members)), entry).d;
    assert d.declared.Keys == Elements(a.members);
  }

  // -------------------------------------------------- what a single round may answer

  /**
    A first inspection approves nothing: it asks for everything it finds to be approved, or is
    refused by the walk. Only what needs no review at all goes through.
  */
  lemma FirstInspection(snap: Snapshot, entry: Entry, adapter: string)
    ensures Inspect(snap, entry, adapter, None) == Admitted(NotRequired) <==> entry.kind == OtherKind
    ensures entry.kind != OtherKind ==>
      match Discover(Loader(snap, adapter, {}), entry)
      case Refused(e, _) => Inspect(snap, entry, adapter, None) == Rejected(WalkRefused(e))
      case Going(d) =>
        var r := Inspect(snap, entry, adapter, None);
        && r.Admitted? && r.admission.Review?
        && r.admission.members == d.declared && r.admission.newlyDeclared == d.declared.Keys
        && Elements(r.admission.approval.members) == d.declared.Keys
  {
  }

  /** An approval that was submitted covers exactly what is admitted under it. */
  predicate Submitted(approval: Option<Approval>, members: Declarations) {
    approval.Some? && Elements(approval.value.members) == members.Keys
  }

  function SubmittedNames(approval: Option<Approval>): set<string> {
    if approval.Some? then Elements(approval.value.members) else {}
  }

  /** What a round may answer to a walk under the names submitted. */
  predicate RoundAnswer(entry: Entry, adapter: string, approval: Option<Approval>, walk: Walk, r: Inspection) {
    match r
    case Admitted(NotRequired) => false
    case Admitted(Approved(next, members)) =>
      && walk.Going? && members == walk.d.declared
      && Submitted(approval, members) && approval == Some(next)
    case Admitted(Review(next, members, newly)) =>
      && walk.Going? && members == walk.d.declared && (approval.Some? ==> newly != {})
      && next.binding == entry.binding(adapter) && next.adapter == adapter
      && newly !! SubmittedNames(approval) && members.Keys == SubmittedNames(approval) + newly
      && Elements(next.members) == members.Keys && StrictlySorted(next.members)
    case Rejected(Stale) => walk.Going? && !(SubmittedNames(approval) <= walk.d.declared.Keys)
    case Rejected(WalkRefused(e)) => walk.Refused? && e == walk.error
    case Rejected(_) => false
  }

  /**
    What every round answers: approved is only what was submitted name for name, a review asks
    for the names that were not, at least one after the first round, and stale is only what
    names a member that is no longer found. All else is refused by the walk or unread.
  */
  lemma ApprovedWasSubmitted(snap: Snapshot, entry: Entry, adapter: string, approval: Option<Approval>)
    ensures var r := Inspect(snap, entry, adapter, approval);
      if entry.kind == OtherKind then r == Admitted(NotRequired)
      else if approval.Some? && ApprovalFault(snap, entry, adapter, approval.value).Some? then
        r == Rejected(ApprovalFault(snap, entry, adapter, approval.value).value)
      else
        var walk := Discover(Loader(snap, adapter, SubmittedNames(approval)), entry);
        RoundAnswer(entry, adapter, approval, walk, r)
  {
    hide Discover, ApprovalFault, Ascending, RoundAnswer;
    if entry.kind != OtherKind && (approval.Some? ==> ApprovalFault(snap, entry, adapter, approval.value).None?) {
      if approval.Some? {
        FaultlessIsOwn(snap, entry, adapter, approval.value);
      }
      JudgedRound(entry, adapter, approval, Discover(Loader(snap, adapter, SubmittedNames(approval)), entry));
    }
  }

  lemma JudgedRound(entry: Entry, adapter: string, approval: Option<Approval>, walk: Walk)
    requires approval.Some? ==>
      approval.value == Approval(entry.binding(adapter), adapter, Ascending(SubmittedNames(approval)))
    ensures RoundAnswer(entry, adapter, approval, walk,
                        Judge(entry, adapter, approval.None?, SubmittedNames(approval), walk))
  {
    if walk.Going? {
      AscendingSorted(walk.d.declared.Keys);
      if SubmittedNames(approval) <= walk.d.declared.Keys {
        GrownSet(SubmittedNames(approval), walk.d.declared.Keys);
      }
    }
  }

  lemma FaultlessIsOwn(snap: Snapshot, entry: Entry, adapter: string, a: Approval)
    requires ApprovalFault(snap, entry, adapter, a).None?
    ensures a == Approval(entry.binding(adapter), adapter, Ascending(Elements(a.members)))
  {
  }

  // ------------------------------------------------------------------ the review loop

  /** An approval that some earlier, smaller approval led to. */
  ghost predicate HandedOut(snap: Snapshot, entry: Entry, adapter: string, approval: Approval) {
    exists before: set<string>, d: Discovery ::
      && Discover(Loader(snap, adapter, before), entry) == Going(d) && before <= d.declared.Keys
      && approval == Approval(entry.binding(adapter), adapter, Ascending(d.declared.Keys))
  }

  /**
    Resubmitting a handed-out approval is never foreign, oversized, unnormalized or stale:
    it is admitted, asks for strictly more names, or stops at the walk itself.
  */
  lemma ResubmissionIsCurrent(snap: Snapshot, entry: Entry, adapter: string, approval: Approval)
    requires entry.kind != OtherKind && HandedOut(snap, entry, adapter, approval)
    ensures match Inspect(snap, entry, adapter, Some(approval))
      case Rejected(rejection) => rejection.WalkRefused?
      case Admitted(NotRequired) => false
      case Admitted(Approved(next, members)) => next == approval && members.Keys == Elements(approval.members)
      case Admitted(Review(next, members, newly)) =>
        && HandedOut(snap, entry, adapter, next) && newly != {}
        && Elements(next.members) == Elements(approval.members) + newly == members.Keys
        && |approval.members| < |next.members| <= MAX_GRAPH_MEMBERS - 1
  {
    var before: set<string>, d: Discovery :|
      && Discover(Loader(snap, adapter, before), entry) == Going(d) && before <= d.declared.Keys
      && approval == Approval(entry.binding(adapter), adapter, Ascending(d.declared.Keys));
    OnlyApprovedIsOpened(Loader(snap, adapter, before), entry);
    ResubmittedIsJudged(snap, entry, adapter, d.declared);
    ResubmittedWalk(snap, entry, adapter, before, d);
  }

  lemma ResubmittedIsJudged(snap: Snapshot, entry: Entry, adapter: string, declared: Declarations)
    requires entry.kind != OtherKind && Fits(snap, declared)
    ensures Inspect(snap, entry, adapter, Some(Approval(entry.binding(adapter), adapter, Ascending(declared.Keys))))
         == Judge(entry, adapter, false, declared.Keys, Discover(Loader(snap, adapter, declared.Keys), entry))
  {
    NoFault(snap, entry, adapter, declared);
  }

  lemma ResubmittedWalk(snap: Snapshot, entry: Entry, adapter: string, before: set<string>, d: Discovery)
    requires Discover(Loader(snap, adapter, before), entry) == Going(d) && before <= d.declared.Keys
    ensures var approval := Approval(entry.binding(adapter), adapter, Ascending(d.declared.Keys));
      match Judge(entry, adapter, false, d.declared.Keys, Discover(Loader(snap, adapter, d.declared.Keys), entry))
      case Rejected(rejection) => rejection.WalkRefused?
      case Admitted(NotRequired) => false
      case Admitted(Approved(next, members)) => next == approval && members.Keys == d.declared.Keys
      case Admitted(Review(next, members, newly)) =>
        && HandedOut(snap, entry, adapter, next) && newly != {}
        && Elements(next.members) == d.declared.Keys + newly == members.Keys
        && |approval.members| < |next.members| <= MAX_GRAPH_MEMBERS - 1
  {
    var approved := d.declared.Keys;
    var walk := Discover(Loader(snap, adapter, approved), entry);
    if walk.Going? {
      DiscoveryMonotone(snap, adapter, entry, before, approved, d, walk.d);
      OnlyApprovedIsOpened(Loader(snap, adapter, approved), entry);
      GrownApproval(snap, approved, walk.d.declared);
      Handed(snap, entry, adapter, approved, walk.d);
    }
  }

  lemma NoFault(snap: Snapshot, entry: Entry, adapter: string, declared: Declarations)
    requires Fits(snap, declared)
    ensures var approval := Approval(entry.binding(adapter), adapter, Ascending(declared.Keys));
      ApprovalFault(snap, entry, adapter, approval) == None
  {
    NormalMembers(snap, declared);
  }

  lemma NormalMembers(snap: Snapshot, declared: Declarations)
    requires Fits(snap, declared)
    ensures var members := Ascending(declared.Keys);
      && |members| <= MAX_GRAPH_MEMBERS - 1 && NameBytes(members) <= MAX_DECLARED_NAME_BYTES
      && members == Ascending(Elements(members))
      && forall i :: 0 <= i < |members| ==> snap.portable(members[i])
  {
    var members := Ascending(declared.Keys);
    assert Elements(members) == declared.Keys;
    forall i | 0 <= i < |members| ensures snap.portable(members[i]) {
      assert members[i] in Elements(members);
    }
  }

  lemma Handed(snap: Snapshot, entry: Entry, adapter: string, before: set<string>, d: Discovery)
    requires Discover(Loader(snap, adapter, before), entry) == Going(d) && before <= d.declared.Keys
    ensures HandedOut(snap, entry, adapter, Approval(entry.binding(adapter), adapter, Ascending(d.declared.Keys)))
  {
  }

  lemma GrownApproval(snap: Snapshot, approved: set<string>, declared: Declarations)
    requires approved <= declared.Keys && Fits(snap, declared)
    ensures var newly := declared.Keys - approved;
      && Elements(Ascending(declared.Keys)) == approved + newly == declared.Keys
      && (newly == {} ==> approved == declared.Keys)
      && (newly != {} ==> |Ascending(approved)| < |Ascending(declared.Keys)| <= MAX_GRAPH_MEMBERS - 1)
  {
    GrownSet(approved, declared.Keys);
  }

  lemma GrownSet<T>(a: set<T>, b: set<T>)
    requires a <= b
    ensures b == a + (b - a)
    ensures b - a != {} ==> |a| < |b|
  {
    assert b == a + (b - a);
    assert |b| == |a| + |b - a|;
  }

  /** Follows a review, resubmitting every approval it hands out, for at most `rounds` more rounds. */
  function FollowReview(snap: Snapshot, entry: Entry, adapter: string, approval: Option<Approval>, rounds: nat)
    : Inspection
    decreases rounds
  {
    var r := Inspect(snap, entry, adapter, approval);
    if rounds > 0 && r.Admitted? && r.admission.Review?
    then FollowReview(snap, entry, adapter, Some(r.admission.approval), rounds - 1)
    else r
  }

  /** The approval that is submitted in the last of those rounds. */
  function LastSubmitted(snap: Snapshot, entry: Entry, adapter: string, approval: Option<Approval>, rounds: nat)
    : Option<Approval>
    decreases rounds
  {
    var r := Inspect(snap, entry, adapter, approval);
    if rounds > 0 && r.Admitted? && r.admission.Review?
    then LastSubmitted(snap, entry, adapter, Some(r.admission.approval), rounds - 1)
    else approval
  }

  lemma {:induction false} FollowIsLast(snap: Snapshot, entry: Entry, adapter: string, approval: Option<Approval>,
                                        rounds: nat)
    ensures FollowReview(snap, entry, adapter, approval, rounds) ==
      Inspect(snap, entry, adapter, LastSubmitted(snap, entry, adapter, approval, rounds))
    decreases rounds
  {
    hide Inspect;
    var r := Inspect(snap, entry, adapter, approval);
    if rounds > 0 && r.Admitted? && r.admission.Review? {
      FollowIsLast(snap, entry, adapter, Some(r.admission.approval), rounds - 1);
    }
  }

  predicate Settled(r: Inspection) {
    (r.Admitted? && !r.admission.Review?) || (r.Rejected? && r.rejection.WalkRefused?)
  }

  predicate SettlesIn(snap: Snapshot, entry: Entry, adapter: string, approval: Option<Approval>, rounds: nat) {
    Settled(FollowReview(snap, entry, adapter, approval, rounds))
  }

  /** An approval that was handed out, with enough rounds left to follow it up. */
  ghost predicate Pending(snap: Snapshot, entry: Entry, adapter: string, approval: Approval, rounds: nat) {
    && entry.kind != OtherKind && HandedOut(snap, entry, adapter, approval)
    && rounds + |approval.members| >= MAX_GRAPH_MEMBERS - 1
  }

  /** The approval a round hands out to be submitted in the next one. */
  function Again(r: Inspection): Option<Approval> {
    if r.Admitted? && r.admission.Review? then Some(r.admission.approval) else None
  }

  lemma FollowOne(snap: Snapshot, entry: Entry, adapter: string, approval: Option<Approval>, rounds: nat, r: Inspection)
    requires r == Inspect(snap, entry, adapter, approval)
    requires Again(r).Some? ==> rounds > 0 && SettlesIn(snap, entry, adapter, Again(r), rounds - 1)
    requires Again(r).None? ==> Settled(r)
    ensures SettlesIn(snap, entry, adapter, approval, rounds)
  {
  }

  /** One resubmission of an approval that was handed out, and what it leaves to follow. */
  lemma CurrentRound(snap: Snapshot, entry: Entry, adapter: string, approval: Approval, rounds: nat)
    returns (r: Inspection)
    requires Pending(snap, entry, adapter, approval, rounds)
    ensures r == Inspect(snap, entry, adapter, Some(approval))
    ensures Again(r).Some? ==> rounds > 0 && Pending(snap, entry, adapter, Again(r).value, rounds - 1)
    ensures Again(r).None? ==> Settled(r)
  {
    ResubmissionIsCurrent(snap, entry, adapter, approval);
    r := Inspect(snap, entry, adapter, Some(approval));
  }

  lemma RoundSettles(snap: Snapshot, entry: Entry, adapter: string, approval: Approval, rounds: nat)
    returns (again: Option<Approval>)
    requires Pending(snap, entry, adapter, approval, rounds)
    ensures again.None? ==> SettlesIn(snap, entry, adapter, Some(approval), rounds)
    ensures again.Some? ==>
      && rounds > 0 && Pending(snap, entry, adapter, again.value, rounds - 1)
      && (SettlesIn(snap, entry, adapter, again, rounds - 1) ==>
            SettlesIn(snap, entry, adapter, Some(approval), rounds))
  {
    var r := CurrentRound(snap, entry, adapter, approval, rounds);
    again := Again(r);
    if again.None? || SettlesIn(snap, entry, adapter, again, rounds - 1) {
      FollowOne(snap, entry, adapter, Some(approval), rounds, r);
    }
  }

  lemma {:induction false} ResubmissionsSettle(snap: Snapshot, entry: Entry, adapter: string, approval: Approval,
                                               rounds: nat)
    requires Pending(snap, entry, adapter, approval, rounds)
    ensures SettlesIn(snap, entry, adapter, Some(approval), rounds)
    decreases rounds
  {
    var again := RoundSettles(snap, entry, adapter, approval, rounds);
    if again.Some? {
      ResubmissionsSettle(snap, entry, adapter, again.value, rounds - 1);
    }
  }

  /** A review hands out its own approval, and refuses nothing but the walk. */
  lemma FirstRound(snap: Snapshot, entry: Entry, adapter: string) returns (r: Inspection)
    ensures r == Inspect(snap, entry, adapter, None)
    ensures Again(r).Some? ==> Pending(snap, entry, adapter, Again(r).value, MAX_GRAPH_MEMBERS - 1)
    ensures Again(r).None? ==> Settled(r)
  {
    r := Inspect(snap, entry, adapter, None);
    if Again(r).Some? {
      assert Discover(Loader(snap, adapter, {}), entry).Going?;
    }
  }

  /**
    A review of an unchanged file system ends: after at most 256 rounds the closure is approved
    by an approval that was submitted name for name, or the walk itself refuses; no approval it
    hands out is ever rejected, and an entry that needs a review never goes through without.
  */
  lemma ReviewSettles(snap: Snapshot, entry: Entry, adapter: string)
    ensures var r := FollowReview(snap, entry, adapter, None, MAX_GRAPH_MEMBERS);
      match r
      case Rejected(rejection) => rejection.WalkRefused?
      case Admitted(NotRequired) => entry.kind == OtherKind
      case Admitted(Review(_, _, _)) => false
      case Admitted(Approved(_, members)) =>
        Submitted(LastSubmitted(snap, entry, adapter, None, MAX_GRAPH_MEMBERS), members)
  {
    RoundsSettle(snap, entry, adapter);
    FollowIsLast(snap, entry, adapter, None, MAX_GRAPH_MEMBERS);
    ApprovedWasSubmitted(snap, entry, adapter, LastSubmitted(snap, entry, adapter, None, MAX_GRAPH_MEMBERS));
  }

  lemma RoundsSettle(snap: Snapshot, entry: Entry, adapter: string)
    ensures SettlesIn(snap, entry, adapter, None, MAX_GRAPH_MEMBERS)
  {
    var r := FirstRound(snap, entry, adapter);
    if Again(r).Some? {
      ResubmissionsSettle(snap, entry, adapter, Again(r).value, MAX_GRAPH_MEMBERS - 1);
    }
    FollowOne(snap, entry, adapter, None, MAX_GRAPH_MEMBERS, r);
  }

  // ---------------------------------------------------- approved names, hashed names

  /** Every sidecar the hashing side will find next to an approved CUE is approved. */
  predicate SidecarsApproved(snap: Snapshot, members: Declarations) {
    Sidecars(snap, members, true) <= members.Keys
  }

  /**
    An approved playlist whose hashing traversal also succeeds: the hashed names are all
    approved exactly when the reviewing adapter declares sidecars or no undeclared sidecar is
    there, and every approved name is hashed unless it is a sidecar that does not exist.
  */
  lemma HashedNamesWereApproved(snap: Snapshot, entry: Entry, adapter: string, approval: Approval)
    requires snap.Valid() && entry.kind == M3u
    requires Admits(snap, entry, adapter, approval)
    requires CollectRoot(snap, entry.file).Ok?
    ensures var members := Inspect(snap, entry, adapter, Some(approval)).admission.members;
      var hashed := Elements(CollectRoot(snap, entry.file).value.references);
      && members.Keys == Elements(approval.members)
      && (adapter == "mednafen" ==> hashed <= Elements(approval.members))
      && (hashed <= Elements(approval.members) <==> adapter == "mednafen" || SidecarsApproved(snap, members))
      && hashed <= Elements(approval.members) + Sidecars(snap, members, true)
      && Elements(approval.members) <= hashed + Sidecars(snap, members, false)
  {
    var d := AdmittedMeans(snap, entry, adapter, approval);
    var loader := Loader(snap, adapter, Elements(approval.members));
    var h := CollectRoot(snap, entry.file).value;
    assert Sidecars(snap, map[], true) == {} && Sidecars(snap, map[], false) == {};
    EntriesAgree(loader, NOTHING_YET, Hashing([], 0), "", snap.lines[entry.file], 0,
                 {ActiveName("")}, {entry.file}, d, h);
  }

  /** A playlist that names one CUE, "c", with one track, "t", beside a sidecar "s". */
  ghost predicate OneDisc(snap: Snapshot, entry: Entry) {
    && entry.kind == M3u && entry.file in snap.lines && snap.lines[entry.file] == ["c"]
    && (forall n :: n in {"c", "t", "s"} ==> snap.portable(n))
    && snap.kind("c") == Cue && "c" in snap.resolve
    && var file := snap.resolve["c"];
       && snap.fileKind(file) == Cue && file in snap.files && snap.files[file] == ["t"]
       && file in snap.sidecar && snap.sidecar[file] == "s"
       && snap.sidecarPresent(file) && snap.intact(file)
  }

  lemma OneDiscExists()
    ensures exists snap: Snapshot, entry :: snap.Valid() && OneDisc(snap, entry)
  {
    var snap := Snapshot(
      n => n != "" && n[0] != '/',
      n => if n == "c" then Cue else OtherKind,
      map["c" := 1],
      f => if f == 1 then Cue else OtherKind,
      map[0 := ["c"]], map[1 := ["t"]], map[1 := "s"], f => true, f => true);
    assert OneDisc(snap, Entry(M3u, 0, adapter => ""));
  }

  lemma {:induction false} ShortNames(names: seq<string>)
    requires forall i :: 0 <= i < |names| ==> |names[i]| == 1
    ensures NameBytes(names) == |names|
  {
    if names != [] {
      ShortNames(names[1..]);
    }
  }

  lemma ShortNamesFit(names: set<string>)
    requires |names| <= 2 && forall n :: n in names ==> |n| == 1
    ensures WithinBounds(names)
  {
    forall i | 0 <= i < |Ascending(names)| ensures |Ascending(names)[i]| == 1 {
      assert Ascending(names)[i] in Elements(Ascending(names));
    }
    ShortNames(Ascending(names));
  }

  lemma AddShort(snap: Snapshot, a: Declarations, name: string, role: Role) returns (b: Declarations)
    requires snap.portable(name) && |a.Keys| <= 1 && forall n :: n in a.Keys + {name} ==> |n| == 1
    ensures AddDeclaration(snap, a, name, role, false) == Ok(b)
    ensures b == Merge(a, name, role, false) && b.Keys == a.Keys + {name}
  {
    b := Merge(a, name, role, false);
    assert b.Keys == a.Keys + {name};
    ShortNamesFit(b.Keys);
  }

  /**
    With any other adapter the sidecar is hashed although nobody ever approved it: the
    adapter test in the equivalence above cannot be dropped.
  */
  lemma SidecarEscapesReview(snap: Snapshot, entry: Entry, adapter: string)
    requires OneDisc(snap, entry) && adapter != "mednafen"
    ensures exists approval :: Admits(snap, entry, adapter, approval) && "s" !in approval.members
    ensures CollectRoot(snap, entry.file).Ok? && "s" in CollectRoot(snap, entry.file).value.references
  {
    var d := OneDiscIsFound(snap, entry, adapter);
    var approval := AdmitsFound(snap, entry, adapter, d);
    assert "s" !in Elements(approval.members);
    SidecarIsHashed(snap, entry);
  }

  /** A walk that finds exactly what was approved admits the approval. */
  lemma AdmitsFound(snap: Snapshot, entry: Entry, adapter: string, d: Discovery) returns (approval: Approval)
    requires entry.kind != OtherKind && Discover(Loader(snap, adapter, d.declared.Keys), entry) == Going(d)
    ensures Admits(snap, entry, adapter, approval) && Elements(approval.members) == d.declared.Keys
  {
    approval := Approval(entry.binding(adapter), adapter, Ascending(d.declared.Keys));
    OnlyApprovedIsOpened(Loader(snap, adapter, d.declared.Keys), entry);
    ResubmittedIsJudged(snap, entry, adapter, d.declared);
  }

  lemma OneDiscIsFound(snap: Snapshot, entry: Entry, adapter: string) returns (d: Discovery)
    requires OneDisc(snap, entry) && adapter != "mednafen"
    ensures Discover(Loader(snap, adapter, {"c", "t"}), entry) == Going(d) && d.declared.Keys == {"c", "t"}
  {
    var loader := Loader(snap, adapter, {"c", "t"});
    d := OneEntryIsFound(loader, entry);
    OneEntry(loader, NOTHING_YET, "", "c", 0, {ActiveName("")}, d);
    PlaylistIsFound(loader, entry, ["c"], d);
  }

  lemma PlaylistIsFound(loader: Loader, entry: Entry, entries: seq<string>, d: Discovery)
    requires entry.kind == M3u && DirectEntries(loader.snap, entry.file) == Ok(entries)
    requires CollectEntries(loader, NOTHING_YET, "", entries, 0, {ActiveName("")}) == Going(d)
    ensures Discover(loader, entry) == Going(d)
  {
    assert {} + {ActiveName("")} == {ActiveName("")};
  }

  lemma OneEntry(loader: Loader, d: Discovery, descriptor: string, child: string, depth: nat, active: set<string>,
                 d1: Discovery)
    requires depth <= MAX_RECURSION_DEPTH && CollectEntry(loader, d, descriptor, child, depth, active) == Going(d1)
    ensures CollectEntries(loader, d, descriptor, [child], depth, active) == Going(d1)
  {
    assert [child][1..] == [];
  }

  lemma OneEntryIsFound(loader: Loader, entry: Entry) returns (d: Discovery)
    requires OneDisc(loader.snap, entry) && loader.adapter != "mednafen" && loader.approved == {"c", "t"}
    ensures CollectEntry(loader, NOTHING_YET, "", "c", 0, {ActiveName("")}) == Going(d)
    ensures d.declared.Keys == {"c", "t"} && d.discs == 1
  {
    var one, both := OneDiscDeclares(loader, entry);
    d := Discovery(both, 1, {"c"});
    NoSlash("");
    assert Declaring(NOTHING_YET, "c") == Discovery(one, 0, {"c"});
    assert EnterDescriptor(loader, Declaring(NOTHING_YET, "c"), "c", 0, {ActiveName("")}) == Going(d);
  }

  lemma OneDiscDeclares(loader: Loader, entry: Entry) returns (one: Declarations, both: Declarations)
    requires OneDisc(loader.snap, entry) && loader.adapter != "mednafen"
    ensures AddDeclaration(loader.snap, map[], "c", Descriptor, false) == Ok(one)
    ensures one == Merge(map[], "c", Descriptor, false) && both.Keys == {"c", "t"}
    ensures DiscMembers(loader, one, "c", loader.snap.resolve["c"], Cue) == Ok(both)
  {
    one := AddShort(loader.snap, map[], "c", Descriptor);
    both := AddShort(loader.snap, one, "t", Track);
    NoSlash("c");
    AddAllOne(loader.snap, one, "c", "t", Track, both);
    OneTrack(loader, one, loader.snap.resolve["c"], both);
  }

  lemma OneTrack(loader: Loader, a: Declarations, file: FileId, b: Declarations)
    requires loader.adapter != "mednafen" && file in loader.snap.files && loader.snap.files[file] == ["t"]
    requires AddAll(loader.snap, a, "c", ["t"], Track, false) == Ok(b)
    ensures DiscMembers(loader, a, "c", file, Cue) == Ok(b)
  {
  }

  lemma AddAllOne(snap: Snapshot, a: Declarations, owner: string, name: string, role: Role, b: Declarations)
    requires PortableJoin(snap, owner, name) == Ok(name) && AddDeclaration(snap, a, name, role, false) == Ok(b)
    ensures AddAll(snap, a, owner, [name], role, false) == Ok(b)
  {
    assert [name][1..] == [];
  }

  lemma NoSlash(s: string)
    requires '/' !in s
    ensures LastSlash(s) == -1
  {
  }

  lemma SidecarIsHashed(snap: Snapshot, entry: Entry)
    requires OneDisc(snap, entry)
    ensures CollectRoot(snap, entry.file).Ok? && "s" in CollectRoot(snap, entry.file).value.references
  {
    var listed := Hashing(["c", "t", "s"], 1);
    var active := {entry.file};
    NoSlash("c");
    NoSlash("");
    assert ["c"][1..] == [] && ["t", "s"][1..] == ["s"] && ["s"][1..] == [];
    assert ["c"] + ["t"] == ["c", "t"] && ["c", "t"] + ["s"] == ["c", "t", "s"] && [] + ["c"] == ["c"];
    assert AddReferences(Hashing(["c", "t"], 1), "c", ["s"]) == Ok(listed);
    assert AddReferences(Hashing(["c"], 1), "c", ["t", "s"]) == Ok(listed);
    assert LoaderMembers(snap, snap.resolve["c"], Cue) == Ok(["t"] + ["s"]) && ["t"] + ["s"] == ["t", "s"];
    assert CollectMember(snap, Hashing(["c"], 0), "c", 0, active) == Ok(listed);
    assert CollectLine(snap, Hashing([], 0), "", "c", 0, active) == Ok(listed);
    assert CollectLines(snap, Hashing([], 0), "", ["c"], 0, active) == Ok(listed);
  }

  // ------------------------------------------------------------- what a submission is refused for

  /** Submitted names are the exact normalized set if and only if they are strictly sorted. */
  lemma NormalizedIffSorted(members: seq<string>)
    ensures members == Ascending(Elements(members)) <==> StrictlySorted(members)
  {
    AscendingSorted(Elements(members));
    if StrictlySorted(members) {
      SortedListsAgree(members, Ascending(Elements(members)));
    }
  }

  /**
    So an approval is refused unread exactly if it is another entry's or adapter's, or for its
    size, its order or a name in it.
  */
  lemma FaultlessIff(snap: Snapshot, entry: Entry, adapter: string, a: Approval)
    ensures ApprovalFault(snap, entry, adapter, a).None? <==>
      && a.binding == entry.binding(adapter) && a.adapter == adapter
      && |a.members| <= 255 && NameBytes(a.members) <= 48 * 1024
      && StrictlySorted(a.members) && forall i :: 0 <= i < |a.members| ==> snap.portable(a.members[i])
    ensures ApprovalFault(snap, entry, adapter, a) == Some(Foreign) <==>
      a.binding != entry.binding(adapter) || a.adapter != adapter
    ensures ApprovalFault(snap, entry, adapter, a) == Some(Unnormalized) ==>
      |a.members| <= 255 && NameBytes(a.members) <= 48 * 1024
  {
    hide Ascending, StrictlySorted, NameBytes;
    NormalizedIffSorted(a.members);
  }
}
