/**
  Review of indirect media: which names a selected descriptor may make the host open.

  Discovery walks a playlist but enters a nested descriptor only when its name was approved
  in an earlier round; everything it meets becomes part of the next approval request.
*/
module IndirectMedia {
  import opened Base
  import opened Ordered
  import opened MediaSnapshot

  datatype Role = Descriptor | Track | Companion | OptionalSidecar

  datatype Member = Member(role: Role, optional: bool)

  type Declarations = map<string, Member>

  /** The loader rules and the names that earlier rounds approved. */
  datatype Loader = Loader(snap: Snapshot, adapter: string, approved: set<string>)

  datatype Discovery = Discovery(declared: Declarations, discs: nat, accessed: set<string>)

  datatype Walk = Going(d: Discovery) | Refused(error: MediaError, accessed: set<string>)

  function NameBytes(names: seq<string>): nat {
    if names == [] then 0 else |names[0]| + NameBytes(names[1..])
  }

  predicate WithinBounds(names: set<string>) {
    |names| <= MAX_GRAPH_MEMBERS - 1 && NameBytes(Ascending(names)) <= MAX_DECLARED_NAME_BYTES
  }

  function Merge(declared: Declarations, name: string, role: Role, optional: bool): Declarations {
    declared[name :=
      if name in declared then
        Member(if role == Descriptor then Descriptor else declared[name].role,
               declared[name].optional && optional)
      else Member(role, optional)]
  }

  function AddDeclaration(snap: Snapshot, declared: Declarations, name: string, role: Role, optional: bool)
    : Result<Declarations>
  {
    if !snap.portable(name) then Err(NotPortable)
    else
      var next := Merge(declared, name, role, optional);
      if |next.Keys| > MAX_GRAPH_MEMBERS - 1 then Err(TooManyMembers)
      else if NameBytes(Ascending(next.Keys)) > MAX_DECLARED_NAME_BYTES then Err(TooMuchNameData)
      else Ok(next)
  }

  function PortableJoin(snap: Snapshot, owner: string, child: string): Result<string> {
    if !snap.portable(child) then Err(NotPortable)
    else if !snap.portable(JoinName(owner, child)) then Err(NotPortable)
    else Ok(JoinName(owner, child))
  }

  function AddAll(snap: Snapshot, declared: Declarations, owner: string, names: seq<string>,
                  role: Role, optional: bool): Result<Declarations>
    decreases |names|
  {
    if names == [] then Ok(declared)
    else
      var name :- PortableJoin(snap, owner, names[0]);
      var next :- AddDeclaration(snap, declared, name, role, optional);
      AddAll(snap, next, owner, names[1..], role, optional)
  }

  /** What an approved disc descriptor declares. */
  function DiscMembers(loader: Loader, declared: Declarations, owner: string, file: FileId, kind: Kind)
    : Result<Declarations>
  {
    var snap := loader.snap;
    if file !in snap.files then Err(Malformed)
    else
      var role := if kind == Ccd then Companion else Track;
      var next :- AddAll(snap, declared, owner, snap.files[file], role, false);
      if kind == Cue && loader.adapter == "mednafen" then
        if file !in snap.sidecar then Err(NotPortable)
        else AddAll(snap, next, owner, [snap.sidecar[file]], OptionalSidecar, true)
      else Ok(next)
  }

  /** The entries of one selected or approved playlist; nothing they name is accessed. */
  function DirectEntries(snap: Snapshot, file: FileId): Result<seq<string>> {
    if file !in snap.lines then Err(Malformed)
    else if exists i :: 0 <= i < |snap.lines[file]| && !snap.portable(snap.lines[file][i]) then Err(NotPortable)
    else if |snap.lines[file]| > MAX_GRAPH_MEMBERS - 1 then Err(TooManyMembers)
    else if snap.lines[file] == [] then Err(Malformed)
    else Ok(snap.lines[file])
  }

  function ActiveName(descriptor: string): string {
    if descriptor == "" then "<entry>" else descriptor
  }

  predicate IsDescriptor(kind: Kind) {
    kind == M3u || kind == Cue || kind == Ccd || kind == Toc
  }

  function Collect(loader: Loader, d: Discovery, descriptor: string, file: FileId, depth: nat, active: set<string>)
    : Walk
    requires depth <= MAX_RECURSION_DEPTH + 1
    decreases MAX_RECURSION_DEPTH + 1 - depth, 2, 0
  {
    if depth > MAX_RECURSION_DEPTH then Refused(TooDeep, d.accessed)
    else if ActiveName(descriptor) in active then Refused(Cycle, d.accessed)
    else
      match DirectEntries(loader.snap, file)
      case Err(e) => Refused(e, d.accessed)
      case Ok(entries) => CollectEntries(loader, d, descriptor, entries, depth, active + {ActiveName(descriptor)})
  }

  function CollectEntries(loader: Loader, d: Discovery, descriptor: string, entries: seq<string>,
                          depth: nat, active: set<string>): Walk
    requires depth <= MAX_RECURSION_DEPTH
    decreases MAX_RECURSION_DEPTH + 1 - depth, 1, |entries|
  {
    if entries == [] then Going(d)
    else
      var walk := CollectEntry(loader, d, descriptor, entries[0], depth, active);
      if walk.Refused? then walk
      else CollectEntries(loader, walk.d, descriptor, entries[1..], depth, active)
  }

  function CollectEntry(loader: Loader, d: Discovery, descriptor: string, child: string,
                        depth: nat, active: set<string>): Walk
    requires depth <= MAX_RECURSION_DEPTH
    decreases MAX_RECURSION_DEPTH + 1 - depth, 0, 1
  {
    match PortableJoin(loader.snap, descriptor, child)
    case Err(e) => Refused(e, d.accessed)
    case Ok(nested) =>
      if !IsDescriptor(loader.snap.kind(nested)) then Refused(NotADescriptor, d.accessed)
      else
        match AddDeclaration(loader.snap, d.declared, nested, Descriptor, false)
        case Err(e) => Refused(e, d.accessed)
        case Ok(declared) =>
          if nested !in loader.approved then Going(d.(declared := declared))
          else if nested !in loader.snap.resolve then Refused(Missing, d.accessed)
          else
            var entered := d.(declared := declared, accessed := d.accessed + {nested});
            EnterDescriptor(loader, entered, nested, depth, active)
  }

  /** Opens an approved descriptor. */
  function EnterDescriptor(loader: Loader, d: Discovery, nested: string, depth: nat, active: set<string>): Walk
    requires depth <= MAX_RECURSION_DEPTH && nested in loader.snap.resolve
    decreases MAX_RECURSION_DEPTH + 1 - depth, 0, 0
  {
    var file := loader.snap.resolve[nested];
    var kind := loader.snap.kind(nested);
    if kind == M3u then LimitDiscs(Collect(loader, d, nested, file, depth + 1, active))
    else
      match DiscMembers(loader, d.declared, nested, file, kind)
      case Err(e) => Refused(e, d.accessed)
      case Ok(next) => LimitDiscs(Going(d.(declared := next, discs := d.discs + 1)))
  }

  function LimitDiscs(walk: Walk): Walk {
    if walk.Going? && walk.d.discs > MAX_DISCS then Refused(TooManyDiscs, walk.d.accessed) else walk
  }

  // ------------------------------------------------------------------ one review round

  /** The selected entry: its own format, file, and the binding computed for an adapter. */
  datatype Entry = Entry(kind: Kind, file: FileId, binding: string -> string)

  const NOTHING_YET := Discovery(map[], 0, {})

  function Discover(loader: Loader, entry: Entry): Walk {
    if entry.kind == OtherKind then Refused(NotADescriptor, {})
    else if entry.kind == M3u then Collect(loader, NOTHING_YET, "", entry.file, 0, {})
    else
      match DiscMembers(loader, map[], "", entry.file, entry.kind)
      case Err(e) => Refused(e, {})
      case Ok(declared) => Going(NOTHING_YET.(declared := declared))
  }

  datatype Approval = Approval(binding: string, adapter: string, members: seq<string>)

  datatype Admission =
    | NotRequired
    | Review(approval: Approval, members: Declarations, newlyDeclared: set<string>)
    | Approved(approval: Approval, members: Declarations)

  datatype Rejection = Foreign | OverBounds | Unnormalized | Stale | WalkRefused(error: MediaError)

  datatype Inspection = Admitted(admission: Admission) | Rejected(rejection: Rejection)

  /** The submitted approval, checked before anything is opened. */
  function ApprovalFault(snap: Snapshot, entry: Entry, adapter: string, approval: Approval): Option<Rejection> {
    if approval.binding != entry.binding(adapter) || approval.adapter != adapter then Some(Foreign)
    else if |approval.members| > MAX_GRAPH_MEMBERS - 1 || NameBytes(approval.members) > MAX_DECLARED_NAME_BYTES
      then Some(OverBounds)
    else if approval.members != Ascending(Elements(approval.members))
         || exists i :: 0 <= i < |approval.members| && !snap.portable(approval.members[i])
      then Some(Unnormalized)
    else None
  }

  function Inspect(snap: Snapshot, entry: Entry, adapter: string, approval: Option<Approval>): Inspection {
    if entry.kind == OtherKind then Admitted(NotRequired)
    else if approval.Some? && ApprovalFault(snap, entry, adapter, approval.value).Some? then
      Rejected(ApprovalFault(snap, entry, adapter, approval.value).value)
    else
      var approved := if approval.Some? then Elements(approval.value.members) else {};
      Judge(entry, adapter, approval.None?, approved, Discover(Loader(snap, adapter, approved), entry))
  }

  /** Compares what was found with what was approved. */
  function Judge(entry: Entry, adapter: string, first: bool, approved: set<string>, walk: Walk): Inspection {
    match walk
    case Refused(e, _) => Rejected(WalkRefused(e))
    case Going(d) =>
      if !(approved <= d.declared.Keys) then Rejected(Stale)
      else
        var next := Approval(entry.binding(adapter), adapter, Ascending(d.declared.Keys));
        if d.declared.Keys - approved != {} || first then
          Admitted(Review(next, d.declared, d.declared.Keys - approved))
        else
          Admitted(Approved(next, d.declared))
  }
}
