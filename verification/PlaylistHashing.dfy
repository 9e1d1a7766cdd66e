/**
  The hashing side of a playlist: a second, separately written traversal that lists every
  member whose bytes enter the graph identity. It knows nothing of approvals.
*/
module PlaylistHashing {
  import opened Ordered
  import opened MediaSnapshot

  datatype Hashing = Hashing(references: seq<string>, discs: nat)

  /** The collector joins with the parent part whenever the owner has a separator. */
  function HashJoin(owner: string, child: string): string {
    var slash := LastSlash(owner);
    if slash < 0 then child else owner[..slash] + "/" + child
  }

  function AddReference(h: Hashing, name: string): Result<Hashing> {
    if |h.references| >= MAX_GRAPH_MEMBERS - 1 then Err(TooManyMembers)
    else Ok(h.(references := h.references + [name]))
  }

  function AddReferences(h: Hashing, owner: string, names: seq<string>): Result<Hashing>
    decreases |names|
  {
    if names == [] then Ok(h)
    else
      var next :- AddReference(h, HashJoin(owner, names[0]));
      AddReferences(next, owner, names[1..])
  }

  /** The members a disc descriptor's loader opens; a CUE sidecar only when it exists. */
  function LoaderMembers(snap: Snapshot, file: FileId, kind: Kind): Result<seq<string>> {
    if file !in snap.files then Err(Malformed)
    else if kind == Cue && file !in snap.sidecar then Err(NotPortable)
    else if kind == Cue && snap.sidecarPresent(file) then
      if |snap.files[file]| >= MAX_REFERENCED_FILES then Err(TooManyMembers)
      else if !snap.intact(file) then Err(Invalid)
      else Ok(snap.files[file] + [snap.sidecar[file]])
    else if !snap.intact(file) then Err(Invalid)
    else Ok(snap.files[file])
  }

  function CollectRoot(snap: Snapshot, entry: FileId): Result<Hashing> {
    CollectContents(snap, Hashing([], 0), "", entry, 0, {entry})
  }

  function CollectNested(snap: Snapshot, h: Hashing, playlist: string, depth: nat, active: set<FileId>): Result<Hashing>
    requires depth <= MAX_RECURSION_DEPTH + 1
    decreases MAX_RECURSION_DEPTH + 1 - depth, 3, 0
  {
    if depth > MAX_RECURSION_DEPTH then Err(TooDeep)
    else if playlist !in snap.resolve then Err(Missing)
    else
      var file := snap.resolve[playlist];
      if file in active then Err(Cycle)
      else CollectContents(snap, h, playlist, file, depth, active + {file})
  }

  function CollectContents(snap: Snapshot, h: Hashing, playlist: string, file: FileId, depth: nat, active: set<FileId>)
    : Result<Hashing>
    requires depth <= MAX_RECURSION_DEPTH
    decreases MAX_RECURSION_DEPTH + 1 - depth, 2, 0
  {
    if file !in snap.lines then Err(Malformed)
    else if snap.lines[file] == [] then Err(Malformed)
    else CollectLines(snap, h, playlist, snap.lines[file], depth, active)
  }

  function CollectLines(snap: Snapshot, h: Hashing, playlist: string, lines: seq<string>, depth: nat,
                        active: set<FileId>)
    : Result<Hashing>
    requires depth <= MAX_RECURSION_DEPTH
    decreases MAX_RECURSION_DEPTH + 1 - depth, 1, |lines|
  {
    if lines == [] then Ok(h)
    else
      var next :- CollectLine(snap, h, playlist, lines[0], depth, active);
      CollectLines(snap, next, playlist, lines[1..], depth, active)
  }

  function CollectLine(snap: Snapshot, h: Hashing, playlist: string, line: string, depth: nat, active: set<FileId>)
    : Result<Hashing>
    requires depth <= MAX_RECURSION_DEPTH
    decreases MAX_RECURSION_DEPTH + 1 - depth, 0, 1
  {
    if !snap.portable(line) then Err(NotPortable)
    else
      var nested := HashJoin(playlist, line);
      if !snap.portable(nested) then Err(NotPortable)
      else if nested !in snap.resolve then Err(Missing)
      else
        var added :- AddReference(h, nested);
        CollectMember(snap, added, nested, depth, active)
  }

  function CollectMember(snap: Snapshot, h: Hashing, nested: string, depth: nat, active: set<FileId>): Result<Hashing>
    requires depth <= MAX_RECURSION_DEPTH && nested in snap.resolve
    decreases MAX_RECURSION_DEPTH + 1 - depth, 0, 0
  {
    var file := snap.resolve[nested];
    match snap.fileKind(file)
    case M3u =>
      var next :- CollectNested(snap, h, nested, depth + 1, active);
      LimitDiscs(next)
    case Gdi => Err(NotADescriptor)
    case OtherKind => Err(NotADescriptor)
    case kind =>
      var members :- LoaderMembers(snap, file, kind);
      var next :- AddReferences(h.(discs := h.discs + 1), nested, members);
      LimitDiscs(next)
  }

  function LimitDiscs(h: Hashing): Result<Hashing> {
    if h.discs > MAX_DISCS then Err(TooManyDiscs) else Ok(h)
  }
}
