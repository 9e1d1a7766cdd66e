/**
  What hashing a playlist lists: the tree of its lines written out in order, without the
  traversal's counters and early exits, and exactly which playlists have one.
*/
module PlaylistListing {
  import opened Base
  import opened MediaSnapshot
  import opened PlaylistHashing

  /** Declared names as they are seen from the entry, in declared order. */
  function Joins(owner: string, names: seq<string>): seq<string> {
    seq(|names|, i requires 0 <= i < |names| => HashJoin(owner, names[i]))
  }

  /** A name that a playlist or disc in a folder declares is one in that folder. */
  lemma HashedBeside(folder: string, name: string, child: string)
    requires '/' !in name
    ensures HashJoin(name, child) == child && HashJoin(folder + "/" + name, child) == folder + "/" + child
  {
    var owner := folder + "/" + name;
    assert owner[|folder|] == '/' && forall i :: |folder| < i < |owner| ==> owner[i] == name[i - |folder| - 1];
    assert LastSlash(owner) == |folder| && owner[..|folder|] == folder;
  }

  lemma JoinsCons(owner: string, names: seq<string>)
    requires names != []
    ensures Joins(owner, names) == [HashJoin(owner, names[0])] + Joins(owner, names[1..])
  {
  }

  lemma Associate<T>(a: seq<T>, b: seq<T>, c: seq<T>)
    ensures a + (b + c) == a + b + c
  {
  }

  /** References are added in the order in which they are declared, all of them or there are too many. */
  lemma {:induction false} AddReferencesInOrder(h: Hashing, owner: string, names: seq<string>)
    requires |h.references| <= 255
    ensures AddReferences(h, owner, names) ==
      if |h.references| + |names| > 255 then Err(TooManyMembers)
      else Ok(Hashing(h.references + Joins(owner, names), h.discs))
    decreases |names|
  {
    if names == [] {
      assert h.references + Joins(owner, names) == h.references;
    } else if |h.references| < 255 {
      var next := h.(references := h.references + [HashJoin(owner, names[0])]);
      AddReferencesInOrder(next, owner, names[1..]);
      JoinsCons(owner, names);
      Associate(h.references, [HashJoin(owner, names[0])], Joins(owner, names[1..]));
    }
  }

  // ------------------------------------------------------------------------ the tree

  /** The members of a disc descriptor: what it declares and, for a CUE, the sidecar that is there. */
  function DiscNames(snap: Snapshot, file: FileId): seq<string> {
    var declared := if file in snap.files then snap.files[file] else [];
    var sidecar := snap.fileKind(file) == Cue && file in snap.sidecar && snap.sidecarPresent(file);
    declared + if sidecar then [snap.sidecar[file]] else []
  }

  /** The names of a playlist's lines, each followed by what it contributes. `below` levels may nest. */
  function ListLines(snap: Snapshot, playlist: string, lines: seq<string>, below: nat): seq<string>
    decreases below, 1, |lines|
  {
    if lines == [] then []
    else
      var name := HashJoin(playlist, lines[0]);
      [name] + ListMember(snap, name, below) + ListLines(snap, playlist, lines[1..], below)
  }

  function ListMember(snap: Snapshot, name: string, below: nat): seq<string>
    decreases below, 0, 0
  {
    if name !in snap.resolve then []
    else
      var file := snap.resolve[name];
      if snap.fileKind(file) != M3u then Joins(name, DiscNames(snap, file))
      else if below == 0 || file !in snap.lines then []
      else ListLines(snap, name, snap.lines[file], below - 1)
  }

  /** The discs of a tree: the descriptors in it that are not playlists. */
  function DiscsInLines(snap: Snapshot, playlist: string, lines: seq<string>, below: nat): nat
    decreases below, 1, |lines|
  {
    if lines == [] then 0
    else DiscsInMember(snap, HashJoin(playlist, lines[0]), below) + DiscsInLines(snap, playlist, lines[1..], below)
  }

  function DiscsInMember(snap: Snapshot, name: string, below: nat): nat
    decreases below, 0, 0
  {
    if name !in snap.resolve then 0
    else
      var file := snap.resolve[name];
      if snap.fileKind(file) != M3u then 1
      else if below == 0 || file !in snap.lines then 0
      else DiscsInLines(snap, name, snap.lines[file], below - 1)
  }

  /** Every line names a member that is there and well-formed, and no playlist holds itself. */
  predicate LinesFit(snap: Snapshot, playlist: string, lines: seq<string>, below: nat, active: set<FileId>)
    decreases below, 1, |lines|
  {
    lines != [] ==>
      && snap.portable(lines[0]) && snap.portable(HashJoin(playlist, lines[0]))
      && HashJoin(playlist, lines[0]) in snap.resolve
      && MemberFits(snap, HashJoin(playlist, lines[0]), below, active)
      && LinesFit(snap, playlist, lines[1..], below, active)
  }

  predicate MemberFits(snap: Snapshot, name: string, below: nat, active: set<FileId>)
    requires name in snap.resolve
    decreases below, 0, 0
  {
    var file := snap.resolve[name];
    match snap.fileKind(file)
    case M3u =>
      && below > 0 && file !in active && file in snap.lines && snap.lines[file] != []
      && LinesFit(snap, name, snap.lines[file], below - 1, active + {file})
    case Gdi => false
    case OtherKind => false
    case kind =>
      && file in snap.files && snap.intact(file)
      && (kind == Cue ==> file in snap.sidecar && (snap.sidecarPresent(file) ==> |snap.files[file]| < 255))
  }

  // ---------------------------------------------------------- the traversal writes it out

  /** What a traversal makes of a part of the tree that lists `names` and counts `discs`. */
  function Grown(h: Hashing, fits: bool, names: seq<string>, discs: nat): Option<Hashing> {
    if fits && |h.references| + |names| <= 255 && h.discs + discs <= 25
    then Some(Hashing(h.references + names, h.discs + discs))
    else None
  }

  function ToOption(r: Result<Hashing>): Option<Hashing> {
    if r.Ok? then Some(r.value) else None
  }

  predicate Within(h: Hashing) {
    |h.references| <= 255 && h.discs <= 25
  }

  lemma LoaderMembersAre(snap: Snapshot, name: string, below: nat, active: set<FileId>)
    requires name in snap.resolve
    requires snap.fileKind(snap.resolve[name]) in {Cue, Ccd, Toc}
    ensures var file := snap.resolve[name];
      LoaderMembers(snap, file, snap.fileKind(file)).Ok? <==> MemberFits(snap, name, below, active)
    ensures MemberFits(snap, name, below, active) ==>
      LoaderMembers(snap, snap.resolve[name], snap.fileKind(snap.resolve[name])).value ==
      DiscNames(snap, snap.resolve[name])
  {
    var file := snap.resolve[name];
    if file in snap.files {
      assert snap.files[file] + [] == snap.files[file];
    }
  }

  lemma DiscWritten(snap: Snapshot, h: Hashing, name: string, depth: nat, below: nat, active: set<FileId>)
    requires depth + below == 9 && name in snap.resolve && Within(h)
    requires snap.fileKind(snap.resolve[name]) != M3u
    ensures ToOption(CollectMember(snap, h, name, depth, active)) ==
      Grown(h, MemberFits(snap, name, below, active), ListMember(snap, name, below), DiscsInMember(snap, name, below))
  {
    var file := snap.resolve[name];
    if snap.fileKind(file) in {Cue, Ccd, Toc} {
      LoaderMembersAre(snap, name, below, active);
      AddReferencesInOrder(h.(discs := h.discs + 1), name, DiscNames(snap, file));
    }
  }

  lemma {:induction false} LinesWritten(snap: Snapshot, h: Hashing, playlist: string, lines: seq<string>,
                                        depth: nat, below: nat, active: set<FileId>)
    requires depth + below == 9 && Within(h)
    ensures ToOption(CollectLines(snap, h, playlist, lines, depth, active)) ==
      Grown(h, LinesFit(snap, playlist, lines, below, active), ListLines(snap, playlist, lines, below),
            DiscsInLines(snap, playlist, lines, below))
    decreases below, 2, |lines|
  {
    if lines == [] {
      assert h.references + [] == h.references;
    } else {
      var name, rest := HashJoin(playlist, lines[0]), lines[1..];
      LineWritten(snap, h, playlist, lines[0], depth, below, active);
      var next := CollectLine(snap, h, playlist, lines[0], depth, active);
      if next.Ok? {
        LinesWritten(snap, next.value, playlist, rest, depth, below, active);
        Associate(h.references, [name] + ListMember(snap, name, below), ListLines(snap, playlist, rest, below));
      }
    }
  }

  lemma {:induction false} LineWritten(snap: Snapshot, h: Hashing, playlist: string, line: string,
                                       depth: nat, below: nat, active: set<FileId>)
    requires depth + below == 9 && Within(h)
    ensures var name := HashJoin(playlist, line);
      var fits := snap.portable(line) && snap.portable(name) && name in snap.resolve
        && MemberFits(snap, name, below, active);
      ToOption(CollectLine(snap, h, playlist, line, depth, active)) ==
      Grown(h, fits, [name] + ListMember(snap, name, below), DiscsInMember(snap, name, below))
    decreases below, 1, 1
  {
    var name := HashJoin(playlist, line);
    var added := AddReference(h, name);
    if name in snap.resolve && added.Ok? {
      MemberWritten(snap, added.value, name, depth, below, active);
      Associate(h.references, [name], ListMember(snap, name, below));
    }
  }

  lemma NestedIs(snap: Snapshot, h: Hashing, playlist: string, depth: nat, active: set<FileId>)
    requires depth <= MAX_RECURSION_DEPTH + 1 && playlist in snap.resolve
    ensures var file := snap.resolve[playlist];
      ToOption(CollectNested(snap, h, playlist, depth, active)) ==
      if depth > 9 || file in active || file !in snap.lines || snap.lines[file] == [] then None
      else ToOption(CollectLines(snap, h, playlist, snap.lines[file], depth, active + {file}))
  {
  }

  lemma {:induction false} MemberWritten(snap: Snapshot, h: Hashing, name: string, depth: nat, below: nat,
                                         active: set<FileId>)
    requires depth + below == 9 && name in snap.resolve && Within(h)
    ensures ToOption(CollectMember(snap, h, name, depth, active)) ==
      Grown(h, MemberFits(snap, name, below, active), ListMember(snap, name, below), DiscsInMember(snap, name, below))
    decreases below, 1, 0
  {
    var file := snap.resolve[name];
    if snap.fileKind(file) != M3u {
      DiscWritten(snap, h, name, depth, below, active);
      return;
    }
    NestedIs(snap, h, name, depth + 1, active);
    if below > 0 && file in snap.lines {
      LinesWritten(snap, h, name, snap.lines[file], depth + 1, below - 1, active + {file});
    }
  }

  /**
    Hashing a playlist lists its lines one after the other, each followed by what it stands
    for: a nested playlist by its own lines, a disc by the members it declares, in order, and
    by its sidecar. It succeeds exactly if every line fits, at most 255 names are listed and
    at most 25 discs counted.
  */
  lemma CollectRootIs(snap: Snapshot, entry: FileId)
    ensures ToOption(CollectRoot(snap, entry)) ==
      if entry !in snap.lines || snap.lines[entry] == [] then None
      else Grown(Hashing([], 0), LinesFit(snap, "", snap.lines[entry], 9, {entry}),
                 ListLines(snap, "", snap.lines[entry], 9), DiscsInLines(snap, "", snap.lines[entry], 9))
  {
    if entry in snap.lines {
      LinesWritten(snap, Hashing([], 0), "", snap.lines[entry], 0, 9, {entry});
    }
  }
}
