/** The approved names and the hashed names of one playlist, compared. */
module MediaAgreement {
  import opened Ordered
  import opened MediaSnapshot
  import opened IndirectMedia
  import opened PlaylistHashing

  predicate Relative(name: string) {
    name == "" || name[0] != '/'
  }

  lemma JoinsAgree(owner: string, child: string)
    requires Relative(owner)
    ensures HashJoin(owner, child) == JoinName(owner, child)
  {
  }

  function Joined(owner: string, names: seq<string>): set<string> {
    set i | 0 <= i < |names| :: JoinName(owner, names[i])
  }

  lemma JoinedCons(owner: string, names: seq<string>)
    requires names != []
    ensures Joined(owner, names) == {JoinName(owner, names[0])} + Joined(owner, names[1..])
  {
    forall n | n in Joined(owner, names) ensures n in {JoinName(owner, names[0])} + Joined(owner, names[1..]) {
      var i :| 0 <= i < |names| && n == JoinName(owner, names[i]);
      if i > 0 {
        assert names[1..][i - 1] == names[i];
      }
    }
    forall n | n in Joined(owner, names[1..]) ensures n in Joined(owner, names) {
      var i :| 0 <= i < |names| - 1 && n == JoinName(owner, names[1..][i]);
      assert names[i + 1] == names[1..][i];
    }
  }

  /** `b` extends `a`; only names in `added` became descriptors. */
  predicate Extends(a: Declarations, b: Declarations, added: set<string>) {
    && a.Keys <= b.Keys
    && (forall n :: n in a && a[n].role == Descriptor ==> b[n].role == Descriptor)
    && (forall n :: n in b && b[n].role == Descriptor ==> n in added || (n in a && a[n].role == Descriptor))
  }

  lemma MergeExtends(a: Declarations, name: string, role: Role, optional: bool)
    ensures Extends(a, Merge(a, name, role, optional), if role == Descriptor then {name} else {})
    ensures Merge(a, name, role, optional).Keys == a.Keys + {name}
    ensures role == Descriptor ==> Merge(a, name, role, optional)[name].role == Descriptor
  {
  }

  lemma ExtendsTransitive(a: Declarations, b: Declarations, c: Declarations, added: set<string>)
    requires Extends(a, b, added) && Extends(b, c, {})
    ensures Extends(a, c, added)
  {
  }

  lemma AddAllHead(snap: Snapshot, a: Declarations, owner: string, names: seq<string>, role: Role, optional: bool)
    requires names != [] && AddAll(snap, a, owner, names, role, optional).Ok?
    ensures AddAll(snap, a, owner, names, role, optional)
         == AddAll(snap, Merge(a, JoinName(owner, names[0]), role, optional), owner, names[1..], role, optional)
  {
    var name := PortableJoin(snap, owner, names[0]).value;
    var next := AddDeclaration(snap, a, name, role, optional).value;
    assert name == JoinName(owner, names[0]) && next == Merge(a, name, role, optional);
  }

  lemma {:induction false} AddAllDeclares(snap: Snapshot, a: Declarations, owner: string, names: seq<string>,
                                          role: Role, optional: bool)
    requires AddAll(snap, a, owner, names, role, optional).Ok? && role != Descriptor
    ensures var b := AddAll(snap, a, owner, names, role, optional).value;
      b.Keys == a.Keys + Joined(owner, names) && Extends(a, b, {})
    decreases |names|
  {
    if names != [] {
      var name := JoinName(owner, names[0]);
      var next := Merge(a, name, role, optional);
      MergeExtends(a, name, role, optional);
      AddAllHead(snap, a, owner, names, role, optional);
      AddAllDeclares(snap, next, owner, names[1..], role, optional);
      DeclareOneMore(a, next, AddAll(snap, next, owner, names[1..], role, optional).value, owner, names);
    }
  }

  lemma DeclareOneMore(a: Declarations, next: Declarations, b: Declarations, owner: string, names: seq<string>)
    requires names != [] && next.Keys == a.Keys + {JoinName(owner, names[0])} && Extends(a, next, {})
    requires b.Keys == next.Keys + Joined(owner, names[1..]) && Extends(next, b, {})
    ensures b.Keys == a.Keys + Joined(owner, names) && Extends(a, b, {})
  {
    ExtendsTransitive(a, next, b, {});
    JoinedCons(owner, names);
  }

  lemma {:induction false} AddReferencesLists(h: Hashing, owner: string, names: seq<string>)
    requires AddReferences(h, owner, names).Ok? && Relative(owner)
    ensures var next := AddReferences(h, owner, names).value;
      Elements(next.references) == Elements(h.references) + Joined(owner, names)
    decreases |names|
  {
    if names != [] {
      JoinsAgree(owner, names[0]);
      var next := AddReference(h, HashJoin(owner, names[0])).value;
      AddReferencesLists(next, owner, names[1..]);
      JoinedCons(owner, names);
    }
  }

  // -------------------------------------------------------------------- sidecars

  /** A declared CUE descriptor that the walk has entered. */
  predicate CueDescriptor(snap: Snapshot, declared: Declarations, r: string) {
    && r in declared && declared[r].role == Descriptor && snap.kind(r) == Cue
    && r in snap.resolve && snap.resolve[r] in snap.sidecar
  }

  function SidecarName(snap: Snapshot, r: string): string
    requires r in snap.resolve && snap.resolve[r] in snap.sidecar
  {
    JoinName(r, snap.sidecar[snap.resolve[r]])
  }

  function Sidecars(snap: Snapshot, declared: Declarations, present: bool): set<string> {
    set r | r in declared && CueDescriptor(snap, declared, r) && snap.sidecarPresent(snap.resolve[r]) == present
      :: SidecarName(snap, r)
  }

  /** How far along the two traversals are, name for name. */
  predicate InStep(loader: Loader, d: Discovery, h: Hashing) {
    && (loader.adapter == "mednafen" ==> Elements(h.references) <= d.declared.Keys)
    && Elements(h.references) <= d.declared.Keys + Sidecars(loader.snap, d.declared, true)
    && d.declared.Keys <= Elements(h.references) + Sidecars(loader.snap, d.declared, false)
    && Sidecars(loader.snap, d.declared, true) <= Elements(h.references)
  }

  /** Declaring one more descriptor adds at most its own sidecar. */
  lemma SidecarsExtend(snap: Snapshot, a: Declarations, b: Declarations, r: string, present: bool)
    requires Extends(a, b, {r})
    ensures Sidecars(snap, a, present) <= Sidecars(snap, b, present)
    ensures var own := CueDescriptor(snap, b, r) && snap.sidecarPresent(snap.resolve[r]) == present;
      Sidecars(snap, b, present) <= Sidecars(snap, a, present) + if own then {SidecarName(snap, r)} else {}
    ensures CueDescriptor(snap, b, r) && snap.sidecarPresent(snap.resolve[r]) == present ==>
      SidecarName(snap, r) in Sidecars(snap, b, present)
  {
    forall q | q in a && CueDescriptor(snap, a, q) ensures CueDescriptor(snap, b, q) {
    }
    forall q | q in b && CueDescriptor(snap, b, q) && q != r ensures q in a && CueDescriptor(snap, a, q) {
    }
  }

  /** A declared descriptor whose own members are listed on both sides keeps the walks in step. */
  lemma OneDescriptor(loader: Loader, d: Discovery, h: Hashing, r: string, files: set<string>, listed: set<string>,
                      d1: Discovery, h1: Hashing)
    requires InStep(loader, d, h)
    requires Extends(d.declared, d1.declared, {r}) && r in d1.declared
    requires Elements(h1.references) == Elements(h.references) + {r} + listed
    requires CueDescriptor(loader.snap, d1.declared, r) ==>
      CueListing(loader, d.declared, d1.declared, r, files, listed)
    requires !CueDescriptor(loader.snap, d1.declared, r) ==> d1.declared.Keys == d.declared.Keys + {r} + listed
    ensures InStep(loader, d1, h1)
  {
    SidecarsExtend(loader.snap, d.declared, d1.declared, r, true);
    SidecarsExtend(loader.snap, d.declared, d1.declared, r, false);
  }

  /** What a CUE adds: its files on both sides, its sidecar when declared, when listed. */
  predicate CueListing(loader: Loader, a: Declarations, b: Declarations, r: string,
                       files: set<string>, listed: set<string>)
  {
    var snap := loader.snap;
    && CueDescriptor(snap, b, r)
    && b.Keys == a.Keys + {r} + files + (if loader.adapter == "mednafen" then {SidecarName(snap, r)} else {})
    && listed == files + (if snap.sidecarPresent(snap.resolve[r]) then {SidecarName(snap, r)} else {})
  }

  lemma JoinedAppend(owner: string, names: seq<string>, last: string)
    ensures Joined(owner, names + [last]) == Joined(owner, names) + {JoinName(owner, last)}
  {
    forall n | n in Joined(owner, names) ensures n in Joined(owner, names + [last]) {
      var i :| 0 <= i < |names| && n == JoinName(owner, names[i]);
      assert (names + [last])[i] == names[i];
    }
    assert (names + [last])[|names|] == last;
  }

  lemma JoinedOne(owner: string, name: string)
    ensures Joined(owner, [name]) == {JoinName(owner, name)}
  {
    JoinedAppend(owner, [], name);
    assert [] + [name] == [name];
  }

  /** What one entered disc descriptor declares. */
  lemma DiscDeclares(loader: Loader, a: Declarations, r: string, file: FileId, kind: Kind)
    requires DiscMembers(loader, a, r, file, kind).Ok?
    ensures var b := DiscMembers(loader, a, r, file, kind).value;
      && Extends(a, b, {}) && file in loader.snap.files
      && (kind == Cue && loader.adapter == "mednafen" ==> file in loader.snap.sidecar)
      && b.Keys == a.Keys + Joined(r, loader.snap.files[file])
         + (if kind == Cue && loader.adapter == "mednafen" then {JoinName(r, loader.snap.sidecar[file])} else {})
  {
    var snap := loader.snap;
    var role := if kind == Ccd then Companion else Track;
    AddAllDeclares(snap, a, r, snap.files[file], role, false);
    if kind == Cue && loader.adapter == "mednafen" {
      var next := AddAll(snap, a, r, snap.files[file], role, false).value;
      AddAllDeclares(snap, next, r, [snap.sidecar[file]], OptionalSidecar, true);
      JoinedOne(r, snap.sidecar[file]);
      ExtendsTransitive(a, next, DiscMembers(loader, a, r, file, kind).value, {});
    }
  }

  /** What the hashing traversal lists for the same descriptor. */
  lemma MembersListed(snap: Snapshot, h: Hashing, r: string, file: FileId, kind: Kind)
    requires Relative(r) && LoaderMembers(snap, file, kind).Ok?
    requires AddReferences(h, r, LoaderMembers(snap, file, kind).value).Ok?
    ensures var next := AddReferences(h, r, LoaderMembers(snap, file, kind).value).value;
      && file in snap.files && (kind == Cue ==> file in snap.sidecar)
      && Elements(next.references) == Elements(h.references) + Joined(r, snap.files[file])
         + (if kind == Cue && snap.sidecarPresent(file) then {JoinName(r, snap.sidecar[file])} else {})
  {
    AddReferencesLists(h, r, LoaderMembers(snap, file, kind).value);
    if kind == Cue && snap.sidecarPresent(file) {
      JoinedAppend(r, snap.files[file], snap.sidecar[file]);
    }
  }

  lemma ElementsAppend<T>(s: seq<T>, x: T)
    ensures Elements(s + [x]) == Elements(s) + {x}
  {
    assert forall y :: y in s + [x] <==> y in s || y == x;
  }

  // ------------------------------------------------------- walks only add declarations

  ghost predicate Grows(a: Discovery, b: Discovery) {
    a.declared.Keys <= b.declared.Keys
  }

  lemma {:induction false} EntriesGrow(loader: Loader, d: Discovery, descriptor: string, entries: seq<string>,
                                       depth: nat, active: set<string>)
    requires depth <= MAX_RECURSION_DEPTH
    requires CollectEntries(loader, d, descriptor, entries, depth, active).Going?
    ensures Grows(d, CollectEntries(loader, d, descriptor, entries, depth, active).d)
    decreases MAX_RECURSION_DEPTH + 1 - depth, 1, |entries|
  {
    if entries != [] {
      EntryGrows(loader, d, descriptor, entries[0], depth, active);
      var walk := CollectEntry(loader, d, descriptor, entries[0], depth, active);
      EntriesGrow(loader, walk.d, descriptor, entries[1..], depth, active);
    }
  }

  lemma {:induction false} EntryGrows(loader: Loader, d: Discovery, descriptor: string, child: string,
                                      depth: nat, active: set<string>)
    requires depth <= MAX_RECURSION_DEPTH
    requires CollectEntry(loader, d, descriptor, child, depth, active).Going?
    ensures Grows(d, CollectEntry(loader, d, descriptor, child, depth, active).d)
    ensures JoinName(descriptor, child) in CollectEntry(loader, d, descriptor, child, depth, active).d.declared
    decreases MAX_RECURSION_DEPTH + 1 - depth, 0, 1
  {
    var nested := JoinName(descriptor, child);
    if nested in loader.approved {
      DescriptorGrows(loader, Declaring(d, nested), nested, depth, active);
    }
  }

  /** The state in which an approved descriptor is entered. */
  function Declaring(d: Discovery, nested: string): Discovery {
    d.(declared := Merge(d.declared, nested, Descriptor, false), accessed := d.accessed + {nested})
  }

  lemma {:induction false} DescriptorGrows(loader: Loader, d: Discovery, nested: string, depth: nat,
                                           active: set<string>)
    requires depth <= MAX_RECURSION_DEPTH && nested in loader.snap.resolve
    requires EnterDescriptor(loader, d, nested, depth, active).Going?
    ensures Grows(d, EnterDescriptor(loader, d, nested, depth, active).d)
    decreases MAX_RECURSION_DEPTH + 1 - depth, 0, 0
  {
    var d1 := EnterDescriptor(loader, d, nested, depth, active).d;
    if loader.snap.kind(nested) == M3u {
      var below := PlaylistEntered(loader, d, nested, depth, active, d1);
      var lines := CollectUnfolds(loader, d, nested, below, active, d1);
      EntriesGrow(loader, d, nested, lines, below, active + {ActiveName(nested)});
    } else {
      DiscDeclares(loader, d.declared, nested, loader.snap.resolve[nested], loader.snap.kind(nested));
    }
  }

  // -------------------------------------------------------- the two walks in step

  lemma {:induction false} EntriesAgree(loader: Loader, d: Discovery, h: Hashing, playlist: string, lines: seq<string>,
                                        depth: nat, names: set<string>, files: set<FileId>, d1: Discovery, h1: Hashing)
    requires loader.snap.Valid() && Relative(playlist) && depth <= MAX_RECURSION_DEPTH
    requires InStep(loader, d, h)
    requires CollectEntries(loader, d, playlist, lines, depth, names) == Going(d1)
    requires CollectLines(loader.snap, h, playlist, lines, depth, files) == Ok(h1)
    requires d1.declared.Keys <= loader.approved
    ensures InStep(loader, d1, h1)
    decreases MAX_RECURSION_DEPTH + 1 - depth, 1, |lines|
  {
    if lines != [] {
      var d2 := CollectEntry(loader, d, playlist, lines[0], depth, names).d;
      var h2 := CollectLine(loader.snap, h, playlist, lines[0], depth, files).value;
      EntriesGrow(loader, d2, playlist, lines[1..], depth, names);
      EntryAgrees(loader, d, h, playlist, lines[0], depth, names, files, d2, h2);
      EntriesAgree(loader, d2, h2, playlist, lines[1..], depth, names, files, d1, h1);
    }
  }

  lemma {:induction false} EntryAgrees(loader: Loader, d: Discovery, h: Hashing, playlist: string, line: string,
                                       depth: nat, names: set<string>, files: set<FileId>, d1: Discovery, h1: Hashing)
    requires loader.snap.Valid() && Relative(playlist) && depth <= MAX_RECURSION_DEPTH
    requires InStep(loader, d, h)
    requires CollectEntry(loader, d, playlist, line, depth, names) == Going(d1)
    requires CollectLine(loader.snap, h, playlist, line, depth, files) == Ok(h1)
    requires d1.declared.Keys <= loader.approved
    ensures InStep(loader, d1, h1)
    decreases MAX_RECURSION_DEPTH + 1 - depth, 0, 2
  {
    JoinsAgree(playlist, line);
    EntryGrows(loader, d, playlist, line, depth, names);
    var nested := JoinName(playlist, line);
    DescriptorAgrees(loader, d, h, nested, depth, names, files, d1, h1);
  }

  lemma {:induction false} DescriptorAgrees(loader: Loader, d: Discovery, h: Hashing, nested: string, depth: nat,
                                            names: set<string>, files: set<FileId>, d1: Discovery, h1: Hashing)
    requires loader.snap.Valid() && loader.snap.portable(nested) && depth <= MAX_RECURSION_DEPTH
    requires InStep(loader, d, h) && nested in loader.snap.resolve
    requires EnterDescriptor(loader, Declaring(d, nested), nested, depth, names) == Going(d1)
    requires CollectMember(loader.snap, Listing(h, nested), nested, depth, files) == Ok(h1)
    requires d1.declared.Keys <= loader.approved
    ensures InStep(loader, d1, h1)
    decreases MAX_RECURSION_DEPTH + 1 - depth, 0, 1
  {
    if loader.snap.kind(nested) == M3u {
      PlaylistDeclared(loader, d, h, nested);
      var below := PlaylistEntered(loader, Declaring(d, nested), nested, depth, names, d1);
      PlaylistListed(loader.snap, Listing(h, nested), nested, depth, below, files, h1);
      PlaylistAgrees(loader, Declaring(d, nested), Listing(h, nested), nested, below, names, files, d1, h1);
    } else {
      DiscEnters(loader, d, nested, depth, names, d1);
      DiscLists(loader.snap, h, nested, depth, files, h1);
      DiscAgrees(loader, d, h, nested, d1, h1);
    }
  }

  lemma PlaylistEntered(loader: Loader, d: Discovery, nested: string, depth: nat, names: set<string>, d1: Discovery)
    returns (below: nat)
    requires depth <= MAX_RECURSION_DEPTH && nested in loader.snap.resolve && loader.snap.kind(nested) == M3u
    requires EnterDescriptor(loader, d, nested, depth, names) == Going(d1)
    ensures below == depth + 1 && Collect(loader, d, nested, loader.snap.resolve[nested], below, names) == Going(d1)
  {
    below := depth + 1;
  }

  lemma PlaylistListed(snap: Snapshot, h: Hashing, nested: string, depth: nat, below: nat, files: set<FileId>,
                       h1: Hashing)
    requires depth <= MAX_RECURSION_DEPTH && nested in snap.resolve && below == depth + 1
    requires snap.Valid() && snap.kind(nested) == M3u && CollectMember(snap, h, nested, depth, files) == Ok(h1)
    ensures CollectNested(snap, h, nested, below, files) == Ok(h1)
  {
  }

  /** A disc descriptor was declared and entered, with what it declares. */
  predicate DiscEntered(loader: Loader, d: Discovery, r: string, d1: Discovery)
    requires r in loader.snap.resolve
  {
    var entered := Declaring(d, r);
    var next := DiscMembers(loader, entered.declared, r, loader.snap.resolve[r], loader.snap.kind(r));
    next.Ok? && d1 == entered.(discs := d.discs + 1, declared := next.value)
  }

  /** A disc descriptor was listed for hashing, with its members. */
  predicate DiscListed(snap: Snapshot, h: Hashing, r: string, h1: Hashing)
    requires r in snap.resolve
  {
    var members := LoaderMembers(snap, snap.resolve[r], snap.kind(r));
    members.Ok? && AddReferences(Listing(h, r).(discs := h.discs + 1), r, members.value) == Ok(h1)
  }

  lemma DiscEnters(loader: Loader, d: Discovery, r: string, depth: nat, names: set<string>, d1: Discovery)
    requires depth <= MAX_RECURSION_DEPTH && r in loader.snap.resolve && loader.snap.kind(r) != M3u
    requires EnterDescriptor(loader, Declaring(d, r), r, depth, names) == Going(d1)
    ensures DiscEntered(loader, d, r, d1)
  {
  }

  lemma DiscLists(snap: Snapshot, h: Hashing, r: string, depth: nat, files: set<FileId>, h1: Hashing)
    requires depth <= MAX_RECURSION_DEPTH && r in snap.resolve && snap.Valid() && snap.kind(r) != M3u
    requires CollectMember(snap, Listing(h, r), r, depth, files) == Ok(h1)
    ensures DiscListed(snap, h, r, h1)
  {
  }

  lemma PlaylistDeclared(loader: Loader, d: Discovery, h: Hashing, nested: string)
    requires InStep(loader, d, h) && loader.snap.kind(nested) == M3u
    ensures InStep(loader, Declaring(d, nested), Listing(h, nested))
  {
    MergeExtends(d.declared, nested, Descriptor, false);
    ElementsAppend(h.references, nested);
    OneDescriptor(loader, d, h, nested, {}, {}, Declaring(d, nested), Listing(h, nested));
  }

  lemma {:induction false} PlaylistAgrees(loader: Loader, d: Discovery, h: Hashing, nested: string, below: nat,
                                          names: set<string>, files: set<FileId>, d1: Discovery, h1: Hashing)
    requires loader.snap.Valid() && Relative(nested) && below <= MAX_RECURSION_DEPTH + 1
    requires InStep(loader, d, h) && nested in loader.snap.resolve
    requires Collect(loader, d, nested, loader.snap.resolve[nested], below, names) == Going(d1)
    requires CollectNested(loader.snap, h, nested, below, files) == Ok(h1)
    requires d1.declared.Keys <= loader.approved
    ensures InStep(loader, d1, h1)
    decreases MAX_RECURSION_DEPTH + 1 - below, 2, 0
  {
    var lines := CollectUnfolds(loader, d, nested, below, names, d1);
    NestedUnfolds(loader.snap, h, nested, below, files, h1);
    EntriesAgree(loader, d, h, nested, lines, below, names + {ActiveName(nested)},
                 files + {loader.snap.resolve[nested]}, d1, h1);
  }

  lemma CollectUnfolds(loader: Loader, d: Discovery, nested: string, depth: nat, names: set<string>, d1: Discovery)
    returns (lines: seq<string>)
    requires depth <= MAX_RECURSION_DEPTH + 1 && nested in loader.snap.resolve
    requires Collect(loader, d, nested, loader.snap.resolve[nested], depth, names) == Going(d1)
    ensures depth <= MAX_RECURSION_DEPTH && loader.snap.resolve[nested] in loader.snap.lines
    ensures lines == loader.snap.lines[loader.snap.resolve[nested]]
    ensures CollectEntries(loader, d, nested, lines, depth, names + {ActiveName(nested)}) == Going(d1)
  {
    lines := DirectEntries(loader.snap, loader.snap.resolve[nested]).value;
  }

  lemma NestedUnfolds(snap: Snapshot, h: Hashing, nested: string, depth: nat, files: set<FileId>, h1: Hashing)
    requires depth <= MAX_RECURSION_DEPTH + 1
    requires CollectNested(snap, h, nested, depth, files) == Ok(h1)
    ensures depth <= MAX_RECURSION_DEPTH && nested in snap.resolve && snap.resolve[nested] in snap.lines
    ensures var file := snap.resolve[nested];
      CollectLines(snap, h, nested, snap.lines[file], depth, files + {file}) == Ok(h1)
  {
  }

  function Listing(h: Hashing, nested: string): Hashing {
    h.(references := h.references + [nested])
  }

  /** The names an entered disc descriptor adds to the declared ones. */
  lemma DiscDeclared(loader: Loader, d: Discovery, r: string, d1: Discovery)
    requires r in loader.snap.resolve && DiscEntered(loader, d, r, d1)
    ensures var snap, file := loader.snap, loader.snap.resolve[r];
      var cue := snap.kind(r) == Cue && loader.adapter == "mednafen";
      && Extends(d.declared, d1.declared, {r}) && r in d1.declared && d1.declared[r].role == Descriptor
      && file in snap.files && (cue ==> file in snap.sidecar)
      && d1.declared.Keys == d.declared.Keys + {r} + Joined(r, snap.files[file])
         + if cue then {JoinName(r, snap.sidecar[file])} else {}
  {
    var entered := Declaring(d, r);
    MergeExtends(d.declared, r, Descriptor, false);
    DiscDeclares(loader, entered.declared, r, loader.snap.resolve[r], loader.snap.kind(r));
    ExtendsTransitive(d.declared, entered.declared, d1.declared, {r});
  }

  /** The names that hashing lists for it. */
  function ListedNames(snap: Snapshot, r: string): set<string>
    requires r in snap.resolve && snap.resolve[r] in snap.files
    requires snap.kind(r) == Cue ==> snap.resolve[r] in snap.sidecar
  {
    var file := snap.resolve[r];
    var sidecar := snap.kind(r) == Cue && snap.sidecarPresent(file);
    Joined(r, snap.files[file]) + if sidecar then {JoinName(r, snap.sidecar[file])} else {}
  }

  lemma ListedAre(snap: Snapshot, h: Hashing, r: string, h1: Hashing)
    requires r in snap.resolve && DiscListed(snap, h, r, h1) && Relative(r)
    ensures snap.resolve[r] in snap.files && (snap.kind(r) == Cue ==> snap.resolve[r] in snap.sidecar)
    ensures Elements(h1.references) == Elements(h.references) + {r} + ListedNames(snap, r)
  {
    ElementsAppend(h.references, r);
    MembersListed(snap, Listing(h, r).(discs := h.discs + 1), r, snap.resolve[r], snap.kind(r));
  }

  /** One approved disc descriptor, seen from both sides. */
  lemma DiscAgrees(loader: Loader, d: Discovery, h: Hashing, r: string, d1: Discovery, h1: Hashing)
    requires loader.snap.Valid() && InStep(loader, d, h) && loader.snap.portable(r) && r in loader.snap.resolve
    requires DiscEntered(loader, d, r, d1) && DiscListed(loader.snap, h, r, h1)
    ensures InStep(loader, d1, h1)
  {
    DiscDeclared(loader, d, r, d1);
    ListedAre(loader.snap, h, r, h1);
    var own, listed := Joined(r, loader.snap.files[loader.snap.resolve[r]]), ListedNames(loader.snap, r);
    if loader.snap.kind(r) == Cue {
      assert CueListing(loader, d.declared, d1.declared, r, own, listed);
    }
    OneDescriptor(loader, d, h, r, own, listed, d1, h1);
  }
}
