/**
  What one walk of the review declares: every occurrence of a name in order, without the
  walk's early exits, exactly which walks go through, and what several occurrences of one
  name come to.
*/
module MediaDiscovery {
  import opened Base
  import opened Ordered
  import opened MediaSnapshot
  import opened IndirectMedia

  /** One place that names a member. */
  datatype Occurrence = Occurrence(name: string, role: Role, optional: bool)

  function MergeAll(declared: Declarations, all: seq<Occurrence>): Declarations
    decreases |all|
  {
    if all == [] then declared
    else MergeAll(Merge(declared, all[0].name, all[0].role, all[0].optional), all[1..])
  }

  function Names(all: seq<Occurrence>): set<string> {
    set i | 0 <= i < |all| :: all[i].name
  }

  // --------------------------------------------------- what several occurrences come to

  predicate OccursAt(all: seq<Occurrence>, i: int, name: string) {
    0 <= i < |all| && all[i].name == name
  }

  /** The first occurrence of a name. */
  predicate FirstAt(all: seq<Occurrence>, i: int, name: string) {
    OccursAt(all, i, name) && forall j :: 0 <= j < i ==> all[j].name != name
  }

  /** A member is a descriptor if some occurrence is one, and else what the first one says; optional if all are. */
  ghost predicate Sums(m: Member, all: seq<Occurrence>, name: string) {
    && (m.role == Descriptor <==> exists i :: OccursAt(all, i, name) && all[i].role == Descriptor)
    && (m.role != Descriptor ==> forall i :: FirstAt(all, i, name) ==> m.role == all[i].role)
    && (m.optional <==> forall i :: OccursAt(all, i, name) ==> all[i].optional)
  }

  lemma MergeSnoc(declared: Declarations, all: seq<Occurrence>, o: Occurrence)
    ensures MergeAll(declared, all + [o]) == Merge(MergeAll(declared, all), o.name, o.role, o.optional)
    decreases |all|
  {
    if all == [] {
      assert [o][1..] == [] && all + [o] == [o];
    } else {
      assert (all + [o])[1..] == all[1..] + [o] && (all + [o])[0] == all[0];
      MergeSnoc(Merge(declared, all[0].name, all[0].role, all[0].optional), all[1..], o);
    }
  }

  lemma SumsSnoc(before: Declarations, all: seq<Occurrence>, o: Occurrence)
    requires o.name in before ==> Sums(before[o.name], all, o.name)
    requires o.name in before <==> o.name in Names(all)
    ensures Sums(Merge(before, o.name, o.role, o.optional)[o.name], all + [o], o.name)
  {
    var more := all + [o];
    assert more[|all|] == o;
    assert forall i :: 0 <= i < |all| ==> more[i] == all[i];
    if o.name !in before {
      forall i | 0 <= i < |all| ensures all[i].name != o.name {
        assert all[i].name in Names(all);
      }
    } else {
      var m := before[o.name];
      assert m.role == Descriptor ==> exists i :: OccursAt(more, i, o.name) && more[i].role == Descriptor by {
        if m.role == Descriptor {
          var i :| OccursAt(all, i, o.name) && all[i].role == Descriptor;
          assert OccursAt(more, i, o.name);
        }
      }
      assert OccursAt(more, |all|, o.name);
      var k :| 0 <= k < |all| && all[k].name == o.name;
      forall i | FirstAt(more, i, o.name) ensures FirstAt(all, i, o.name) {
        assert more[k].name == o.name;
      }
    }
  }

  /** All declarations of a walk: the names that occur, each with what its occurrences come to. */
  lemma {:induction false} DeclaredIs(all: seq<Occurrence>)
    ensures MergeAll(map[], all).Keys == Names(all)
    ensures forall n :: n in Names(all) ==> Sums(MergeAll(map[], all)[n], all, n)
    decreases |all|
  {
    if all != [] {
      var front, o := all[..|all| - 1], all[|all| - 1];
      assert all == front + [o];
      DeclaredIs(front);
      MergeSnoc(map[], front, o);
      NamesSnoc(front, o);
      DeclaredSnoc(MergeAll(map[], front), front, o);
    }
  }

  lemma DeclaredSnoc(before: Declarations, front: seq<Occurrence>, o: Occurrence)
    requires before.Keys == Names(front) && forall n :: n in Names(front) ==> Sums(before[n], front, n)
    ensures var after := Merge(before, o.name, o.role, o.optional);
      && after.Keys == Names(front) + {o.name}
      && forall n :: n in Names(front) + {o.name} ==> Sums(after[n], front + [o], n)
  {
    hide Sums, Names;
    SumsSnoc(before, front, o);
    forall n | n in Names(front) && n != o.name ensures Sums(before[n], front + [o], n) {
      SumsOther(before[n], front, o, n);
    }
  }

  lemma SumsOther(m: Member, all: seq<Occurrence>, o: Occurrence, name: string)
    requires Sums(m, all, name) && o.name != name
    ensures Sums(m, all + [o], name)
  {
    var more := all + [o];
    assert forall i :: 0 <= i < |all| ==> more[i] == all[i];
    assert forall i :: OccursAt(more, i, name) <==> OccursAt(all, i, name);
    assert forall i :: FirstAt(more, i, name) <==> FirstAt(all, i, name);
  }

  lemma NamesSnoc(all: seq<Occurrence>, o: Occurrence)
    ensures Names(all + [o]) == Names(all) + {o.name}
  {
    NamesAppend(all, [o]);
    assert Names([o]) == {o.name} by {
      assert [o][0] == o;
    }
  }

  lemma NamesAppend(a: seq<Occurrence>, b: seq<Occurrence>)
    ensures Names(a + b) == Names(a) + Names(b)
  {
    var all := a + b;
    assert forall i :: 0 <= i < |a| ==> all[i] == a[i];
    forall n | n in Names(b) ensures n in Names(all) {
      var i :| 0 <= i < |b| && b[i].name == n;
      assert all[|a| + i] == b[i];
    }
    forall n | n in Names(all) ensures n in Names(a) + Names(b) {
      var i :| 0 <= i < |all| && all[i].name == n;
      assert i >= |a| ==> b[i - |a|] == all[i];
    }
  }

  lemma {:induction false} MergeAppend(declared: Declarations, a: seq<Occurrence>, b: seq<Occurrence>)
    ensures MergeAll(declared, a + b) == MergeAll(MergeAll(declared, a), b)
    decreases |a|
  {
    if a == [] {
      assert a + b == b;
    } else {
      assert (a + b)[0] == a[0] && (a + b)[1..] == a[1..] + b;
      MergeAppend(Merge(declared, a[0].name, a[0].role, a[0].optional), a[1..], b);
    }
  }

  lemma {:induction false} MergeKeys(declared: Declarations, all: seq<Occurrence>)
    ensures MergeAll(declared, all).Keys == declared.Keys + Names(all)
    decreases |all|
  {
    if all != [] {
      var o := all[0];
      MergeKeys(Merge(declared, o.name, o.role, o.optional), all[1..]);
      NamesAppend([o], all[1..]);
      assert all == [o] + all[1..] && Names([o]) == {o.name} by {
        assert [o][0] == o;
      }
    }
  }

  // ----------------------------------------------------------------------- names in a folder

  /** A name that an owner in a folder declares is one in that folder. */
  lemma JoinedBeside(folder: string, name: string, child: string)
    requires '/' !in name
    ensures JoinName(name, child) == child
    ensures JoinName(folder + "/" + name, child) == if folder == "" then child else folder + "/" + child
  {
    var owner := folder + "/" + name;
    assert owner[|folder|] == '/' && forall i :: |folder| < i < |owner| ==> owner[i] == name[i - |folder| - 1];
    assert LastSlash(owner) == |folder| && owner[..|folder|] == folder;
  }

  // ------------------------------------------------------------ name bytes of larger sets

  lemma {:induction false} BytesWithout(s: set<string>, x: string)
    requires x in s
    ensures NameBytes(Ascending(s)) == |x| + NameBytes(Ascending(s - {x}))
    decreases |s|
  {
    hide Ascending, NameBytes;
    LeastDetermined(s);
    var m :| m in s && IsLeast(m, s);
    LeastFirst(s, m);
    if x != m {
      var less := s - {m};
      BytesWithout(less, x);
      assert IsLeast(m, s - {x});
      LeastFirst(s - {x}, m);
      assert s - {x} - {m} == less - {x};
    }
  }

  lemma LeastFirst(s: set<string>, m: string)
    requires m in s && IsLeast(m, s)
    ensures NameBytes(Ascending(s)) == |m| + NameBytes(Ascending(s - {m}))
  {
    LeastDetermined(s);
    var rest := Ascending(s - {m});
    assert Ascending(s) == [m] + rest;
    assert ([m] + rest)[1..] == rest;
  }

  /** More names never fit where fewer do not. */
  lemma {:induction false} BoundsMonotone(a: set<string>, b: set<string>)
    requires a <= b && WithinBounds(b)
    ensures WithinBounds(a)
    decreases |b|
  {
    if b <= a {
      assert a == b;
    } else {
      var x :| x in b && x !in a;
      BytesWithout(b, x);
      assert |b - {x}| == |b| - 1;
      BoundsMonotone(a, b - {x});
    }
  }

  // ------------------------------------------------------------------- what a walk meets

  /** What a part of a walk meets: whether all of it is in order, every occurrence, discs, names entered. */
  datatype Part = Part(fits: bool, all: seq<Occurrence>, discs: nat, entered: set<string>)

  const NOTHING := Part(true, [], 0, {})
  const UNFIT := Part(false, [], 0, {})
  const ONE_DISC := Part(true, [], 1, {})

  function Plus(a: Part, b: Part): Part {
    Part(a.fits && b.fits, a.all + b.all, a.discs + b.discs, a.entered + b.entered)
  }

  function Occurrences(owner: string, names: seq<string>, role: Role, optional: bool): seq<Occurrence> {
    seq(|names|, i requires 0 <= i < |names| => Occurrence(JoinName(owner, names[i]), role, optional))
  }

  predicate JoinsPortably(snap: Snapshot, owner: string, name: string) {
    snap.portable(name) && snap.portable(JoinName(owner, name))
  }

  predicate AllPortable(snap: Snapshot, owner: string, names: seq<string>) {
    forall i :: 0 <= i < |names| ==> JoinsPortably(snap, owner, names[i])
  }

  /** One declaration, as a part of its own. */
  function OnePart(snap: Snapshot, owner: string, name: string, role: Role, optional: bool): Part {
    Part(JoinsPortably(snap, owner, name), [Occurrence(JoinName(owner, name), role, optional)], 0, {})
  }

  function NamesPart(snap: Snapshot, owner: string, names: seq<string>, role: Role, optional: bool): Part {
    Part(AllPortable(snap, owner, names), Occurrences(owner, names, role, optional), 0, {})
  }

  /** An approved disc: its tracks or companions, and for Mednafen the sidecar it may have. */
  function DiscPart(loader: Loader, owner: string, file: FileId, kind: Kind): Part {
    var snap := loader.snap;
    if file !in snap.files then UNFIT
    else
      var names := snap.files[file];
      var own := NamesPart(snap, owner, names, if kind == Ccd then Companion else Track, false);
      if kind == Cue && loader.adapter == "mednafen" then
        if file !in snap.sidecar then Plus(own, UNFIT)
        else
          Plus(own, NamesPart(snap, owner, [snap.sidecar[file]], OptionalSidecar, true))
      else own
  }

  function LinesPart(loader: Loader, playlist: string, lines: seq<string>, below: nat, active: set<string>): Part
    decreases below, 1, |lines|
  {
    if lines == [] then NOTHING
    else
      Plus(LinePart(loader, playlist, lines[0], below, active), LinesPart(loader, playlist, lines[1..], below, active))
  }

  /** A line declares a descriptor; what stands behind it is met only if the name is approved. */
  function LinePart(loader: Loader, playlist: string, line: string, below: nat, active: set<string>): Part
    decreases below, 1, 0
  {
    var snap, name := loader.snap, JoinName(playlist, line);
    var own := OnePart(snap, playlist, line, Descriptor, false);
    if snap.kind(name) !in {M3u, Cue, Ccd, Toc} then UNFIT
    else if name !in loader.approved then own
    else if name !in snap.resolve then Plus(own, UNFIT)
    else Plus(own, EnterPart(loader, name, below, active))
  }

  function EnterPart(loader: Loader, name: string, below: nat, active: set<string>): Part
    requires name in loader.snap.resolve
    decreases below, 0, 0
  {
    var file, kind := loader.snap.resolve[name], loader.snap.kind(name);
    var behind :=
      if kind != M3u then Plus(DiscPart(loader, name, file, kind), ONE_DISC)
      else if below == 0 || ActiveName(name) in active || !PlaylistFits(loader.snap, file) then UNFIT
      else LinesPart(loader, name, loader.snap.lines[file], below - 1, active + {ActiveName(name)});
    Plus(Part(true, [], 0, {name}), behind)
  }

  predicate PlaylistFits(snap: Snapshot, file: FileId) {
    && file in snap.lines && 1 <= |snap.lines[file]| <= 255
    && forall i :: 0 <= i < |snap.lines[file]| ==> snap.portable(snap.lines[file][i])
  }

  /** What a discovery comes to behind a part: everything merged in order, within the bounds, or nothing. */
  function Sum(d: Discovery, p: Part): Option<Discovery> {
    if p.fits && WithinBounds(d.declared.Keys + Names(p.all)) && d.discs + p.discs <= 25
    then Some(Discovery(MergeAll(d.declared, p.all), d.discs + p.discs, d.accessed + p.entered))
    else None
  }

  lemma SumPlus(d: Discovery, a: Part, b: Part)
    ensures Sum(d, Plus(a, b)) == if Sum(d, a).None? then None else Sum(Sum(d, a).value, b)
  {
    hide WithinBounds, MergeAll, Names;
    KeysPlus(d.declared, a.all, b.all);
    MergeAppend(d.declared, a.all, b.all);
    EnteredPlus(d.accessed, a.entered, b.entered);
  }

  lemma KeysPlus(declared: Declarations, a: seq<Occurrence>, b: seq<Occurrence>)
    ensures MergeAll(declared, a).Keys + Names(b) == declared.Keys + Names(a + b)
    ensures WithinBounds(declared.Keys + Names(a + b)) ==> WithinBounds(declared.Keys + Names(a))
  {
    hide WithinBounds;
    NamesAppend(a, b);
    MergeKeys(declared, a);
    if WithinBounds(declared.Keys + Names(a + b)) {
      BoundsMonotone(declared.Keys + Names(a), declared.Keys + Names(a + b));
    }
  }

  lemma EnteredPlus(a: set<string>, b: set<string>, c: set<string>)
    ensures a + b + c == a + (b + c)
  {
  }

  predicate Within(d: Discovery) {
    WithinBounds(d.declared.Keys) && d.discs <= 25
  }

  lemma SumNothing(d: Discovery)
    requires Within(d)
    ensures Sum(d, NOTHING) == Some(d)
  {
    hide WithinBounds;
    assert Names([]) == {};
    assert d.declared.Keys + Names([]) == d.declared.Keys && d.accessed + {} == d.accessed;
  }

  function ToOption(walk: Walk): Option<Discovery> {
    if walk.Going? then Some(walk.d) else None
  }

  // ---------------------------------------------------------------- the walk is that sum

  lemma NamesPartCons(snap: Snapshot, owner: string, names: seq<string>, role: Role, optional: bool)
    requires names != []
    ensures NamesPart(snap, owner, names, role, optional) ==
      Plus(OnePart(snap, owner, names[0], role, optional), NamesPart(snap, owner, names[1..], role, optional))
  {
    hide JoinsPortably;
    var rest := names[1..];
    assert forall i :: 0 <= i < |rest| ==> rest[i] == names[i + 1];
    if AllPortable(snap, owner, rest) && JoinsPortably(snap, owner, names[0]) {
      forall i | 0 <= i < |names| ensures JoinsPortably(snap, owner, names[i]) {
        assert i > 0 ==> names[i] == rest[i - 1];
      }
    }
  }

  lemma OneName(o: Occurrence)
    ensures Names([o]) == {o.name}
  {
    assert [o][0] == o;
  }

  lemma OneMerged(declared: Declarations, o: Occurrence)
    ensures MergeAll(declared, [o]) == Merge(declared, o.name, o.role, o.optional)
    ensures Merge(declared, o.name, o.role, o.optional).Keys == declared.Keys + Names([o])
  {
    assert [o][1..] == [];
    OneName(o);
  }

  /** A declaration goes through if its name is portable and the bounds still hold. */
  lemma AddDeclarationIs(snap: Snapshot, declared: Declarations, o: Occurrence)
    ensures AddDeclaration(snap, declared, o.name, o.role, o.optional).Ok? <==>
      snap.portable(o.name) && WithinBounds(declared.Keys + Names([o]))
    ensures AddDeclaration(snap, declared, o.name, o.role, o.optional).Ok? ==>
      AddDeclaration(snap, declared, o.name, o.role, o.optional).value == MergeAll(declared, [o])
  {
    OneMerged(declared, o);
  }

  lemma OneIs(snap: Snapshot, d: Discovery, owner: string, name: string, role: Role, optional: bool)
    requires Within(d)
    ensures var r := AddDeclaration(snap, d.declared, JoinName(owner, name), role, optional);
      Sum(d, OnePart(snap, owner, name, role, optional)) ==
      if snap.portable(name) && r.Ok? then Some(d.(declared := r.value)) else None
  {
    hide WithinBounds, MergeAll, AddDeclaration, Names;
    AddDeclarationIs(snap, d.declared, Occurrence(JoinName(owner, name), role, optional));
    assert d.accessed + {} == d.accessed;
  }

  lemma AddAllCons(snap: Snapshot, declared: Declarations, owner: string, names: seq<string>, role: Role,
                   optional: bool)
    requires names != []
    ensures var r := AddDeclaration(snap, declared, JoinName(owner, names[0]), role, optional);
      var whole := AddAll(snap, declared, owner, names, role, optional);
      if JoinsPortably(snap, owner, names[0]) && r.Ok?
      then whole == AddAll(snap, r.value, owner, names[1..], role, optional)
      else whole.Err?
  {
  }

  lemma {:induction false} AddAllIs(snap: Snapshot, d: Discovery, owner: string, names: seq<string>, role: Role,
                                    optional: bool)
    requires Within(d)
    ensures var r := AddAll(snap, d.declared, owner, names, role, optional);
      Sum(d, NamesPart(snap, owner, names, role, optional)) ==
      if r.Ok? then Some(d.(declared := r.value)) else None
    decreases |names|
  {
    if names == [] {
      SumNothing(d);
      assert NamesPart(snap, owner, names, role, optional) == NOTHING;
    } else {
      hide Sum, AddAll, AddDeclaration, Within;
      NamesPartCons(snap, owner, names, role, optional);
      SumPlus(d, OnePart(snap, owner, names[0], role, optional), NamesPart(snap, owner, names[1..], role, optional));
      OneIs(snap, d, owner, names[0], role, optional);
      SumWithin(d, OnePart(snap, owner, names[0], role, optional));
      AddAllCons(snap, d.declared, owner, names, role, optional);
      var r := AddDeclaration(snap, d.declared, JoinName(owner, names[0]), role, optional);
      if snap.portable(names[0]) && r.Ok? {
        AddAllIs(snap, d.(declared := r.value), owner, names[1..], role, optional);
      }
      UnportableFails(snap, d, owner, names[0], role, optional);
    }
  }

  lemma UnportableFails(snap: Snapshot, d: Discovery, owner: string, name: string, role: Role, optional: bool)
    ensures !JoinsPortably(snap, owner, name) ==> Sum(d, OnePart(snap, owner, name, role, optional)).None?
  {
  }

  lemma SumWithin(d: Discovery, p: Part)
    ensures Sum(d, p).Some? ==> Within(Sum(d, p).value)
  {
    hide WithinBounds, Names;
    MergeKeys(d.declared, p.all);
  }

  predicate WithSidecar(loader: Loader, kind: Kind) {
    kind == Cue && loader.adapter == "mednafen"
  }

  function FilesPart(loader: Loader, owner: string, file: FileId, kind: Kind): Part
    requires file in loader.snap.files
  {
    NamesPart(loader.snap, owner, loader.snap.files[file], if kind == Ccd then Companion else Track, false)
  }

  lemma DiscPartIs(loader: Loader, owner: string, file: FileId, kind: Kind)
    requires file in loader.snap.files
    ensures var snap, own := loader.snap, FilesPart(loader, owner, file, kind);
      DiscPart(loader, owner, file, kind) ==
      if !WithSidecar(loader, kind) then own
      else if file !in snap.sidecar then Plus(own, UNFIT)
      else Plus(own, NamesPart(snap, owner, [snap.sidecar[file]], OptionalSidecar, true))
  {
    hide NamesPart, Plus;
  }

  lemma DiscMembersAre(loader: Loader, declared: Declarations, owner: string, file: FileId, kind: Kind)
    requires file in loader.snap.files
    ensures var snap := loader.snap;
      var own := AddAll(snap, declared, owner, snap.files[file], if kind == Ccd then Companion else Track, false);
      var all := DiscMembers(loader, declared, owner, file, kind);
      if own.Err? || (WithSidecar(loader, kind) && file !in snap.sidecar) then all.Err?
      else if !WithSidecar(loader, kind) then all == own
      else all == AddAll(snap, own.value, owner, [snap.sidecar[file]], OptionalSidecar, true)
  {
    hide AddAll;
  }

  lemma DiscIs(loader: Loader, d: Discovery, owner: string, file: FileId, kind: Kind)
    requires Within(d)
    ensures var r := DiscMembers(loader, d.declared, owner, file, kind);
      Sum(d, DiscPart(loader, owner, file, kind)) == if r.Ok? then Some(d.(declared := r.value)) else None
  {
    if file in loader.snap.files {
      DiscWithFiles(loader, d, owner, file, kind);
    }
  }

  lemma DiscWithFiles(loader: Loader, d: Discovery, owner: string, file: FileId, kind: Kind)
    requires Within(d) && file in loader.snap.files
    ensures var r := DiscMembers(loader, d.declared, owner, file, kind);
      Sum(d, DiscPart(loader, owner, file, kind)) == if r.Ok? then Some(d.(declared := r.value)) else None
  {
    hide Sum, AddAll, NamesPart, Within, Plus, DiscPart, DiscMembers;
    var snap, own := loader.snap, FilesPart(loader, owner, file, kind);
    DiscPartIs(loader, owner, file, kind);
    DiscMembersAre(loader, d.declared, owner, file, kind);
    AddAllIs(snap, d, owner, snap.files[file], if kind == Ccd then Companion else Track, false);
    SumWithin(d, own);
    SumUnfit(d, own);
    if WithSidecar(loader, kind) && file in snap.sidecar {
      SumPlus(d, own, NamesPart(snap, owner, [snap.sidecar[file]], OptionalSidecar, true));
      if Sum(d, own).Some? {
        AddAllIs(snap, Sum(d, own).value, owner, [snap.sidecar[file]], OptionalSidecar, true);
      }
    }
  }

  lemma SumUnfit(d: Discovery, a: Part)
    ensures Sum(d, Plus(a, UNFIT)).None? && Sum(d, UNFIT).None?
  {
  }

  lemma LinesPartCons(loader: Loader, playlist: string, lines: seq<string>, below: nat, active: set<string>)
    requires lines != []
    ensures LinesPart(loader, playlist, lines, below, active) ==
      Plus(LinePart(loader, playlist, lines[0], below, active), LinesPart(loader, playlist, lines[1..], below, active))
  {
    hide LinePart;
  }

  lemma CollectEntriesCons(loader: Loader, d: Discovery, playlist: string, lines: seq<string>, depth: nat,
                           active: set<string>)
    requires depth <= 9 && lines != []
    ensures var first := CollectEntry(loader, d, playlist, lines[0], depth, active);
      ToOption(CollectEntries(loader, d, playlist, lines, depth, active)) ==
      if first.Refused? then None else ToOption(CollectEntries(loader, first.d, playlist, lines[1..], depth, active))
  {
    hide CollectEntry;
  }

  lemma {:induction false} LinesMet(loader: Loader, d: Discovery, playlist: string, lines: seq<string>,
                                    depth: nat, below: nat, active: set<string>)
    requires depth + below == 9 && Within(d)
    ensures ToOption(CollectEntries(loader, d, playlist, lines, depth, active)) ==
      Sum(d, LinesPart(loader, playlist, lines, below, active))
    decreases below, 2, |lines|
  {
    if lines == [] {
      SumNothing(d);
    } else {
      hide Sum, CollectEntry, LinePart, Within, LinesPart, CollectEntries, Plus;
      LinesPartCons(loader, playlist, lines, below, active);
      CollectEntriesCons(loader, d, playlist, lines, depth, active);
      var first := LinePart(loader, playlist, lines[0], below, active);
      LineMet(loader, d, playlist, lines[0], depth, below, active);
      SumPlus(d, first, LinesPart(loader, playlist, lines[1..], below, active));
      SumWithin(d, first);
      if Sum(d, first).Some? {
        LinesMet(loader, Sum(d, first).value, playlist, lines[1..], depth, below, active);
      }
    }
  }

  lemma {:induction false} LineMet(loader: Loader, d: Discovery, playlist: string, line: string,
                                   depth: nat, below: nat, active: set<string>)
    requires depth + below == 9 && Within(d)
    ensures ToOption(CollectEntry(loader, d, playlist, line, depth, active)) ==
      Sum(d, LinePart(loader, playlist, line, below, active))
    decreases below, 1, 1
  {
    hide Sum, Within, AddDeclaration, EnterDescriptor, EnterPart, OnePart;
    var name := JoinName(playlist, line);
    var own := OnePart(loader.snap, playlist, line, Descriptor, false);
    OneIs(loader.snap, d, playlist, line, Descriptor, false);
    UnportableFails(loader.snap, d, playlist, line, Descriptor, false);
    SumUnfit(d, own);
    if name in loader.approved && name in loader.snap.resolve {
      SumPlus(d, own, EnterPart(loader, name, below, active));
      SumWithin(d, own);
      if Sum(d, own).Some? {
        DescriptorMet(loader, Sum(d, own).value, name, depth, below, active);
      }
    }
  }

  lemma {:induction false} DescriptorMet(loader: Loader, d: Discovery, name: string, depth: nat, below: nat,
                                         active: set<string>)
    requires depth + below == 9 && name in loader.snap.resolve && Within(d)
    ensures ToOption(EnterDescriptor(loader, d.(accessed := d.accessed + {name}), name, depth, active)) ==
      Sum(d, EnterPart(loader, name, below, active))
    decreases below, 1, 0
  {
    hide Sum, Within, EnterPart, EnterDescriptor, LinesPart, DiscPart, DiscMembers, Plus;
    var file, kind := loader.snap.resolve[name], loader.snap.kind(name);
    var entered := d.(accessed := d.accessed + {name});
    var behind := Behind(loader, name, below, active);
    EnterPartIs(loader, name, below, active);
    SumPlus(d, Part(true, [], 0, {name}), behind);
    SumEntered(d, name);
    EnterDescriptorIs(loader, entered, name, depth, active);
    if kind == M3u {
      PlaylistMet(loader, entered, name, depth, below, active);
    } else {
      DiscMet(loader, entered, name, below, active);
    }
  }

  /** What stands behind a name that is entered. */
  function Behind(loader: Loader, name: string, below: nat, active: set<string>): Part
    requires name in loader.snap.resolve
  {
    var file, kind := loader.snap.resolve[name], loader.snap.kind(name);
    if kind != M3u then Plus(DiscPart(loader, name, file, kind), ONE_DISC)
    else if below == 0 || ActiveName(name) in active || !PlaylistFits(loader.snap, file) then UNFIT
    else LinesPart(loader, name, loader.snap.lines[file], below - 1, active + {ActiveName(name)})
  }

  lemma EnterPartIs(loader: Loader, name: string, below: nat, active: set<string>)
    requires name in loader.snap.resolve
    ensures EnterPart(loader, name, below, active) ==
      Plus(Part(true, [], 0, {name}), Behind(loader, name, below, active))
  {
    hide LinesPart, DiscPart, Plus;
  }

  lemma EnterDescriptorIs(loader: Loader, d: Discovery, name: string, depth: nat, active: set<string>)
    requires depth <= 9 && name in loader.snap.resolve
    ensures var file, kind := loader.snap.resolve[name], loader.snap.kind(name);
      ToOption(EnterDescriptor(loader, d, name, depth, active)) ==
      if kind == M3u then FewDiscs(ToOption(Collect(loader, d, name, file, depth + 1, active)))
      else
        var r := DiscMembers(loader, d.declared, name, file, kind);
        if r.Err? then None else FewDiscs(Some(d.(declared := r.value, discs := d.discs + 1)))
  {
    hide Collect, DiscMembers;
  }

  function FewDiscs(d: Option<Discovery>): Option<Discovery> {
    if d.Some? && d.value.discs > 25 then None else d
  }

  lemma {:induction false} PlaylistMet(loader: Loader, d: Discovery, name: string, depth: nat, below: nat,
                                       active: set<string>)
    requires depth + below == 9 && name in loader.snap.resolve && loader.snap.kind(name) == M3u && Within(d)
    ensures FewDiscs(ToOption(Collect(loader, d, name, loader.snap.resolve[name], depth + 1, active))) ==
      Sum(d, Behind(loader, name, below, active))
    decreases below, 0, 0
  {
    hide Sum, Within, LinesPart, Collect, CollectEntries;
    var file := loader.snap.resolve[name];
    SumUnfit(d, NOTHING);
    CollectIs(loader, d, name, file, depth + 1, active);
    if below > 0 && PlaylistFits(loader.snap, file) {
      LinesMet(loader, d, name, loader.snap.lines[file], depth + 1, below - 1, active + {ActiveName(name)});
    }
    SumFewDiscs(d, Behind(loader, name, below, active));
  }

  lemma DiscMet(loader: Loader, d: Discovery, name: string, below: nat, active: set<string>)
    requires name in loader.snap.resolve && loader.snap.kind(name) != M3u && Within(d)
    ensures var file, kind := loader.snap.resolve[name], loader.snap.kind(name);
      var r := DiscMembers(loader, d.declared, name, file, kind);
      Sum(d, Behind(loader, name, below, active)) ==
      if r.Err? then None else FewDiscs(Some(d.(declared := r.value, discs := d.discs + 1)))
  {
    hide Sum, Within, DiscPart, DiscMembers, Plus;
    var file, kind := loader.snap.resolve[name], loader.snap.kind(name);
    var disc := DiscPart(loader, name, file, kind);
    SumPlus(d, disc, ONE_DISC);
    DiscIs(loader, d, name, file, kind);
    SumWithin(d, disc);
    if Sum(d, disc).Some? {
      SumDisc(Sum(d, disc).value);
    }
  }

  lemma SumEntered(d: Discovery, name: string)
    requires Within(d)
    ensures var entered := d.(accessed := d.accessed + {name});
      Sum(d, Part(true, [], 0, {name})) == Some(entered) && Within(entered)
  {
    hide WithinBounds;
    assert Names([]) == {};
    assert d.declared.Keys + {} == d.declared.Keys;
  }

  lemma SumDisc(d: Discovery)
    requires Within(d)
    ensures Sum(d, ONE_DISC) == if d.discs >= 25 then None else Some(d.(discs := d.discs + 1))
  {
    hide WithinBounds;
    assert Names([]) == {};
    assert d.declared.Keys + {} == d.declared.Keys && d.accessed + {} == d.accessed;
  }

  lemma SumFewDiscs(d: Discovery, p: Part)
    ensures FewDiscs(Sum(d, p)) == Sum(d, p)
  {
    hide WithinBounds, MergeAll;
  }

  /** One playlist is entered unless it is too deep, open already or not in order. */
  lemma CollectIs(loader: Loader, d: Discovery, playlist: string, file: FileId, depth: nat, active: set<string>)
    requires depth <= 10
    ensures ToOption(Collect(loader, d, playlist, file, depth, active)) ==
      if depth > 9 || ActiveName(playlist) in active || !PlaylistFits(loader.snap, file) then None
      else
        var inside := active + {ActiveName(playlist)};
        ToOption(CollectEntries(loader, d, playlist, loader.snap.lines[file], depth, inside))
  {
    hide CollectEntries;
  }

  /** All that a review of an entry meets under a set of approved names. */
  function EntryPart(loader: Loader, entry: Entry): Part {
    match entry.kind
    case OtherKind => UNFIT
    case M3u =>
      if !PlaylistFits(loader.snap, entry.file) then UNFIT
      else LinesPart(loader, "", loader.snap.lines[entry.file], 9, {"<entry>"})
    case kind => DiscPart(loader, "", entry.file, kind)
  }

  /**
    A walk goes through exactly if all it meets is in order, the names stay within 255 and 48
    KiB and the discs within 25. It then has declared every name that occurs, each as what its
    occurrences come to.
  */
  lemma DiscoverIs(loader: Loader, entry: Entry)
    ensures var p, walk := EntryPart(loader, entry), Discover(loader, entry);
      && (walk.Going? <==>
            p.fits && |Names(p.all)| <= 255 && NameBytes(Ascending(Names(p.all))) <= 48 * 1024 && p.discs <= 25)
      && (walk.Going? ==>
            && walk.d == Discovery(MergeAll(map[], p.all), p.discs, p.entered)
            && walk.d.declared.Keys == Names(p.all)
            && forall n :: n in Names(p.all) ==> Sums(walk.d.declared[n], p.all, n))
  {
    hide Discover, EntryPart, MergeAll, Sums, Names, NameBytes, Ascending;
    var p := EntryPart(loader, entry);
    DiscoverIsSum(loader, entry);
    DeclaredIs(p.all);
    assert NOTHING_YET.declared.Keys + Names(p.all) == Names(p.all) && {} + p.entered == p.entered;
  }

  lemma DiscoverIsSum(loader: Loader, entry: Entry)
    ensures ToOption(Discover(loader, entry)) == Sum(NOTHING_YET, EntryPart(loader, entry))
  {
    hide Sum, DiscPart, LinesPart, DiscMembers, Collect;
    NothingWithin();
    SumUnfit(NOTHING_YET, NOTHING);
    match entry.kind
    case OtherKind =>
    case M3u =>
      CollectIs(loader, NOTHING_YET, "", entry.file, 0, {});
      assert {} + {"<entry>"} == {"<entry>"};
      if PlaylistFits(loader.snap, entry.file) {
        LinesMet(loader, NOTHING_YET, "", loader.snap.lines[entry.file], 0, 9, {"<entry>"});
      }
    case kind => DiscIs(loader, NOTHING_YET, "", entry.file, kind);
  }

  lemma NothingWithin()
    ensures Within(NOTHING_YET)
  {
    assert NOTHING_YET.declared.Keys == {};
  }
}
