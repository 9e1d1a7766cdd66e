/**
  Public breakpoint ids over a native slot array that shifts when a slot is removed.

  The native side keeps its points in an array: adding appends (or is refused), removing a slot
  moves the later ones down, and a lookup answers with the first enabled point of the wanted
  kind that overlaps a range.
*/
module Breakpoints {

  import opened Base

  datatype Kind = Exec | Read | Write

  datatype Spec = Spec(kind: Kind, first: nat, last: nat)

  datatype PublicBreakpoint = PublicBreakpoint(spec: Spec, slot: nat, armed: bool)

  datatype Fault = TooMany | BadRange | Overlap | Refused | UnknownId | IdsExhausted

  datatype Result = Done(id: nat) | Failed(fault: Fault)

  const MAX_BREAKPOINTS := 128
  const RDRAM_SIZE := 8 * 1024 * 1024
  const U32_MAX := 0xFFFF_FFFF
  const U64_MAX := 0xFFFF_FFFF_FFFF_FFFF

  /** Exec points are one address; data points are ranges of RDRAM. */
  predicate Admissible(s: Spec) {
    && s.first <= s.last
    && match s.kind
       case Exec => s.first == s.last && s.last <= U32_MAX
       case _ => s.last < RDRAM_SIZE
  }

  lemma AdmissibleIs(s: Spec)
    ensures Admissible(s) <==>
      s.first <= s.last <= if s.kind == Exec then (if s.first == s.last then 0xFFFF_FFFF else -1) else 0x7F_FFFF
  {
  }

  predicate Overlaps(a: Spec, b: Spec) {
    a.kind == b.kind && a.first <= b.last && b.first <= a.last
  }

  function SlotAfterClear(slot: nat, removed: nat): Option<nat> {
    if slot == removed then None else if slot > removed then Some(slot - 1) else Some(slot)
  }

  // ---------------------------------------------------------------- the native array

  function Without(native: seq<Spec>, slot: nat): seq<Spec>
    requires slot < |native|
  {
    native[..slot] + native[slot + 1..]
  }

  /** The first native slot from `from` on whose point has this kind and meets the range. */
  function Lookup(native: seq<Spec>, wanted: Spec, from: nat): Option<nat>
    requires from <= |native|
    decreases |native| - from
  {
    if from == |native| then None
    else if Overlaps(native[from], wanted) then Some(from)
    else Lookup(native, wanted, from + 1)
  }

  // ------------------------------------------------------------------------ coherence

  type Table = map<nat, PublicBreakpoint>

  ghost predicate Owned(table: Table, slot: nat) {
    exists id :: id in table && table[id].slot == slot
  }

  /** Every public record owns one native slot that holds its range, and every slot is owned. */
  ghost predicate Placed(table: Table, native: seq<Spec>) {
    && (forall id :: id in table ==> table[id].slot < |native| && native[table[id].slot] == table[id].spec)
    && (forall a, b :: a in table && b in table && a != b ==> table[a].slot != table[b].slot)
    && (forall s :: 0 <= s < |native| ==> Owned(table, s))
    && |table| == |native|
  }

  /** Points of one kind never overlap. */
  ghost predicate Disjoint(table: Table) {
    && (forall a, b :: a in table && b in table && a != b ==> !Overlaps(table[a].spec, table[b].spec))
    && (forall id :: id in table ==> Admissible(table[id].spec))
  }

  ghost predicate Coherent(table: Table, native: seq<Spec>) {
    Placed(table, native) && Disjoint(table)
  }

  lemma {:induction false} LookupSkips(native: seq<Spec>, wanted: Spec, from: nat, slot: nat)
    requires from <= slot < |native| && Overlaps(native[slot], wanted)
    requires forall s :: from <= s < slot ==> !Overlaps(native[s], wanted)
    ensures Lookup(native, wanted, from) == Some(slot)
    decreases slot - from
  {
    if from < slot {
      LookupSkips(native, wanted, from + 1, slot);
    }
  }

  /** Looking a public record's own range up always answers with its own slot. */
  lemma LookupFindsOwner(table: Table, native: seq<Spec>, id: nat)
    requires Coherent(table, native) && id in table
    ensures Lookup(native, table[id].spec, 0) == Some(table[id].slot)
  {
    var slot := table[id].slot;
    forall s | 0 <= s < slot ensures !Overlaps(native[s], table[id].spec) {
      assert Owned(table, s);
      var other :| other in table && table[other].slot == s;
    }
    LookupSkips(native, table[id].spec, 0, slot);
  }

  function Added(table: Table, id: nat, spec: Spec, slot: nat): Table {
    table[id := PublicBreakpoint(spec, slot, true)]
  }

  /** What a clear leaves: the record is gone, later slots have moved down with the array. */
  function Removed(table: Table, id: nat): Table
    requires id in table
  {
    map other | other in table && other != id ::
      table[other].(slot := if table[other].slot > table[id].slot then table[other].slot - 1 else table[other].slot)
  }

  lemma AddCoherent(table: Table, native: seq<Spec>, id: nat, spec: Spec)
    requires Coherent(table, native) && id !in table && Admissible(spec)
    requires forall other :: other in table ==> !Overlaps(table[other].spec, spec)
    ensures Coherent(Added(table, id, spec, |native|), native + [spec])
  {
    AddPlaced(table, native, id, spec);
    AddDisjoint(table, id, spec, |native|);
  }

  lemma AddDisjoint(table: Table, id: nat, spec: Spec, slot: nat)
    requires Disjoint(table) && id !in table && Admissible(spec)
    requires forall other :: other in table ==> !Overlaps(table[other].spec, spec)
    ensures Disjoint(Added(table, id, spec, slot))
  {
  }

  lemma AddPlaced(table: Table, native: seq<Spec>, id: nat, spec: Spec)
    requires Placed(table, native) && id !in table
    ensures Placed(Added(table, id, spec, |native|), native + [spec])
  {
    var next, longer := Added(table, id, spec, |native|), native + [spec];
    assert next.Keys == table.Keys + {id};
    forall other | other in next
      ensures next[other].slot < |longer| && longer[next[other].slot] == next[other].spec
    {
      assert other != id ==> longer[table[other].slot] == native[table[other].slot];
    }
    forall s | 0 <= s < |longer| ensures Owned(next, s) {
      AddedOwner(table, native, id, spec, s);
    }
  }

  lemma AddedOwner(table: Table, native: seq<Spec>, id: nat, spec: Spec, s: nat)
    requires Placed(table, native) && id !in table && s <= |native|
    ensures Owned(Added(table, id, spec, |native|), s)
  {
    var next := Added(table, id, spec, |native|);
    if s < |native| {
      assert Owned(table, s);
      var owner :| owner in table && table[owner].slot == s;
      assert next[owner].slot == s;
    } else {
      assert next[id].slot == s;
    }
  }

  lemma RemoveCoherent(table: Table, native: seq<Spec>, id: nat)
    requires Coherent(table, native) && id in table
    ensures Coherent(Removed(table, id), Without(native, table[id].slot))
  {
    RemovePlaced(table, native, id);
  }

  lemma RemovePlaced(table: Table, native: seq<Spec>, id: nat)
    requires Placed(table, native) && id in table
    ensures Placed(Removed(table, id), Without(native, table[id].slot))
  {
    var next, shifted := Removed(table, id), Without(native, table[id].slot);
    assert next.Keys == table.Keys - {id};
    forall other | other in next
      ensures next[other].slot < |shifted| && shifted[next[other].slot] == next[other].spec
    {
      RemovedSlot(table, native, id, other);
    }
    forall s | 0 <= s < |shifted| ensures Owned(next, s) {
      RemovedOwner(table, native, id, s);
    }
  }

  ghost predicate Sane(table: Table, native: seq<Spec>, nextId: nat) {
    Coherent(table, native) && nextId <= U64_MAX && forall id :: id in table ==> id < nextId
  }

  lemma RemoveSane(table: Table, native: seq<Spec>, id: nat, nextId: nat)
    requires Sane(table, native, nextId) && id in table
    ensures Sane(Removed(table, id), Without(native, table[id].slot), nextId)
  {
    RemoveCoherent(table, native, id);
  }

  lemma RemovedKeys(table: Table, id: nat)
    requires id in table
    ensures Removed(table, id).Keys == table.Keys - {id}
  {
  }

  lemma EmptyTable(table: Table, native: seq<Spec>)
    requires Placed(table, native) && table.Keys == {}
    ensures table == map[] && native == []
  {
    assert |table| == |table.Keys|;
  }

  lemma RemovedSlot(table: Table, native: seq<Spec>, id: nat, other: nat)
    requires Placed(table, native) && id in table && other in table && other != id
    ensures var slot := Removed(table, id)[other].slot;
      slot < |native| - 1 && Without(native, table[id].slot)[slot] == table[other].spec
  {
  }

  lemma RemovedOwner(table: Table, native: seq<Spec>, id: nat, s: nat)
    requires Placed(table, native) && id in table && s < |native| - 1
    ensures Owned(Removed(table, id), s)
  {
    var was := if s < table[id].slot then s else s + 1;
    assert Owned(table, was);
    var owner :| owner in table && table[owner].slot == was;
    assert Removed(table, id)[owner].slot == s;
  }

  // --------------------------------------------------------------------- trigger match

  predicate TriggerMatches(s: Spec, flags: set<Kind>, accessed: nat, pc: nat) {
    s.kind in flags && s.first <= (if s.kind == Exec then pc else accessed) <= s.last
  }

  function Matches(table: Table, flags: set<Kind>, accessed: nat, pc: nat): set<nat> {
    set id | id in table && TriggerMatches(table[id].spec, flags, accessed, pc)
  }

  /** The kinds among `flags` that some armed point covers at the triggering addresses. */
  function CoveredKinds(table: Table, flags: set<Kind>, accessed: nat, pc: nat): set<Kind> {
    set id | id in table && TriggerMatches(table[id].spec, flags, accessed, pc) :: table[id].spec.kind
  }

  lemma {:induction false} SameSize<T>(ids: set<nat>, of: nat -> T, image: set<T>)
    requires image == set id | id in ids :: of(id)
    requires forall a, b :: a in ids && b in ids && a != b ==> of(a) != of(b)
    ensures |ids| == |image|
    decreases |ids|
  {
    if ids == {} {
      assert image == {};
    } else {
      var id :| id in ids;
      var rest := ids - {id};
      assert image - {of(id)} == set other | other in rest :: of(other);
      SameSize(rest, of, image - {of(id)});
      assert of(id) in image;
    }
  }

  /**
    A trigger names as many public records as it has covered kinds; one access kind therefore
    never names two, and names exactly one when an armed point covers it.
  */
  lemma MatchesPerKind(table: Table, native: seq<Spec>, flags: set<Kind>, accessed: nat, pc: nat)
    requires Coherent(table, native)
    ensures |Matches(table, flags, accessed, pc)| == |CoveredKinds(table, flags, accessed, pc)|
    ensures |Matches(table, flags, accessed, pc)| == 1 <==> |CoveredKinds(table, flags, accessed, pc)| == 1
    ensures CoveredKinds(table, flags, accessed, pc) <= flags
  {
    var ids := Matches(table, flags, accessed, pc);
    var of := (id: nat) => if id in table then table[id].spec.kind else Exec;
    forall id | id in ids ensures of(id) in CoveredKinds(table, flags, accessed, pc) {
      assert of(id) == table[id].spec.kind;
    }
    forall kind | kind in CoveredKinds(table, flags, accessed, pc) ensures exists id :: id in ids && of(id) == kind {
      var id :| id in table && TriggerMatches(table[id].spec, flags, accessed, pc) && table[id].spec.kind == kind;
      assert id in ids && of(id) == kind;
    }
    assert CoveredKinds(table, flags, accessed, pc) == set id | id in ids :: of(id);
    SameSize(ids, of, CoveredKinds(table, flags, accessed, pc));
  }

  /** The single match of a single-kind trigger owns the native slot that caught the access. */
  lemma SingleKindHasOneOwner(table: Table, native: seq<Spec>, kind: Kind, accessed: nat, pc: nat, id: nat)
    requires Coherent(table, native)
    requires id in table && TriggerMatches(table[id].spec, {kind}, accessed, pc)
    ensures Matches(table, {kind}, accessed, pc) == {id}
    ensures var at := if kind == Exec then pc else accessed;
      Lookup(native, Spec(kind, at, at), 0) == Some(table[id].slot)
  {
    var at := if kind == Exec then pc else accessed;
    var slot := table[id].slot;
    forall s | 0 <= s < slot ensures !Overlaps(native[s], Spec(kind, at, at)) {
      assert Owned(table, s);
      var other :| other in table && table[other].slot == s;
    }
    LookupSkips(native, Spec(kind, at, at), 0, slot);
    assert forall other :: other in Matches(table, {kind}, accessed, pc) ==>
      Overlaps(table[other].spec, table[id].spec);
  }

  /** Points overlap if they are of one kind and share an address. */
  lemma OverlapIffShared(a: Spec, b: Spec)
    requires a.first <= a.last && b.first <= b.last
    ensures Overlaps(a, b) <==> a.kind == b.kind && exists x :: InRange(a, x) && InRange(b, x)
  {
    if Overlaps(a, b) {
      var x := if a.first <= b.first then b.first else a.first;
      assert InRange(a, x) && InRange(b, x);
    }
  }

  predicate InRange(s: Spec, x: nat) {
    s.first <= x <= s.last
  }

  lemma {:induction false} LookupFinds(native: seq<Spec>, wanted: Spec, from: nat)
    requires from <= |native|
    ensures var found := Lookup(native, wanted, from);
      && (found.Some? ==> from <= found.value < |native| && Overlaps(native[found.value], wanted))
      && forall s :: from <= s < (if found.Some? then found.value else |native|) ==> !Overlaps(native[s], wanted)
    decreases |native| - from
  {
    if from < |native| && !Overlaps(native[from], wanted) {
      LookupFinds(native, wanted, from + 1);
    }
  }

  /**
    A trigger matches exactly the public records whose native slots catch it: for every kind
    among the flags, the one that the native lookup of the triggering address answers.
  */
  lemma MatchIffCaught(table: Table, native: seq<Spec>, flags: set<Kind>, accessed: nat, pc: nat, id: nat)
    requires Coherent(table, native) && id in table
    ensures var kind := table[id].spec.kind;
      var at := if kind == Exec then pc else accessed;
      id in Matches(table, flags, accessed, pc) <==>
      kind in flags && Lookup(native, Spec(kind, at, at), 0) == Some(table[id].slot)
  {
    var kind := table[id].spec.kind;
    var at := if kind == Exec then pc else accessed;
    LookupFinds(native, Spec(kind, at, at), 0);
    if TriggerMatches(table[id].spec, {kind}, accessed, pc) {
      SingleKindHasOneOwner(table, native, kind, accessed, pc, id);
    }
  }

  // ------------------------------------------------------------------- the operations

  lemma MoveOne(all: set<nat>, ids: set<nat>, id: nat)
    requires ids <= all && id in ids
    ensures (all - ids) + {id} == all - (ids - {id})
  {
  }

  class BreakpointTable {
    var breakpoints: Table
    var nextId: nat
    var native: seq<Spec>
    /** How often the native side refused to arm a point. */
    ghost var refusals: nat

    constructor ()
      ensures Valid() && breakpoints == map[] && native == [] && nextId == 1
    {
      breakpoints, nextId, native := map[], 1, [];
    }

    /** The table is coherent and every id in it was handed out before. */
    ghost predicate Valid()
      reads this
    {
      Sane(breakpoints, native, nextId)
    }

    /** Looks every record up by its own range; a coherent table never fails this. */
    method VerifyNative() returns (ok: bool)
      ensures ok <==>
        && |native| == |breakpoints|
        && forall id :: id in breakpoints ==> Lookup(native, breakpoints[id].spec, 0) == Some(breakpoints[id].slot)
      ensures Coherent(breakpoints, native) ==> ok
    {
      if Coherent(breakpoints, native) {
        forall id | id in breakpoints ensures Lookup(native, breakpoints[id].spec, 0) == Some(breakpoints[id].slot) {
          LookupFindsOwner(breakpoints, native, id);
        }
      }
      if |native| != |breakpoints| {
        return false;
      }
      var todo := breakpoints.Keys;
      while todo != {}
        invariant todo <= breakpoints.Keys
        invariant forall id :: id in breakpoints && id !in todo ==>
          Lookup(native, breakpoints[id].spec, 0) == Some(breakpoints[id].slot)
        decreases |todo|
      {
        var id :| id in todo;
        if Lookup(native, breakpoints[id].spec, 0) != Some(breakpoints[id].slot) {
          return false;
        }
        todo := todo - {id};
      }
      return true;
    }

    /** The native side appends a point, or refuses it. */
    method ArmNative(spec: Spec) returns (accepted: bool)
      modifies this`native, this`refusals
      ensures native == if accepted then old(native) + [spec] else old(native)
      ensures refusals == old(refusals) + if accepted then 0 else 1
    {
      accepted := *;
      if accepted {
        native := native + [spec];
      } else {
        refusals := refusals + 1;
      }
    }

    /**
      Arms a point. Every refusal leaves table and array as they were, except the one after
      the last id: the point is then armed natively and nobody owns it.
    */
    method Set(spec: Spec) returns (r: Result)
      requires Valid()
      modifies this
      ensures r.Done? ==>
        && Valid() && r.id == old(nextId) && nextId == old(nextId) + 1
        && native == old(native) + [spec]
        && breakpoints == Added(old(breakpoints), r.id, spec, |old(native)|)
      ensures r.Done? ==> breakpoints[r.id] == PublicBreakpoint(spec, |old(native)|, true)
      ensures r.Failed? ==> breakpoints == old(breakpoints) && nextId == old(nextId)
      ensures r.Failed? ==> native == if r.fault == IdsExhausted then old(native) + [spec] else old(native)
      ensures Valid() <==> r != Failed(IdsExhausted)
      ensures r == Failed(IdsExhausted) ==> old(nextId) == U64_MAX
      ensures r == Failed(TooMany) <==> |old(breakpoints)| >= 128
      ensures r == Failed(BadRange) <==> |old(breakpoints)| < 128 && !Admissible(spec)
      ensures r == Failed(Overlap) <==>
        && |old(breakpoints)| < 128 && Admissible(spec)
        && exists id :: id in old(breakpoints) && Overlaps(old(breakpoints)[id].spec, spec)
      ensures r == Failed(Refused) <==> refusals > old(refusals)
      ensures r != Failed(UnknownId)
    {
      hide Overlaps, Lookup;
      if |breakpoints| >= MAX_BREAKPOINTS {
        return Failed(TooMany);
      }
      if !Admissible(spec) {
        return Failed(BadRange);
      }
      if exists id :: id in breakpoints && Overlaps(breakpoints[id].spec, spec) {
        return Failed(Overlap);
      }
      var before := |native|;
      var accepted := ArmNative(spec);
      if !accepted {
        return Failed(Refused);
      }
      var slot := |native| - 1;
      assert slot == before;
      var id := nextId;
      if nextId == U64_MAX {
        assert |breakpoints| != |native|;
        return Failed(IdsExhausted);
      }
      AddCoherent(breakpoints, old(native), id, spec);
      nextId := nextId + 1;
      breakpoints := Added(breakpoints, id, spec, slot);
      var ok := VerifyNative();
      assert ok;
      return Done(id);
    }

    /** Clears a point; the records behind it follow their slots down. */
    method Clear(id: nat) returns (r: Result)
      requires Valid()
      modifies this`breakpoints, this`native
      ensures Valid()
      ensures id in old(breakpoints) ==>
        && r == Done(id) && breakpoints == Removed(old(breakpoints), id)
        && (forall other :: other in breakpoints ==>
              breakpoints[other].(slot := 0) == old(breakpoints)[other].(slot := 0))
        && native == Without(old(native), old(breakpoints)[id].slot)
      ensures id !in old(breakpoints) ==>
        r == Failed(UnknownId) && breakpoints == old(breakpoints) && native == old(native)
    {
      if id !in breakpoints {
        return Failed(UnknownId);
      }
      var removed := breakpoints[id].slot;
      native := Without(native, removed);
      RemoveSane(breakpoints, old(native), id, nextId);
      ShiftRecords(id);
      assert Sane(breakpoints, native, nextId);
      var ok := VerifyNative();
      assert ok;
      return Done(id);
    }

    /** Drops one record and moves the ones behind it. */
    method ShiftRecords(id: nat)
      requires id in breakpoints
      requires forall other :: other in breakpoints && other != id ==> breakpoints[other].slot != breakpoints[id].slot
      modifies this`breakpoints
      ensures breakpoints == Removed(old(breakpoints), id)
    {
      ghost var table := breakpoints;
      var removed := breakpoints[id].slot;
      breakpoints := breakpoints - {id};
      var todo := breakpoints.Keys;
      while todo != {}
        invariant breakpoints.Keys == table.Keys - {id} && todo <= breakpoints.Keys
        invariant forall other :: other in breakpoints ==>
          breakpoints[other] == if other in todo then table[other] else Removed(table, id)[other]
        decreases |todo|
      {
        var other :| other in todo;
        var slot := SlotAfterClear(breakpoints[other].slot, removed);
        breakpoints := breakpoints[other := breakpoints[other].(slot := slot.value)];
        todo := todo - {other};
      }
      assert breakpoints == Removed(table, id);
    }

    method ClearKnown(id: nat)
      requires Valid() && id in breakpoints
      modifies this`breakpoints, this`native
      ensures Valid() && breakpoints.Keys == old(breakpoints).Keys - {id}
    {
      RemovedKeys(breakpoints, id);
      var _ := Clear(id);
    }

    method ClearAll() returns (cleared: set<nat>)
      requires Valid()
      modifies this`breakpoints, this`native
      ensures Valid() && breakpoints == map[] && native == [] && cleared == old(breakpoints).Keys
    {
      cleared := {};
      var ids := breakpoints.Keys;
      ghost var all := ids;
      while ids != {}
        invariant Valid() && breakpoints.Keys == ids <= all
        invariant cleared == all - ids
        decreases |ids|
      {
        var id :| id in ids;
        ClearKnown(id);
        MoveOne(all, ids, id);
        ids := ids - {id};
        cleared := cleared + {id};
      }
      NothingLeft();
    }

    lemma NothingLeft()
      requires Valid() && breakpoints.Keys == {}
      ensures breakpoints == map[] && native == []
    {
      EmptyTable(breakpoints, native);
    }

    /** Any sequence of sets, clears and full clears, as long as ids remain, keeps the table coherent. */
    method RunOperations(operations: seq<Operation>) returns (results: seq<Result>)
      requires Valid() && nextId + |operations| <= U64_MAX
      modifies this
      ensures Valid() && |results| == |operations| && nextId >= old(nextId)
      ensures Failed(IdsExhausted) !in results
      ensures forall i, j :: 0 <= i < j < |results| ==>
        IsSet(operations, results, i) && IsSet(operations, results, j) ==> results[i].id < results[j].id
    {
      results := [];
      while |results| < |operations|
        invariant Valid() && |results| <= |operations| && old(nextId) <= nextId <= old(nextId) + |results|
        invariant Failed(IdsExhausted) !in results
        invariant forall i :: 0 <= i < |results| && IsSet(operations, results, i) ==> results[i].id < nextId
        invariant forall i, j :: 0 <= i < j < |results| ==>
          IsSet(operations, results, i) && IsSet(operations, results, j) ==> results[i].id < results[j].id
      {
        var r := RunOne(operations[|results|]);
        assert forall i :: 0 <= i < |results| ==>
          IsSet(operations, results + [r], i) == IsSet(operations, results, i);
        results := results + [r];
      }
    }

    method RunOne(operation: Operation) returns (r: Result)
      requires Valid() && nextId < U64_MAX
      modifies this
      ensures Valid() && old(nextId) <= nextId <= old(nextId) + 1 && r != Failed(IdsExhausted)
      ensures operation.SetPoint? && r.Done? ==> r.id == old(nextId) < nextId
    {
      match operation
      case SetPoint(spec) =>
        r := Set(spec);
      case ClearPoint(id) =>
        r := Clear(id);
      case ClearEverything =>
        var cleared := ClearAll();
        r := Done(|cleared|);
    }
  }

  predicate IsSet(operations: seq<Operation>, results: seq<Result>, i: nat)
    requires i < |results| <= |operations|
  {
    operations[i].SetPoint? && results[i].Done?
  }

  datatype Operation = SetPoint(spec: Spec) | ClearPoint(id: nat) | ClearEverything
}
