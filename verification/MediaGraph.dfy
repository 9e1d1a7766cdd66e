/** Validating the members of a media graph and feeding them to its digest. */
module MediaGraph {

  import opened Base
  import opened GraphHash

  const MAX_DESCRIPTOR_BYTES: nat := 1024 * 1024
  const MAX_GRAPH_MEMBERS: nat := 256
  const MAX_MEMBER_BYTES: nat := 2 * 1024 * 1024 * 1024
  const MAX_GRAPH_BYTES: nat := 8 * 1024 * 1024 * 1024
  const MAX_DECLARED_NAME_BYTES: nat := 48 * 1024
  const BUFFER_BYTES: nat := 64 * 1024

  /**
    A file as its metadata describes it, the bytes a later read of it comes upon, and whether
    its length or modification time are others once it has been read.
  */
  datatype File = File(path: string, size: nat, bytes: seq<Byte>, touched: bool)

  /** The members that can be opened under their portable names. */
  type Disk = map<Name, File>

  /** The file opened under a name; one that cannot be opened is never admitted below. */
  function At(disk: Disk, name: Name): File {
    if name in disk then disk[name] else File("", 0, [], false)
  }

  /** The first name of each file that is not among `seen`. */
  function Kept(refs: seq<Name>, disk: Disk, seen: set<string>): seq<Name> {
    if refs == [] then []
    else
      var path := At(disk, refs[0]).path;
      if path in seen then Kept(refs[1..], disk, seen)
      else [refs[0]] + Kept(refs[1..], disk, seen + {path})
  }

  function Total(names: seq<Name>, disk: Disk): nat {
    if names == [] then 0 else At(disk, names[0]).size + Total(names[1..], disk)
  }

  function Items(names: seq<Name>, disk: Disk): seq<Item> {
    if names == [] then [] else [Item(names[0], At(disk, names[0]).bytes)] + Items(names[1..], disk)
  }

  function NameBytes(refs: seq<Name>): nat {
    if refs == [] then 0 else |refs[0]| + NameBytes(refs[1..])
  }

  // ------------------------------------------------- which file a reference list stands for

  function Paths(names: seq<Name>, disk: Disk): set<string> {
    set i | 0 <= i < |names| :: At(disk, names[i]).path
  }

  /** The kept names stand for exactly the files referred to that were not seen yet, each once. */
  lemma {:induction false} KeptOncePerFile(refs: seq<Name>, disk: Disk, seen: set<string>)
    ensures Paths(Kept(refs, disk, seen), disk) == Paths(refs, disk) - seen
    ensures |Paths(Kept(refs, disk, seen), disk)| == |Kept(refs, disk, seen)|
  {
    if refs != [] {
      var path, rest := At(disk, refs[0]).path, refs[1..];
      PathsCons(refs[0], rest, disk);
      assert refs == [refs[0]] + rest;
      if path in seen {
        KeptOncePerFile(rest, disk, seen);
        assert {path} + Paths(rest, disk) - seen == Paths(rest, disk) - seen;
      } else {
        KeptOncePerFile(rest, disk, seen + {path});
        var kept := Kept(rest, disk, seen + {path});
        PathsCons(refs[0], kept, disk);
        OneMore(path, Paths(rest, disk), seen, Paths(kept, disk));
      }
    }
  }

  lemma OneMore(path: string, rest: set<string>, seen: set<string>, kept: set<string>)
    requires path !in seen && kept == rest - (seen + {path})
    ensures {path} + kept == {path} + rest - seen && |{path} + kept| == 1 + |kept|
  {
  }

  lemma PathsCons(name: Name, rest: seq<Name>, disk: Disk)
    ensures Paths([name] + rest, disk) == {At(disk, name).path} + Paths(rest, disk)
  {
    var all := [name] + rest;
    forall p | p in Paths(all, disk) ensures p in {At(disk, name).path} + Paths(rest, disk) {
      var i :| 0 <= i < |all| && At(disk, all[i]).path == p;
      assert i > 0 ==> rest[i - 1] == all[i];
    }
    forall p | p in Paths(rest, disk) ensures p in Paths(all, disk) {
      var i :| 0 <= i < |rest| && At(disk, rest[i]).path == p;
      assert all[i + 1] == rest[i];
    }
    assert At(disk, all[0]).path in Paths(all, disk);
  }

  /** The names of the files that no name before them stands for. */
  function Firsts(refs: seq<Name>, disk: Disk): seq<Name> {
    if refs == [] then []
    else
      var front, last := refs[..|refs| - 1], refs[|refs| - 1];
      Firsts(front, disk) + if At(disk, last).path in Paths(front, disk) then [] else [last]
  }

  /** The first name of each file is kept, in the order of the references. */
  lemma KeptAreFirsts(refs: seq<Name>, disk: Disk)
    ensures Kept(refs, disk, {}) == Firsts(refs, disk)
  {
    FirstsAfter([], refs, disk);
    assert Paths([], disk) == {} && [] + refs == refs && [] + Kept(refs, disk, {}) == Kept(refs, disk, {});
  }

  lemma FirstsSnoc(done: seq<Name>, name: Name, disk: Disk)
    ensures var path := At(disk, name).path;
      && Paths(done + [name], disk) == Paths(done, disk) + {path}
      && Firsts(done + [name], disk) ==
         Firsts(done, disk) + (if path in Paths(done, disk) then [] else [name])
      && (path in Paths(done, disk) ==>
            Paths(done + [name], disk) == Paths(done, disk) && Firsts(done + [name], disk) == Firsts(done, disk))
  {
    var more := done + [name];
    assert more[..|more| - 1] == done && more[..|done|] == done && more[..|done| + 1] == more;
    PathsSnoc(more, |done|, disk);
    assert Firsts(done, disk) + [] == Firsts(done, disk);
  }

  lemma {:induction false} FirstsAfter(done: seq<Name>, rest: seq<Name>, disk: Disk)
    ensures Firsts(done + rest, disk) == Firsts(done, disk) + Kept(rest, disk, Paths(done, disk))
    decreases |rest|
  {
    if rest == [] {
      assert done + rest == done;
    } else {
      var more := done + [rest[0]];
      assert more + rest[1..] == done + rest;
      FirstsAfter(more, rest[1..], disk);
      FirstsSnoc(done, rest[0], disk);
      Associate(Firsts(done, disk), [rest[0]], Kept(rest[1..], disk, Paths(more, disk)));
    }
  }

  // ----------------------------------------------------------------------- what is admitted

  predicate FitsMember(size: nat) {
    1 <= size <= MAX_MEMBER_BYTES
  }

  /** A member on disk under its limits that is not the entry itself. */
  predicate FitsAlone(name: Name, disk: Disk, entryPath: string) {
    name in disk && FitsMember(disk[name].size) && disk[name].path != entryPath
  }

  ghost predicate Admissible(refs: seq<Name>, disk: Disk, entryPath: string, entrySize: nat) {
    && 1 <= |refs| <= 255 && NameBytes(refs) <= 49_152
    && (forall i :: 0 <= i < |refs| ==> FitsAlone(refs[i], disk, entryPath))
    && entrySize + Total(Kept(refs, disk, {}), disk) <= 8_589_934_592
  }

  function AdmitHashedMember(total: nat, size: nat): (r: Option<nat>)
    ensures r.Some? <==> 1 <= size <= 2_147_483_648 && total + size <= 8_589_934_592
    ensures r.Some? ==> r.value == total + size < U64_LIMIT
  {
    var next := if total + size < U64_LIMIT && total + size <= MAX_GRAPH_BYTES then Some(total + size) else None;
    if size == 0 || size > MAX_MEMBER_BYTES || next.None? then None else next
  }

  /** Why a check fails that has `names` name bytes, `total` bytes and the files `seen` behind it. */
  ghost predicate Rejected(refs: seq<Name>, disk: Disk, entryPath: string, seen: set<string>, names: nat, total: nat)
  {
    || names + NameBytes(refs) > MAX_DECLARED_NAME_BYTES
    || (exists i :: 0 <= i < |refs| && !FitsAlone(refs[i], disk, entryPath))
    || total + Total(Kept(refs, disk, seen), disk) > MAX_GRAPH_BYTES
  }

  method ValidateReferences(refs: seq<Name>, disk: Disk, entryPath: string, entrySize: nat) returns (ok: bool)
    ensures ok <==> Admissible(refs, disk, entryPath, entrySize)
  {
    if refs == [] || |refs| > MAX_GRAPH_MEMBERS - 1 {
      return false;
    }
    var names: nat, total: nat, seen: set<string> := 0, entrySize, {};
    assert refs[0..] == refs;
    for i := 0 to |refs|
      invariant forall k :: 0 <= k < i ==> FitsAlone(refs[k], disk, entryPath)
      invariant (i > 0 ==> seen != {}) && (seen != {} ==> total <= MAX_GRAPH_BYTES)
      invariant names <= MAX_DECLARED_NAME_BYTES
      invariant Rejected(refs, disk, entryPath, {}, 0, entrySize) <==>
                Rejected(refs[i..], disk, entryPath, seen, names, total)
    {
      var name := refs[i];
      assert refs[i..][0] == name && refs[i..][1..] == refs[i + 1..];
      names := names + |name|;
      if names > MAX_DECLARED_NAME_BYTES || !FitsAlone(name, disk, entryPath) {
        return false;
      }
      if disk[name].path !in seen {
        seen := seen + {disk[name].path};
        total := total + disk[name].size;
        if total > MAX_GRAPH_BYTES {
          return false;
        }
      }
    }
    ok := true;
  }

  // ------------------------------------------------------------------------------- hashing

  /** A digest, known by the bytes it was fed. */
  class Digest {
    var fed: seq<Byte>

    constructor ()
      ensures fed == []
    {
      fed := [];
    }

    method Update(bytes: seq<Byte>)
      modifies this
      ensures fed == old(fed) + bytes
    {
      fed := fed + bytes;
    }
  }

  datatype FileIdentity = FileIdentity(name: Name, path: string, size: nat, hashed: seq<Byte>)

  datatype Identity = Identity(hashed: seq<Byte>, size: nat, files: seq<FileIdentity>)

  method FeedPrefixed(digest: Digest, bytes: seq<Byte>)
    modifies digest
    ensures digest.fed == old(digest.fed) + Prefixed(bytes)
  {
    digest.Update(LittleEndian(|bytes|, 8));
    digest.Update(bytes);
  }

  method HashBytesIntoGraph(digest: Digest, name: Name, bytes: seq<Byte>)
    modifies digest
    ensures digest.fed == old(digest.fed) + Encode(Item(name, bytes))
  {
    FeedPrefixed(digest, name);
    FeedPrefixed(digest, bytes);
  }

  /** Reads a file in pieces of any length into two digests, never more than a byte past its size. */
  method FeedFile(graph: Digest, own: Digest, file: File) returns (read: nat)
    requires graph != own
    modifies graph, own
    ensures read == if |file.bytes| < file.size + 1 then |file.bytes| else file.size + 1
    ensures read <= |file.bytes| && graph.fed == old(graph.fed) + file.bytes[..read]
    ensures own.fed == old(own.fed) + file.bytes[..read]
  {
    read := 0;
    var limit := if |file.bytes| < file.size + 1 then |file.bytes| else file.size + 1;
    while read < limit
      invariant read <= limit
      invariant graph.fed == old(graph.fed) + file.bytes[..read]
      invariant own.fed == old(own.fed) + file.bytes[..read]
    {
      var n: int :| 0 < n <= BUFFER_BYTES && n <= limit - read;
      var piece := file.bytes[read..read + n];
      assert file.bytes[..read + n] == file.bytes[..read] + piece;
      graph.Update(piece);
      own.Update(piece);
      read := read + n;
    }
  }

  function FileIdentities(names: seq<Name>, paths: Disk, disk: Disk): seq<FileIdentity> {
    if names == [] then []
    else [OwnIdentity(names[0], At(paths, names[0]).path, disk)] + FileIdentities(names[1..], paths, disk)
  }

  function OwnIdentity(name: Name, path: string, disk: Disk): FileIdentity {
    FileIdentity(name, path, At(disk, name).size, At(disk, name).bytes)
  }

  /** The members can be hashed one after the other behind `total` bytes. */
  predicate Hashable(names: seq<Name>, disk: Disk, total: nat) {
    names != [] ==> Fits(names[0], disk, total) && Hashable(names[1..], disk, total + disk[names[0]].size)
  }

  predicate Fits(name: Name, disk: Disk, total: nat) {
    Unchanged(name, disk) && total + disk[name].size <= MAX_GRAPH_BYTES
  }

  predicate Unchanged(name: Name, disk: Disk) {
    name in disk && FitsMember(disk[name].size) && |disk[name].bytes| == disk[name].size && !disk[name].touched
  }

  function SumOfBytes(items: seq<Item>): nat {
    if items == [] then 0 else |items[0].content| + SumOfBytes(items[1..])
  }

  ghost predicate AllUnchanged(names: seq<Name>, disk: Disk) {
    forall i :: 0 <= i < |names| ==> Unchanged(names[i], disk)
  }

  lemma {:induction false} HashableMeans(names: seq<Name>, disk: Disk, total: nat)
    requires total <= MAX_GRAPH_BYTES
    ensures Hashable(names, disk, total) <==> AllUnchanged(names, disk) && total + Total(names, disk) <= MAX_GRAPH_BYTES
    ensures Hashable(names, disk, total) ==> Total(names, disk) == SumOfBytes(Items(names, disk))
  {
    if names != [] {
      var rest := names[1..];
      assert forall i :: 0 <= i < |rest| ==> rest[i] == names[i + 1];
      if Unchanged(names[0], disk) && total + disk[names[0]].size <= MAX_GRAPH_BYTES {
        HashableMeans(rest, disk, total + disk[names[0]].size);
        if AllUnchanged(rest, disk) {
          forall i | 0 <= i < |names| ensures Unchanged(names[i], disk) {
            assert i > 0 ==> names[i] == rest[i - 1];
          }
        }
      }
    }
  }

  /** The graph whose members are the kept references, with their paths and their content. */
  datatype Listing =
    Listing(entryName: Name, entryPath: string, entry: seq<Byte>, kept: seq<Name>, paths: Disk, disk: Disk)
  {
    function Entry(): FileIdentity {
      FileIdentity(entryName, entryPath, |entry|, entry)
    }
    function Members(): seq<Item> {
      Items(kept, disk)
    }
  }

  /** One member more. */
  function Extended(part: Identity, name: Name, path: string, disk: Disk): Identity {
    var file := At(disk, name);
    Identity(part.hashed + Encode(Item(name, file.bytes)), part.size + file.size,
             part.files + [OwnIdentity(name, path, disk)])
  }

  /** What hashing the names still to come makes of the part that is done. */
  function HashRest(part: Identity, rest: seq<Name>, paths: Disk, disk: Disk): Option<Identity>
    decreases |rest|
  {
    if rest == [] then Some(part)
    else if !Fits(rest[0], disk, part.size) then None
    else HashRest(Extended(part, rest[0], At(paths, rest[0]).path, disk), rest[1..], paths, disk)
  }

  lemma HashStep(part: Identity, rest: seq<Name>, path: string, paths: Disk, disk: Disk)
    requires rest != [] && At(paths, rest[0]).path == path
    ensures HashRest(part, rest, paths, disk) ==
      if Fits(rest[0], disk, part.size) then HashRest(Extended(part, rest[0], path, disk), rest[1..], paths, disk)
      else None
  {
  }

  lemma {:induction false} HashRestIs(part: Identity, rest: seq<Name>, paths: Disk, disk: Disk)
    ensures HashRest(part, rest, paths, disk) ==
      if !Hashable(rest, disk, part.size) then None
      else Some(Identity(part.hashed + EncodeAll(Items(rest, disk)), part.size + Total(rest, disk),
                         part.files + FileIdentities(rest, paths, disk)))
    decreases |rest|
  {
    if rest == [] {
      assert part.hashed + [] == part.hashed && part.files + [] == part.files;
    } else if Fits(rest[0], disk, part.size) {
      var name := rest[0];
      HashRestIs(Extended(part, name, At(paths, name).path, disk), rest[1..], paths, disk);
      ItemsCons(rest, disk);
      Associate(part.hashed, Encode(Item(name, At(disk, name).bytes)), EncodeAll(Items(rest[1..], disk)));
      Associate(part.files, [OwnIdentity(name, At(paths, name).path, disk)], FileIdentities(rest[1..], paths, disk));
    }
  }

  lemma ItemsCons(names: seq<Name>, disk: Disk)
    requires names != []
    ensures EncodeAll(Items(names, disk)) ==
      Encode(Item(names[0], At(disk, names[0]).bytes)) + EncodeAll(Items(names[1..], disk))
  {
    var items := Items(names, disk);
    assert items[1..] == Items(names[1..], disk);
  }

  lemma Associate<T>(a: seq<T>, b: seq<T>, c: seq<T>)
    ensures a + (b + c) == a + b + c
  {
  }

  ghost function WholeIdentity(f: Format, l: Listing): Identity {
    Identity(Preimage(f, l.entry, l.Members()), |l.entry| + Total(l.kept, l.disk),
             [l.Entry()] + FileIdentities(l.kept, l.paths, l.disk))
  }

  lemma WholeStarts(f: Format, l: Listing)
    ensures var start := Identity(Domain(f) + Encode(Item(Marker(f), l.entry)), |l.entry|, [l.Entry()]);
      HashRest(start, l.kept, l.paths, l.disk) ==
      if Hashable(l.kept, l.disk, |l.entry|) then Some(WholeIdentity(f, l)) else None
  {
    var start := Identity(Domain(f) + Encode(Item(Marker(f), l.entry)), |l.entry|, [l.Entry()]);
    HashRestIs(start, l.kept, l.paths, l.disk);
    var items := [Item(Marker(f), l.entry)] + l.Members();
    assert items[0] == Item(Marker(f), l.entry) && items[1..] == l.Members();
    Associate(Domain(f), Encode(items[0]), EncodeAll(items[1..]));
  }

  lemma {:induction false} KeptIgnores(refs: seq<Name>, disk: Disk, seen: set<string>, path: string)
    requires forall i :: 0 <= i < |refs| ==> At(disk, refs[i]).path != path
    ensures Kept(refs, disk, seen + {path}) == Kept(refs, disk, seen)
  {
    if refs != [] {
      var p, rest := At(disk, refs[0]).path, refs[1..];
      assert forall i :: 0 <= i < |rest| ==> rest[i] == refs[i + 1];
      if p in seen {
        KeptIgnores(rest, disk, seen, path);
      } else {
        KeptIgnores(rest, disk, seen + {p}, path);
        assert seen + {path} + {p} == seen + {p} + {path};
      }
    }
  }

  /** One member behind the bounds that are applied again to the opened file. */
  method FeedMember(graph: Digest, name: Name, path: string, disk: Disk, total: nat)
    returns (r: Option<(nat, FileIdentity)>)
    modifies graph
    ensures r.Some? <==> Fits(name, disk, total)
    ensures r.Some? ==> graph.fed == old(graph.fed) + Encode(Item(name, disk[name].bytes))
    ensures r.Some? ==> r.value == (total + disk[name].size, OwnIdentity(name, path, disk))
  {
    if name !in disk {
      return None;
    }
    var file := disk[name];
    var next := AdmitHashedMember(total, file.size);
    if next.None? {
      return None;
    }
    FeedPrefixed(graph, name);
    graph.Update(LittleEndian(file.size, 8));
    var own := new Digest();
    var read := FeedFile(graph, own, file);
    if read != file.size || file.touched {
      return None;
    }
    assert own.fed == file.bytes[..read] == file.bytes;
    r := Some((next.value, FileIdentity(name, path, file.size, own.fed)));
  }

  /**
    What an identity is made from: the entry at both readings of it and its size at validation,
    the references in it, and the state of the disk at validation and at hashing.
  */
  datatype GraphInput =
    GraphInput(entry: File, entrySize: nat, again: File, refs: seq<Name>, checked: Disk, disk: Disk)

  /** A descriptor of at most `max` bytes that stays the same while it is read. */
  function ReadDescriptor(file: File, max: nat): (r: Option<seq<Byte>>)
    ensures r.Some? <==> file.size == |file.bytes| <= max && !file.touched
    ensures r.Some? ==> r.value == file.bytes
  {
    var bytes := if |file.bytes| <= max + 1 then file.bytes else file.bytes[..max + 1];
    if file.size > max || |bytes| > max then None
    else if |bytes| != file.size || file.touched then None
    else Some(bytes)
  }

  function ListingOf(entryName: Name, g: GraphInput): Listing {
    Listing(entryName, g.entry.path, g.entry.bytes, Kept(g.refs, g.checked, {}), g.checked, g.disk)
  }

  /** Both readings of the entry agree, and so do the two passes over what it refers to. */
  ghost predicate Succeeds(g: GraphInput) {
    && ReadDescriptor(g.entry, 1_048_576).Some?
    && Admissible(g.refs, g.checked, g.entry.path, g.entrySize)
    && Hashable(Kept(g.refs, g.checked, {}), g.disk, |g.entry.bytes|)
    && ReadDescriptor(g.again, 1_048_576) == ReadDescriptor(g.entry, 1_048_576)
  }

  ghost function IdentityOf(f: Format, entryName: Name, g: GraphInput): Identity {
    WholeIdentity(f, ListingOf(entryName, g))
  }

  /**
    Validates the references against one state of the disk, hashes the first name of every
    file against another, and reads the entry once more; whatever changed in between, what is
    hashed keeps within the bounds.
  */
  method GraphIdentity(f: Format, entryName: Name, g: GraphInput) returns (r: Option<Identity>)
    ensures r.Some? <==> Succeeds(g)
    ensures r.Some? ==> r.value == IdentityOf(f, entryName, g)
  {
    var entry := ReadDescriptor(g.entry, MAX_DESCRIPTOR_BYTES);
    if entry.None? {
      return None;
    }
    var ok := ValidateReferences(g.refs, g.checked, g.entry.path, g.entrySize);
    if !ok {
      return None;
    }
    WholeStarts(f, ListingOf(entryName, g));
    EntryIgnored(g.refs, g.checked, g.entry.path);
    var graph := new Digest();
    graph.Update(Domain(f));
    HashBytesIntoGraph(graph, Marker(f), entry.value);
    var own := FileIdentity(entryName, g.entry.path, |entry.value|, entry.value);
    assert [] + Domain(f) == Domain(f);
    r := HashMembers(graph, own, g.refs, g.checked, g.disk);
    if ReadDescriptor(g.again, MAX_DESCRIPTOR_BYTES) != entry {
      r := None;
    }
  }

  /** Feeds the first name of every file but the entry to a digest that holds the entry. */
  method HashMembers(graph: Digest, entry: FileIdentity, refs: seq<Name>, checked: Disk, disk: Disk)
    returns (r: Option<Identity>)
    modifies graph
    ensures r ==
      HashRest(Identity(old(graph.fed), entry.size, [entry]), Kept(refs, checked, {entry.path}), checked, disk)
  {
    var total: nat := entry.size;
    var files, seen := [entry], {entry.path};
    assert refs[0..] == refs;
    ghost var rest := Kept(refs, checked, {entry.path});
    ghost var goal := HashRest(Identity(graph.fed, total, files), rest, checked, disk);
    for i := 0 to |refs|
      invariant rest == Kept(refs[i..], checked, seen)
      invariant HashRest(Identity(graph.fed, total, files), rest, checked, disk) == goal
    {
      var name := refs[i];
      var path := At(checked, name).path;
      KeptStep(refs, i, checked, seen);
      if path in seen {
        continue;
      }
      seen := seen + {path};
      ghost var part := Identity(graph.fed, total, files);
      HashStep(part, rest, path, checked, disk);
      var fed := FeedMember(graph, name, path, disk, total);
      if fed.None? {
        return None;
      }
      total, files := fed.value.0, files + [fed.value.1];
      rest := rest[1..];
      assert Identity(graph.fed, total, files) == Extended(part, name, path, disk);
    }
    r := Some(Identity(graph.fed, total, files));
  }

  // ----------------------------------------------------------------- the two digests of a CUE

  const MAX_CUE_BYTES: nat := 64 * 1024 - 1
  const MAX_SBI_BYTES: nat := 8 * 1024 * 1024
  const SBI_HEADER: seq<Byte> := Ascii("SBI\0")
  const SBI_RECORD: nat := 14

  predicate Bcd(b: Byte) {
    b / 16 <= 9 && b % 16 <= 9
  }

  /** A record starts with a position in decimal digits and is of the one known kind. */
  predicate SbiRecord(s: seq<Byte>)
    requires |s| == SBI_RECORD
  {
    Bcd(s[0]) && Bcd(s[1]) && Bcd(s[2]) && s[3] == 1
  }

  predicate SbiRecordAt(file: File, k: nat) {
    var start := 4 + k * SBI_RECORD;
    start + SBI_RECORD <= |file.bytes| && SbiRecord(file.bytes[start..start + SBI_RECORD])
  }

  /** A sidecar is the header and as many whole records as its size says. */
  ghost predicate Sbi(file: File) {
    && 4 <= file.size <= MAX_SBI_BYTES && (file.size - 4) % SBI_RECORD == 0
    && |file.bytes| >= 4 && file.bytes[..4] == SBI_HEADER
    && forall k :: 0 <= k < (file.size - 4) / SBI_RECORD ==> SbiRecordAt(file, k)
  }

  // A sidecar written out: positions of two decimal digits each, and ten bytes of data.

  datatype Position = Position(minute: nat, second: nat, sector: nat, data: seq<Byte>)

  predicate InDigits(p: Position) {
    p.minute < 100 && p.second < 100 && p.sector < 100 && |p.data| == 10
  }

  function Digits(n: nat): Byte
    requires n < 100
  {
    16 * (n / 10) + n % 10
  }

  function RecordBytes(p: Position): seq<Byte>
    requires InDigits(p)
  {
    [Digits(p.minute), Digits(p.second), Digits(p.sector), 1] + p.data
  }

  function SbiBytes(all: seq<Position>): seq<Byte>
    requires forall k :: 0 <= k < |all| ==> InDigits(all[k])
  {
    if all == [] then [0x53, 0x42, 0x49, 0] else SbiBytes(all[..|all| - 1]) + RecordBytes(all[|all| - 1])
  }

  lemma {:induction false} SbiLength(all: seq<Position>)
    requires forall k :: 0 <= k < |all| ==> InDigits(all[k])
    ensures |SbiBytes(all)| == 4 + 14 * |all| && SbiBytes(all)[..4] == [0x53, 0x42, 0x49, 0]
  {
    if all != [] {
      SbiLength(all[..|all| - 1]);
    }
  }

  lemma BcdIsDigits(b: Byte)
    ensures Bcd(b) <==> exists n :: 0 <= n < 100 && Digits(n) == b
  {
    if Bcd(b) {
      assert Digits(10 * (b / 16) + b % 16) == b;
    }
  }

  /** A record is one of those positions written out. */
  lemma RecordIs(s: seq<Byte>)
    requires |s| == SBI_RECORD
    ensures SbiRecord(s) <==> exists p :: InDigits(p) && RecordBytes(p) == s
  {
    BcdIsDigits(s[0]);
    BcdIsDigits(s[1]);
    BcdIsDigits(s[2]);
    if SbiRecord(s) {
      var m, c, f :| 0 <= m < 100 && Digits(m) == s[0] && 0 <= c < 100 && Digits(c) == s[1]
        && 0 <= f < 100 && Digits(f) == s[2];
      var p := Position(m, c, f, s[4..]);
      assert InDigits(p) && RecordBytes(p) == s;
    }
  }

  /** The records `from` a file's bytes, if every one of them is a position. */
  lemma {:induction false} RecordsOf(file: File, n: nat) returns (all: seq<Position>)
    requires 4 + 14 * n <= |file.bytes| && file.bytes[..4] == SBI_HEADER
    requires forall k :: 0 <= k < n ==> SbiRecordAt(file, k)
    ensures |all| == n && (forall k :: 0 <= k < n ==> InDigits(all[k])) && SbiBytes(all) == file.bytes[..4 + 14 * n]
  {
    all := [];
    if n > 0 {
      var front := RecordsOf(file, n - 1);
      var start := 4 + 14 * (n - 1);
      assert SbiRecordAt(file, n - 1);
      RecordIs(file.bytes[start..start + 14]);
      var p :| InDigits(p) && RecordBytes(p) == file.bytes[start..start + 14];
      all := front + [p];
      assert all[..n - 1] == front;
      assert file.bytes[..start] + file.bytes[start..start + 14] == file.bytes[..start + 14];
    }
  }

  lemma {:induction false} WrittenRecord(all: seq<Position>, k: nat)
    requires (forall i :: 0 <= i < |all| ==> InDigits(all[i])) && k < |all|
    ensures 4 + 14 * (k + 1) <= |SbiBytes(all)| && SbiBytes(all)[4 + 14 * k..4 + 14 * (k + 1)] == RecordBytes(all[k])
  {
    SbiLength(all);
    var n := |all| - 1;
    SbiLength(all[..n]);
    if k < n {
      WrittenRecord(all[..n], k);
      assert SbiBytes(all)[4 + 14 * k..4 + 14 * (k + 1)] == SbiBytes(all[..n])[4 + 14 * k..4 + 14 * (k + 1)];
    }
  }

  ghost predicate Written(bytes: seq<Byte>, all: seq<Position>) {
    (forall k :: 0 <= k < |all| ==> InDigits(all[k])) && bytes == SbiBytes(all)
  }

  /** A whole file is a sidecar exactly if it is a list of positions written out, of at most 8 MiB. */
  lemma SbiIsWritten(file: File)
    requires |file.bytes| == file.size
    ensures Sbi(file) <==> file.size <= 8_388_608 && exists all :: Written(file.bytes, all)
  {
    if Sbi(file) {
      var all := RecordsOf(file, (file.size - 4) / 14);
      assert file.bytes[..file.size] == file.bytes;
      assert Written(file.bytes, all);
    }
    forall all | Written(file.bytes, all) && file.size <= 8_388_608 ensures Sbi(file) {
      SbiLength(all);
      forall k | 0 <= k < |all| ensures SbiRecordAt(file, k) {
        WrittenRecord(all, k);
        RecordIs(RecordBytes(all[k]));
      }
    }
  }

  method CheckSbi(file: File) returns (ok: bool)
    ensures ok <==> Sbi(file)
  {
    if file.size < 4 || file.size > MAX_SBI_BYTES || (file.size - 4) % SBI_RECORD != 0 {
      return false;
    }
    if |file.bytes| < 4 || file.bytes[..4] != SBI_HEADER {
      return false;
    }
    for k := 0 to (file.size - 4) / SBI_RECORD
      invariant forall j :: 0 <= j < k ==> SbiRecordAt(file, j)
    {
      if !SbiRecordAt(file, k) {
        return false;
      }
    }
    ok := true;
  }

  /**
    What the identity of a CUE sheet is made from: the paths are resolved once more between
    validation and hashing, and the last reference may be the Mednafen sidecar.
  */
  datatype CueInput = CueInput(graph: GraphInput, resolved: Disk, sidecar: bool)

  /** A sheet is not held to the length its metadata give. */
  function ReadSheet(file: File): (r: Option<seq<Byte>>)
    ensures r.Some? <==> file.size <= 65_535 && |file.bytes| <= 65_535 && !file.touched
    ensures r.Some? ==> r.value == file.bytes
  {
    var bytes := if |file.bytes| <= MAX_CUE_BYTES + 1 then file.bytes else file.bytes[..MAX_CUE_BYTES + 1];
    if file.size > MAX_CUE_BYTES || |bytes| > MAX_CUE_BYTES || file.touched then None else Some(bytes)
  }

  predicate Resolves(name: Name, disk: Disk, entryPath: string) {
    name in disk && disk[name].path != entryPath
  }

  /** The sidecar is opened for hashing under its own name: no track before it is the same file. */
  ghost predicate SidecarKept(refs: seq<Name>, paths: Disk)
    requires refs != []
  {
    var n := |refs| - 1;
    At(paths, refs[n]).path !in Paths(refs[..n], paths)
  }

  function CueListing(entryName: Name, c: CueInput): Listing {
    Listing(entryName, c.graph.entry.path, c.graph.entry.bytes, Kept(c.graph.refs, c.resolved, {}), c.resolved,
            c.graph.disk)
  }

  /** The sidecar, if there is one that is hashed under its own name, is well-formed then. */
  ghost predicate SidecarSound(c: CueInput)
    requires c.graph.refs != []
  {
    var refs := c.graph.refs;
    c.sidecar && SidecarKept(refs, c.resolved) ==> Sbi(At(c.graph.disk, refs[|refs| - 1]))
  }

  /** What is checked before the hashing: the sheet, its references and the sidecar, and the paths once more. */
  ghost predicate SheetFits(c: CueInput) {
    var g := c.graph;
    && ReadSheet(g.entry).Some? && Admissible(g.refs, g.checked, g.entry.path, g.entrySize)
    && (c.sidecar ==> Sbi(At(g.checked, g.refs[|g.refs| - 1])))
    && forall i :: 0 <= i < |g.refs| ==> Resolves(g.refs[i], c.resolved, g.entry.path)
  }

  /** Both readings of the sheet agree, and so do the two passes over what it refers to. */
  ghost predicate CueSucceeds(c: CueInput) {
    && SheetFits(c) && ReadSheet(c.graph.again) == ReadSheet(c.graph.entry)
    && Hashable(Kept(c.graph.refs, c.resolved, {}), c.graph.disk, |c.graph.entry.bytes|) && SidecarSound(c)
  }

  /** The SHA-1 names the sheet by its file name, the SHA-256 by the format's marker. */
  ghost function CueIdentity(l: Listing): Identity {
    WholeIdentity(Cue, l).(hashed := CuePreimage(l.entryName, l.entry, l.Members()))
  }

  lemma CueStarts(l: Listing)
    ensures var start := Identity(CUE_SHA1_DOMAIN + Encode(Item(l.entryName, l.entry)), |l.entry|, [l.Entry()]);
      HashRest(start, l.kept, l.paths, l.disk) ==
      if Hashable(l.kept, l.disk, |l.entry|) then Some(CueIdentity(l)) else None
  {
    var start := Identity(CUE_SHA1_DOMAIN + Encode(Item(l.entryName, l.entry)), |l.entry|, [l.Entry()]);
    HashRestIs(start, l.kept, l.paths, l.disk);
    var items := [Item(l.entryName, l.entry)] + l.Members();
    assert items[0] == Item(l.entryName, l.entry) && items[1..] == l.Members();
    Associate(CUE_SHA1_DOMAIN, Encode(items[0]), EncodeAll(items[1..]));
  }

  method CheckSheet(c: CueInput) returns (ok: bool)
    ensures ok <==> SheetFits(c)
  {
    var g := c.graph;
    if ReadSheet(g.entry).None? {
      return false;
    }
    ok := ValidateReferences(g.refs, g.checked, g.entry.path, g.entrySize);
    if !ok {
      return;
    }
    if c.sidecar {
      ok := CheckSbi(At(g.checked, g.refs[|g.refs| - 1]));
      if !ok {
        return;
      }
    }
    for i := 0 to |g.refs|
      invariant forall k :: 0 <= k < i ==> Resolves(g.refs[k], c.resolved, g.entry.path)
    {
      if !Resolves(g.refs[i], c.resolved, g.entry.path) {
        return false;
      }
    }
  }

  method CueGraphIdentity(entryName: Name, c: CueInput) returns (r: Option<(Identity, Identity)>)
    ensures r.Some? <==> CueSucceeds(c)
    ensures r.Some? ==> r.value == (CueIdentity(CueListing(entryName, c)), WholeIdentity(Cue, CueListing(entryName, c)))
  {
    var ok := CheckSheet(c);
    if !ok {
      return None;
    }
    var entry, path := c.graph.entry.bytes, c.graph.entry.path;
    ghost var l := CueListing(entryName, c);
    WholeStarts(Cue, l);
    CueStarts(l);
    ResolvedIgnored(c.graph.refs, c.resolved, path);
    var sha1 := new Digest();
    var sha256 := new Digest();
    sha1.Update(CUE_SHA1_DOMAIN);
    HashBytesIntoGraph(sha1, entryName, entry);
    sha256.Update(Domain(Cue));
    HashBytesIntoGraph(sha256, Marker(Cue), entry);
    assert [] + CUE_SHA1_DOMAIN == CUE_SHA1_DOMAIN && [] + Domain(Cue) == Domain(Cue);
    var own := FileIdentity(entryName, path, |entry|, entry);
    r := HashCueMembers(sha1, sha256, own, c);
    if ReadSheet(c.graph.again) != ReadSheet(c.graph.entry) {
      r := None;
    }
  }

  method FeedBoth(sha1: Digest, sha256: Digest, name: Name, file: File) returns (ok: bool)
    requires sha1 != sha256
    modifies sha1, sha256
    ensures ok <==> |file.bytes| == file.size && !file.touched
    ensures ok ==> sha1.fed == old(sha1.fed) + Encode(Item(name, file.bytes))
    ensures ok ==> sha256.fed == old(sha256.fed) + Encode(Item(name, file.bytes))
  {
    FeedPrefixed(sha1, name);
    FeedPrefixed(sha256, name);
    sha1.Update(LittleEndian(file.size, 8));
    sha256.Update(LittleEndian(file.size, 8));
    var read := FeedFile(sha1, sha256, file);
    ok := read == file.size && !file.touched;
    assert ok ==> file.bytes[..read] == file.bytes;
  }

  /** One member more for both digests, and for the list of files. */
  method FeedCueMember(sha1: Digest, sha256: Digest, total: nat, files: seq<FileIdentity>,
                       name: Name, path: string, disk: Disk, sbi: bool)
    returns (r: Option<(nat, seq<FileIdentity>)>)
    requires sha1 != sha256
    modifies sha1, sha256
    ensures r.Some? <==> Fits(name, disk, total) && (sbi ==> Sbi(At(disk, name)))
    ensures r.Some? ==>
      && Identity(sha1.fed, r.value.0, r.value.1) == Extended(Identity(old(sha1.fed), total, files), name, path, disk)
      && Identity(sha256.fed, r.value.0, r.value.1) ==
         Extended(Identity(old(sha256.fed), total, files), name, path, disk)
  {
    if name !in disk || !FitsMember(disk[name].size) {
      return None;
    }
    var file := disk[name];
    if sbi {
      var ok := CheckSbi(file);
      if !ok {
        return None;
      }
    }
    if total + file.size > MAX_GRAPH_BYTES {
      return None;
    }
    var ok := FeedBoth(sha1, sha256, name, file);
    if !ok {
      return None;
    }
    r := Some((total + file.size, files + [FileIdentity(name, path, file.size, file.bytes)]));
  }

  method HashCueMembers(sha1: Digest, sha256: Digest, entry: FileIdentity, c: CueInput)
    returns (r: Option<(Identity, Identity)>)
    requires sha1 != sha256 && c.graph.refs != [] && entry.path == c.graph.entry.path
    requires forall i :: 0 <= i < |c.graph.refs| ==> Resolves(c.graph.refs[i], c.resolved, entry.path)
    modifies sha1, sha256
    ensures var kept := Kept(c.graph.refs, c.resolved, {entry.path});
      var whole1 := HashRest(Identity(old(sha1.fed), entry.size, [entry]), kept, c.resolved, c.graph.disk);
      var whole256 := HashRest(Identity(old(sha256.fed), entry.size, [entry]), kept, c.resolved, c.graph.disk);
      r == if SidecarSound(c) && whole1.Some? && whole256.Some? then Some((whole1.value, whole256.value)) else None
  {
    var refs, paths, disk := c.graph.refs, c.resolved, c.graph.disk;
    var total: nat := entry.size;
    var files, seen := [entry], {entry.path};
    assert refs[0..] == refs;
    ghost var rest, sound := Kept(refs, paths, {entry.path}), SidecarSound(c);
    ghost var whole1 := HashRest(Identity(sha1.fed, total, files), rest, paths, disk);
    ghost var whole256 := HashRest(Identity(sha256.fed, total, files), rest, paths, disk);
    NothingSeen(c);
    for i := 0 to |refs|
      invariant rest == Kept(refs[i..], paths, seen) && SeenSoFar(c, i, seen)
      invariant HashRest(Identity(sha1.fed, total, files), rest, paths, disk) == whole1
      invariant HashRest(Identity(sha256.fed, total, files), rest, paths, disk) == whole256
      invariant i == |refs| ==> sound
    {
      var name := refs[i];
      var path, sbi := At(paths, name).path, c.sidecar && i == |refs| - 1;
      KeptStep(refs, i, paths, seen);
      SidecarAt(c, i, seen);
      if path in seen {
        continue;
      }
      seen := seen + {path};
      HashStep(Identity(sha1.fed, total, files), rest, path, paths, disk);
      HashStep(Identity(sha256.fed, total, files), rest, path, paths, disk);
      var fed := FeedCueMember(sha1, sha256, total, files, name, path, disk, sbi);
      if fed.None? {
        return None;
      }
      total, files := fed.value.0, fed.value.1;
      rest := rest[1..];
    }
    r := Some((Identity(sha1.fed, total, files), Identity(sha256.fed, total, files)));
  }

  /** The entry and the files of the first `i` references. */
  ghost predicate SeenSoFar(c: CueInput, i: nat, seen: set<string>)
    requires i <= |c.graph.refs|
  {
    seen == {c.graph.entry.path} + Paths(c.graph.refs[..i], c.resolved)
  }

  /** The same at the last reference, given the files before it. */
  ghost predicate SoundAt(c: CueInput, i: nat, seen: set<string>)
    requires i < |c.graph.refs|
  {
    var name := c.graph.refs[i];
    c.sidecar && At(c.resolved, name).path !in seen ==> Sbi(At(c.graph.disk, name))
  }

  lemma NothingSeen(c: CueInput)
    ensures SeenSoFar(c, 0, {c.graph.entry.path})
  {
  }

  lemma SidecarAt(c: CueInput, i: nat, seen: set<string>)
    requires i < |c.graph.refs| && SeenSoFar(c, i, seen)
    requires Resolves(c.graph.refs[i], c.resolved, c.graph.entry.path)
    ensures SeenSoFar(c, i + 1, seen + {At(c.resolved, c.graph.refs[i]).path})
    ensures i == |c.graph.refs| - 1 ==> (SidecarSound(c) <==> SoundAt(c, i, seen))
  {
    PathsSnoc(c.graph.refs, i, c.resolved);
  }

  lemma PathsSnoc(refs: seq<Name>, i: nat, disk: Disk)
    requires i < |refs|
    ensures Paths(refs[..i + 1], disk) == Paths(refs[..i], disk) + {At(disk, refs[i]).path}
  {
    assert refs[..i + 1] == refs[..i] + [refs[i]];
    assert refs[..i + 1][i] == refs[i];
    forall p | p in Paths(refs[..i], disk) ensures p in Paths(refs[..i + 1], disk) {
      var k :| 0 <= k < i && At(disk, refs[..i][k]).path == p;
      assert refs[..i + 1][k] == refs[..i][k];
    }
    forall p | p in Paths(refs[..i + 1], disk) ensures p in Paths(refs[..i], disk) + {At(disk, refs[i]).path} {
      var k :| 0 <= k <= i && At(disk, refs[..i + 1][k]).path == p;
      assert k < i ==> refs[..i][k] == refs[..i + 1][k];
    }
  }

  lemma ResolvedIgnored(refs: seq<Name>, disk: Disk, entryPath: string)
    requires forall i :: 0 <= i < |refs| ==> Resolves(refs[i], disk, entryPath)
    ensures Kept(refs, disk, {entryPath}) == Kept(refs, disk, {})
  {
    KeptIgnores(refs, disk, {}, entryPath);
    assert {} + {entryPath} == {entryPath};
  }

  lemma EntryIgnored(refs: seq<Name>, disk: Disk, entryPath: string)
    requires forall i :: 0 <= i < |refs| ==> FitsAlone(refs[i], disk, entryPath)
    ensures Kept(refs, disk, {entryPath}) == Kept(refs, disk, {})
  {
    KeptIgnores(refs, disk, {}, entryPath);
    assert {} + {entryPath} == {entryPath};
  }

  lemma KeptStep(refs: seq<Name>, i: nat, disk: Disk, seen: set<string>)
    requires i < |refs|
    ensures var path, kept := At(disk, refs[i]).path, Kept(refs[i..], disk, seen);
      if path in seen then kept == Kept(refs[i + 1..], disk, seen)
      else kept != [] && kept[0] == refs[i] && kept[1..] == Kept(refs[i + 1..], disk, seen + {path})
  {
    assert refs[i..][0] == refs[i] && refs[i..][1..] == refs[i + 1..];
  }

  lemma HashedSizes(kept: seq<Name>, disk: Disk, entry: seq<Byte>)
    requires |entry| <= MAX_DESCRIPTOR_BYTES && Hashable(kept, disk, |entry|) && NamesSized(kept)
    ensures AllSized(entry, Items(kept, disk))
    ensures |entry| + Total(kept, disk) == |entry| + SumOfBytes(Items(kept, disk)) <= MAX_GRAPH_BYTES
  {
    HashableMeans(kept, disk, |entry|);
    HashableSized(kept, disk);
  }

  /** The size an identity reports is the sum of what was hashed, and within the bound. */
  lemma SizeIsWhatWasHashed(f: Format, entryName: Name, g: GraphInput)
    requires Succeeds(g)
    ensures AllSized(g.entry.bytes, ListingOf(entryName, g).Members())
    ensures IdentityOf(f, entryName, g).size ==
      |g.entry.bytes| + SumOfBytes(ListingOf(entryName, g).Members()) <= MAX_GRAPH_BYTES
  {
    KeptNamesSized(g.refs, g.checked, {});
    HashedSizes(Kept(g.refs, g.checked, {}), g.disk, g.entry.bytes);
  }

  /**
    Two identities with one digest input are of one format, and were made of the same entry and
    the same members by name and content in the same order.
  */
  lemma DigestInputDecides(f: Format, entryName: Name, g: GraphInput, f': Format, entryName': Name, g': GraphInput)
    requires Succeeds(g) && Succeeds(g')
    requires IdentityOf(f, entryName, g).hashed == IdentityOf(f', entryName', g').hashed
    ensures f == f' && g.entry.bytes == g'.entry.bytes
    ensures ListingOf(entryName, g).Members() == ListingOf(entryName', g').Members()
  {
    SizeIsWhatWasHashed(f, entryName, g);
    SizeIsWhatWasHashed(f', entryName', g');
    var l, l' := ListingOf(entryName, g), ListingOf(entryName', g');
    PreimageUnique(f, l.entry, l.Members(), f', l'.entry, l'.Members());
  }

  /** The same for CUE sheets, whose SHA-1 input decides the sheet's name as well. */
  lemma CueDigestInputsDecide(entryName: Name, c: CueInput, entryName': Name, c': CueInput)
    requires CueSucceeds(c) && CueSucceeds(c') && |entryName| < U64_LIMIT && |entryName'| < U64_LIMIT
    ensures var l, l' := CueListing(entryName, c), CueListing(entryName', c');
      && (CueIdentity(l).hashed == CueIdentity(l').hashed ==>
            entryName == entryName' && l.entry == l'.entry && l.Members() == l'.Members())
      && (WholeIdentity(Cue, l).hashed == WholeIdentity(Cue, l').hashed ==>
            l.entry == l'.entry && l.Members() == l'.Members())
  {
    var l, l' := CueListing(entryName, c), CueListing(entryName', c');
    CueSized(entryName, c);
    CueSized(entryName', c');
    if CueIdentity(l).hashed == CueIdentity(l').hashed {
      CuePreimageUnique(l.entryName, l.entry, l.Members(), l'.entryName, l'.entry, l'.Members());
    }
    if WholeIdentity(Cue, l).hashed == WholeIdentity(Cue, l').hashed {
      PreimageUnique(Cue, l.entry, l.Members(), Cue, l'.entry, l'.Members());
    }
  }

  lemma CueSized(entryName: Name, c: CueInput)
    requires CueSucceeds(c)
    ensures AllSized(c.graph.entry.bytes, CueListing(entryName, c).Members())
  {
    KeptNamesSized(c.graph.refs, c.resolved, {});
    HashedSizes(Kept(c.graph.refs, c.resolved, {}), c.graph.disk, c.graph.entry.bytes);
  }

  /** Names that were validated are short enough for their length prefix. */
  lemma {:induction false} KeptNamesSized(refs: seq<Name>, disk: Disk, seen: set<string>)
    requires NameBytes(refs) <= MAX_DECLARED_NAME_BYTES
    ensures NamesSized(Kept(refs, disk, seen))
  {
    if refs != [] {
      var path := At(disk, refs[0]).path;
      KeptNamesSized(refs[1..], disk, if path in seen then seen else seen + {path});
    }
  }

  predicate NamesSized(names: seq<Name>) {
    forall i :: 0 <= i < |names| ==> |names[i]| <= MAX_DECLARED_NAME_BYTES
  }

  lemma {:induction false} HashableSized(names: seq<Name>, disk: Disk)
    requires NamesSized(names) && AllUnchanged(names, disk)
    ensures forall i :: 0 <= i < |Items(names, disk)| ==> Sized(Items(names, disk)[i])
  {
    if names != [] {
      var rest := names[1..];
      assert forall i :: 0 <= i < |rest| ==> rest[i] == names[i + 1];
      HashableSized(rest, disk);
    }
  }
}
