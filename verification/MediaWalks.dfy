/**
  The two traversals as the program runs them: objects whose fields the recursive loops
  update, each proved to compute the walk that the theorems are about.
*/
module MediaWalks {
  import opened Base
  import opened Ordered
  import opened MediaSnapshot
  import Review = IndirectMedia
  import Hash = PlaylistHashing

  class PlaylistDeclaration {
    const loader: Review.Loader
    var declarations: Review.Declarations
    var active: set<string>
    var discCount: nat
    var accessed: set<string>

    constructor (loader: Review.Loader)
      ensures this.loader == loader && State() == Review.NOTHING_YET && active == {}
    {
      this.loader := loader;
      declarations, active, discCount, accessed := map[], {}, 0, {};
    }

    function State(): Review.Discovery
      reads this
    {
      Review.Discovery(declarations, discCount, accessed)
    }

    /** The record is merged first; the bounds are checked on what is then there. */
    method AddDeclaration(name: string, role: Review.Role, optional: bool) returns (error: Option<MediaError>)
      modifies this`declarations
      ensures match Review.AddDeclaration(loader.snap, old(declarations), name, role, optional)
        case Ok(next) => error == None && declarations == next
        case Err(e) => error == Some(e)
      ensures declarations ==
        if loader.snap.portable(name) then Review.Merge(old(declarations), name, role, optional) else old(declarations)
    {
      if !loader.snap.portable(name) {
        return Some(NotPortable);
      }
      declarations := Review.Merge(declarations, name, role, optional);
      if |declarations.Keys| > MAX_GRAPH_MEMBERS - 1 {
        return Some(TooManyMembers);
      }
      if Review.NameBytes(Ascending(declarations.Keys)) > MAX_DECLARED_NAME_BYTES {
        return Some(TooMuchNameData);
      }
      return None;
    }

    method AddAll(owner: string, names: seq<string>, role: Review.Role, optional: bool)
      returns (error: Option<MediaError>)
      modifies this`declarations
      ensures match Review.AddAll(loader.snap, old(declarations), owner, names, role, optional)
        case Ok(next) => error == None && declarations == next
        case Err(e) => error == Some(e)
    {
      ghost var goal := Review.AddAll(loader.snap, declarations, owner, names, role, optional);
      var i := 0;
      assert names[0..] == names;
      while i < |names|
        invariant i <= |names|
        invariant Review.AddAll(loader.snap, declarations, owner, names[i..], role, optional) == goal
      {
        var joined := Review.PortableJoin(loader.snap, owner, names[i]);
        if joined.Err? {
          return Some(joined.error);
        }
        error := AddDeclaration(joined.value, role, optional);
        if error.Some? {
          return;
        }
        assert names[i..][1..] == names[i + 1..];
        i := i + 1;
      }
      return None;
    }

    method AddDisc(owner: string, file: FileId, kind: Kind) returns (error: Option<MediaError>)
      modifies this`declarations
      ensures match Review.DiscMembers(loader, old(declarations), owner, file, kind)
        case Ok(next) => error == None && declarations == next
        case Err(e) => error == Some(e)
    {
      if file !in loader.snap.files {
        return Some(Malformed);
      }
      error := AddAll(owner, loader.snap.files[file], if kind == Ccd then Review.Companion else Review.Track, false);
      if error.None? && kind == Cue && loader.adapter == "mednafen" {
        if file !in loader.snap.sidecar {
          return Some(NotPortable);
        }
        error := AddAll(owner, [loader.snap.sidecar[file]], Review.OptionalSidecar, true);
      }
    }

    /** The walk this call stands for, and that it leaves the chain of open playlists alone. */
    ghost predicate Walked(walk: Review.Walk, error: Option<MediaError>)
      reads this
    {
      match walk
      case Going(d) => error == None && State() == d
      case Refused(e, opened_) => error == Some(e) && accessed == opened_
    }

    method Collect(descriptor: string, file: FileId, depth: nat) returns (error: Option<MediaError>)
      requires depth <= MAX_RECURSION_DEPTH + 1
      modifies this
      ensures active == old(active)
      ensures Walked(Review.Collect(loader, old(State()), descriptor, file, depth, active), error)
      decreases MAX_RECURSION_DEPTH + 1 - depth, 2
    {
      if depth > MAX_RECURSION_DEPTH {
        return Some(TooDeep);
      }
      var name := Review.ActiveName(descriptor);
      if name in active {
        return Some(Cycle);
      }
      ghost var before := active;
      active := active + {name};
      var entries := Review.DirectEntries(loader.snap, file);
      if entries.Err? {
        error := Some(entries.error);
      } else {
        error := CollectEntries(descriptor, entries.value, depth);
      }
      active := active - {name};
      assert active == before;
    }

    method CollectEntries(descriptor: string, entries: seq<string>, depth: nat) returns (error: Option<MediaError>)
      requires depth <= MAX_RECURSION_DEPTH
      modifies this
      ensures active == old(active)
      ensures Walked(Review.CollectEntries(loader, old(State()), descriptor, entries, depth, active), error)
      decreases MAX_RECURSION_DEPTH + 1 - depth, 1
    {
      ghost var goal := Review.CollectEntries(loader, State(), descriptor, entries, depth, active);
      var i := 0;
      assert entries[0..] == entries;
      while i < |entries|
        invariant i <= |entries| && active == old(active)
        invariant Review.CollectEntries(loader, State(), descriptor, entries[i..], depth, active) == goal
      {
        error := CollectEntry(descriptor, entries[i], depth);
        if error.Some? {
          return;
        }
        assert entries[i..][1..] == entries[i + 1..];
        i := i + 1;
      }
      return None;
    }

    method CollectEntry(descriptor: string, child: string, depth: nat) returns (error: Option<MediaError>)
      requires depth <= MAX_RECURSION_DEPTH
      modifies this
      ensures active == old(active)
      ensures Walked(Review.CollectEntry(loader, old(State()), descriptor, child, depth, active), error)
      decreases MAX_RECURSION_DEPTH + 1 - depth, 0, 1
    {
      var joined := Review.PortableJoin(loader.snap, descriptor, child);
      if joined.Err? {
        return Some(joined.error);
      }
      var nested := joined.value;
      if !Review.IsDescriptor(loader.snap.kind(nested)) {
        return Some(NotADescriptor);
      }
      error := AddDeclaration(nested, Review.Descriptor, false);
      if error.Some? || nested !in loader.approved {
        return;
      }
      if nested !in loader.snap.resolve {
        return Some(Missing);
      }
      accessed := accessed + {nested};
      error := EnterDescriptor(nested, depth);
    }

    method EnterDescriptor(nested: string, depth: nat) returns (error: Option<MediaError>)
      requires depth <= MAX_RECURSION_DEPTH && nested in loader.snap.resolve
      modifies this
      ensures active == old(active)
      ensures Walked(Review.EnterDescriptor(loader, old(State()), nested, depth, active), error)
      decreases MAX_RECURSION_DEPTH + 1 - depth, 0, 0
    {
      var file := loader.snap.resolve[nested];
      var kind := loader.snap.kind(nested);
      if kind == M3u {
        error := Collect(nested, file, depth + 1);
      } else {
        discCount := discCount + 1;
        error := AddDisc(nested, file, kind);
      }
      if error.None? && discCount > MAX_DISCS {
        return Some(TooManyDiscs);
      }
    }
  }

  class Collector {
    const snap: Snapshot
    var activePlaylists: set<FileId>
    var references: seq<string>
    var discCount: nat

    constructor (snap: Snapshot)
      ensures this.snap == snap && State() == Hash.Hashing([], 0) && activePlaylists == {}
    {
      this.snap := snap;
      activePlaylists, references, discCount := {}, [], 0;
    }

    function State(): Hash.Hashing
      reads this
    {
      Hash.Hashing(references, discCount)
    }

    ghost predicate Listed(r: Result<Hash.Hashing>, error: Option<MediaError>)
      reads this
    {
      match r
      case Ok(h) => error == None && State() == h
      case Err(e) => error == Some(e)
    }

    method AddReference(name: string) returns (error: Option<MediaError>)
      modifies this`references
      ensures Listed(Hash.AddReference(old(State()), name), error)
    {
      if |references| >= MAX_GRAPH_MEMBERS - 1 {
        return Some(TooManyMembers);
      }
      references := references + [name];
      return None;
    }

    method AddReferences(owner: string, names: seq<string>) returns (error: Option<MediaError>)
      modifies this`references
      ensures Listed(Hash.AddReferences(old(State()), owner, names), error)
    {
      ghost var goal := Hash.AddReferences(State(), owner, names);
      var i := 0;
      assert names[0..] == names;
      while i < |names|
        invariant i <= |names|
        invariant Hash.AddReferences(State(), owner, names[i..]) == goal
      {
        error := AddReference(Hash.HashJoin(owner, names[i]));
        if error.Some? {
          return;
        }
        assert names[i..][1..] == names[i + 1..];
        i := i + 1;
      }
      return None;
    }

    method CollectRoot(entry: FileId) returns (error: Option<MediaError>)
      requires State() == Hash.Hashing([], 0) && activePlaylists == {}
      modifies this
      ensures activePlaylists == {}
      ensures Listed(Hash.CollectRoot(snap, entry), error)
    {
      activePlaylists := activePlaylists + {entry};
      assert activePlaylists == {entry} && State() == Hash.Hashing([], 0);
      error := CollectContents("", entry, 0);
      activePlaylists := activePlaylists - {entry};
    }

    method CollectNested(playlist: string, depth: nat) returns (error: Option<MediaError>)
      requires depth <= MAX_RECURSION_DEPTH + 1
      modifies this
      ensures activePlaylists == old(activePlaylists)
      ensures Listed(Hash.CollectNested(snap, old(State()), playlist, depth, activePlaylists), error)
      decreases MAX_RECURSION_DEPTH + 1 - depth, 3
    {
      if depth > MAX_RECURSION_DEPTH {
        return Some(TooDeep);
      }
      if playlist !in snap.resolve {
        return Some(Missing);
      }
      var file := snap.resolve[playlist];
      if file in activePlaylists {
        return Some(Cycle);
      }
      ghost var before := activePlaylists;
      activePlaylists := activePlaylists + {file};
      error := CollectContents(playlist, file, depth);
      activePlaylists := activePlaylists - {file};
      assert activePlaylists == before;
    }

    method CollectContents(playlist: string, file: FileId, depth: nat) returns (error: Option<MediaError>)
      requires depth <= MAX_RECURSION_DEPTH
      modifies this
      ensures activePlaylists == old(activePlaylists)
      ensures Listed(Hash.CollectContents(snap, old(State()), playlist, file, depth, activePlaylists), error)
      decreases MAX_RECURSION_DEPTH + 1 - depth, 2
    {
      if file !in snap.lines {
        return Some(Malformed);
      }
      var lines := snap.lines[file];
      ghost var goal := Hash.CollectLines(snap, State(), playlist, lines, depth, activePlaylists);
      var foundEntry := false;
      var i := 0;
      assert lines[0..] == lines;
      while i < |lines|
        invariant i <= |lines| && activePlaylists == old(activePlaylists)
        invariant foundEntry <==> i > 0
        invariant Hash.CollectLines(snap, State(), playlist, lines[i..], depth, activePlaylists) == goal
      {
        foundEntry := true;
        error := CollectLine(playlist, lines[i], depth);
        if error.Some? {
          return;
        }
        assert lines[i..][1..] == lines[i + 1..];
        i := i + 1;
      }
      return if foundEntry then None else Some(Malformed);
    }

    method CollectLine(playlist: string, line: string, depth: nat) returns (error: Option<MediaError>)
      requires depth <= MAX_RECURSION_DEPTH
      modifies this
      ensures activePlaylists == old(activePlaylists)
      ensures Listed(Hash.CollectLine(snap, old(State()), playlist, line, depth, activePlaylists), error)
      decreases MAX_RECURSION_DEPTH + 1 - depth, 0, 1
    {
      if !snap.portable(line) {
        return Some(NotPortable);
      }
      var nested := Hash.HashJoin(playlist, line);
      if !snap.portable(nested) {
        return Some(NotPortable);
      }
      if nested !in snap.resolve {
        return Some(Missing);
      }
      error := AddReference(nested);
      if error.None? {
        error := CollectMember(nested, depth);
      }
    }

    method CollectMember(nested: string, depth: nat) returns (error: Option<MediaError>)
      requires depth <= MAX_RECURSION_DEPTH && nested in snap.resolve
      modifies this
      ensures activePlaylists == old(activePlaylists)
      ensures Listed(Hash.CollectMember(snap, old(State()), nested, depth, activePlaylists), error)
      decreases MAX_RECURSION_DEPTH + 1 - depth, 0, 0
    {
      var file := snap.resolve[nested];
      var kind := snap.fileKind(file);
      if kind == M3u {
        error := CollectNested(nested, depth + 1);
      } else if kind == Gdi || kind == OtherKind {
        return Some(NotADescriptor);
      } else {
        discCount := discCount + 1;
        var members := Hash.LoaderMembers(snap, file, kind);
        if members.Err? {
          return Some(members.error);
        }
        error := AddReferences(nested, members.value);
      }
      if error.None? && discCount > MAX_DISCS {
        return Some(TooManyDiscs);
      }
    }
  }
}
