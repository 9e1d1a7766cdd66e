/**
  One fixed state of the file system as the media-graph code sees it: which portable names
  are regular members, which file each one really is, and what every descriptor parses to.
*/
module MediaSnapshot {

  import opened Base

  datatype MediaError =
    | NotPortable | TooManyMembers | TooMuchNameData | TooDeep | Cycle | NotADescriptor
    | Missing | Malformed | TooManyDiscs | Invalid

  datatype Result<+T> = Ok(value: T) | Err(error: MediaError) {
    predicate IsFailure() {
      Err?
    }

    function PropagateFailure<U>(): Result<U>
      requires Err?
    {
      Err(error)
    }

    function Extract(): T
      requires Ok?
    {
      value
    }
  }

  const MAX_GRAPH_MEMBERS := 256
  const MAX_DECLARED_NAME_BYTES := 48 * 1024
  const MAX_RECURSION_DEPTH := 9
  const MAX_DISCS := 25
  const MAX_REFERENCED_FILES := 255

  datatype Kind = M3u | Cue | Ccd | Toc | Gdi | OtherKind

  /** Canonical files are numbered; names are portable relative paths, one char per byte. */
  type FileId = nat

  datatype Snapshot = Snapshot(
    portable: string -> bool,
    kind: string -> Kind,
    resolve: map<string, FileId>,
    fileKind: FileId -> Kind,
    lines: map<FileId, seq<string>>,       // readable playlists: trimmed lines, no blanks or comments
    files: map<FileId, seq<string>>,       // parseable CUE, CCD, TOC and GDI descriptors: the names they declare
    sidecar: map<FileId, string>,          // the SBI name the Mednafen loader derives from a CUE path
    sidecarPresent: FileId -> bool,
    intact: FileId -> bool)                // every member the loader opens has an admissible size and header
  {
    /** Portable names are relative, and a member's canonical path keeps its extension. */
    ghost predicate Valid() {
      && (forall n :: portable(n) ==> n != "" && n[0] != '/')
      && (forall n :: n in resolve ==> fileKind(resolve[n]) == kind(n))
    }
  }

  function LastSlash(s: string): (i: int)
    ensures -1 <= i < |s|
    ensures i >= 0 ==> s[i] == '/'
    ensures forall j :: i < j < |s| ==> s[j] != '/'
  {
    if s == "" then -1
    else if s[|s| - 1] == '/' then |s| - 1
    else LastSlash(s[..|s| - 1])
  }

  /** The name of `child` seen from the entry directory when `owner` declares it. */
  function JoinName(owner: string, child: string): string {
    var slash := LastSlash(owner);
    if slash <= 0 then child else owner[..slash] + "/" + child
  }
}
