/** Input movies, one pressed-button set a row, and the canonical form a recording is stored in. */
module InputMovie {

  import opened Base
  import opened Text
  import Ordered

  datatype MovieFrame = MovieFrame(frame: nat, buttons: seq<string>, axes: map<string, int>)

  /** What a controller row in JSON stands for. */
  datatype ControllerRow = ControllerRow(buttons: seq<string>, axes: map<string, int>)

  /** Reads a controller row; its grammar is that of the JSON library. */
  type Json = string -> Option<ControllerRow>

  function NonEmpty(names: seq<string>): seq<string> {
    if names == [] then []
    else (if names[0] == "" then [] else [names[0]]) + NonEmpty(names[1..])
  }

  function Names(parts: seq<string>): seq<string> {
    seq(|parts|, i requires 0 <= i < |parts| => Lower(Trim(parts[i])))
  }

  function ParseState(text: string, json: Json): Option<ControllerRow> {
    if TrimStart(text) != "" && TrimStart(text)[0] == '{' then json(text)
    else Some(ControllerRow(NonEmpty(Names(Split(text, ','))), map[]))
  }

  function ParseRow(line: string, json: Json): Option<MovieFrame> {
    var colon := Find(line, ':');
    if colon == |line| then None
    else
      var frame, state := ParseU64(Trim(line[..colon])), ParseState(line[colon + 1..], json);
      if frame.None? || state.None? then None
      else Some(MovieFrame(frame.value, state.value.buttons, state.value.axes))
  }

  function RowOf(line: string): seq<string> {
    if Trim(line) == "" then [] else [Trim(line)]
  }

  /** The rows of a text that are not blank, without the white space around them. */
  function Rows(lines: seq<string>): seq<string> {
    if lines == [] then [] else RowOf(lines[0]) + Rows(lines[1..])
  }

  function AddRow(front: Option<seq<MovieFrame>>, last: Option<MovieFrame>): Option<seq<MovieFrame>> {
    if last.None? || front.None? then None else Some(front.value + [last.value])
  }

  function ParseRows(rows: seq<string>, json: Json): Option<seq<MovieFrame>> {
    if rows == [] then Some([])
    else AddRow(ParseRows(rows[..|rows| - 1], json), ParseRow(rows[|rows| - 1], json))
  }

  function Insert(f: MovieFrame, s: seq<MovieFrame>): (r: seq<MovieFrame>)
    ensures multiset(r) == multiset(s) + multiset{f}
  {
    if s == [] || s[|s| - 1].frame <= f.frame then s + [f]
    else
      assert s == s[..|s| - 1] + [s[|s| - 1]];
      Insert(f, s[..|s| - 1]) + [s[|s| - 1]]
  }

  /** Rows by frame; rows of one frame keep their order. */
  function SortByFrame(s: seq<MovieFrame>): (r: seq<MovieFrame>)
    ensures multiset(r) == multiset(s)
  {
    if s == [] then []
    else
      assert s == s[..|s| - 1] + [s[|s| - 1]];
      Insert(s[|s| - 1], SortByFrame(s[..|s| - 1]))
  }

  const USIZE_MAX: nat := U64_MAX

  function ParseMovie(text: string, maxRows: nat, json: Json): Option<seq<MovieFrame>> {
    var rows := Rows(Lines(text));
    var frames := ParseRows(rows, json);
    if |rows| > maxRows || frames.None? then None else Some(SortByFrame(frames.value))
  }

  // ------------------------------------------------------------------- canonical movies

  predicate IsButtonChar(c: char) {
    'a' <= c <= 'z' || IsDigit(c) || c == '_' || c == '+' || c == '-'
  }

  predicate IsButton(name: string) {
    name != "" && forall i :: 0 <= i < |name| ==> IsButtonChar(name[i])
  }

  /** The characters a button may be written in. */
  lemma ButtonCharIs(c: char)
    ensures IsButtonChar(c) <==> c in "abcdefghijklmnopqrstuvwxyz0123456789_+-"
  {
    var all := "abcdefghijklmnopqrstuvwxyz0123456789_+-";
    assert all == "abcdefghijklmnopqrstuvwxyz" + "0123456789" + "_+-";
    LetterIs(c);
    DigitIs(c);
  }

  lemma LetterIs(c: char)
    ensures 'a' <= c <= 'z' <==> c in "abcdefghijklmnopqrstuvwxyz"
  {
    assert 'a' <= c <= 'z' ==> "abcdefghijklmnopqrstuvwxyz"[c as int - 'a' as int] == c;
  }

  lemma DigitIs(c: char)
    ensures IsDigit(c) <==> c in "0123456789"
  {
    assert IsDigit(c) ==> "0123456789"[c as int - '0' as int] == c;
  }

  predicate Distinct(names: seq<string>) {
    forall i, j :: 0 <= i < j < |names| ==> names[i] != names[j]
  }

  /** A frame that may be recorded at its index. */
  predicate Recordable(f: MovieFrame, index: nat, maxButtons: nat) {
    && f.frame == index && |f.buttons| <= maxButtons && f.axes == map[]
    && Distinct(f.buttons) && forall i :: 0 <= i < |f.buttons| ==> IsButton(f.buttons[i])
  }

  predicate AllRecordable(movie: seq<MovieFrame>, maxButtons: nat) {
    forall i :: 0 <= i < |movie| ==> Recordable(movie[i], i, maxButtons)
  }

  function CanonicalFrame(f: MovieFrame): MovieFrame {
    f.(buttons := Ordered.Ascending(Ordered.Elements(f.buttons)))
  }

  function CanonicalFrames(movie: seq<MovieFrame>): seq<MovieFrame> {
    seq(|movie|, i requires 0 <= i < |movie| => CanonicalFrame(movie[i]))
  }

  function RowText(f: MovieFrame): string {
    Format(f.frame) + ":" + Join(f.buttons, ',')
  }

  function MovieText(movie: seq<MovieFrame>): string {
    if movie == [] then "" else RowText(movie[0]) + "\n" + MovieText(movie[1..])
  }

  datatype CanonicalMovie = CanonicalMovie(movie: seq<MovieFrame>, text: string)

  function CanonicalOf(movie: seq<MovieFrame>, frames: nat, maxButtons: nat): Option<CanonicalMovie> {
    if frames == 0 || |movie| != frames || !AllRecordable(movie, maxButtons) then None
    else Some(CanonicalMovie(CanonicalFrames(movie), MovieText(CanonicalFrames(movie))))
  }

  function CanonicalRecording(text: string, frames: nat, maxButtons: nat, json: Json): Option<CanonicalMovie> {
    var movie := ParseMovie(text, USIZE_MAX, json);
    if movie.None? then None else CanonicalOf(movie.value, frames, maxButtons)
  }

  // ------------------------------------------------------------------- order of the rows

  predicate SortedByFrame(s: seq<MovieFrame>) {
    forall i, j :: 0 <= i < j < |s| ==> s[i].frame <= s[j].frame
  }

  lemma {:induction false} InsertSorted(f: MovieFrame, s: seq<MovieFrame>)
    requires SortedByFrame(s)
    ensures SortedByFrame(Insert(f, s))
  {
    if s != [] && s[|s| - 1].frame > f.frame {
      var front, last := s[..|s| - 1], s[|s| - 1];
      InsertSorted(f, front);
      var r := Insert(f, front);
      forall i | 0 <= i < |r| ensures r[i].frame <= last.frame {
        assert r[i] in multiset(r);
        assert r[i] in front || r[i] == f;
      }
    }
  }

  lemma {:induction false} SortSorts(s: seq<MovieFrame>)
    ensures SortedByFrame(SortByFrame(s))
  {
    if s != [] {
      SortSorts(s[..|s| - 1]);
      InsertSorted(s[|s| - 1], SortByFrame(s[..|s| - 1]));
    }
  }

  function OfFrame(s: seq<MovieFrame>, n: nat): seq<MovieFrame> {
    if s == [] then []
    else OfFrame(s[..|s| - 1], n) + if s[|s| - 1].frame == n then [s[|s| - 1]] else []
  }

  lemma OfFrameSnoc(s: seq<MovieFrame>, f: MovieFrame, n: nat)
    ensures OfFrame(s + [f], n) == OfFrame(s, n) + if f.frame == n then [f] else []
  {
    assert (s + [f])[..|s|] == s;
  }

  lemma {:induction false} InsertStable(f: MovieFrame, s: seq<MovieFrame>, n: nat)
    requires SortedByFrame(s)
    ensures OfFrame(Insert(f, s), n) == OfFrame(s + [f], n)
  {
    OfFrameSnoc(s, f, n);
    if s != [] && s[|s| - 1].frame > f.frame {
      var front, last := s[..|s| - 1], s[|s| - 1];
      InsertStable(f, front, n);
      OfFrameSnoc(front, f, n);
      OfFrameSnoc(Insert(f, front), last, n);
      EitherEmpty(OfFrame(front, n), if f.frame == n then [f] else [], if last.frame == n then [last] else []);
    } else {
      assert Insert(f, s) == s + [f];
    }
  }

  lemma EitherEmpty<T>(a: seq<T>, b: seq<T>, c: seq<T>)
    requires b == [] || c == []
    ensures a + b + c == a + c + b
  {
  }

  /** Rows of one frame keep the order they were written in. */
  lemma {:induction false} SortIsStable(s: seq<MovieFrame>, n: nat)
    ensures OfFrame(SortByFrame(s), n) == OfFrame(s, n)
  {
    if s != [] {
      var front, last := s[..|s| - 1], s[|s| - 1];
      SortIsStable(front, n);
      SortSorts(front);
      InsertStable(last, SortByFrame(front), n);
      OfFrameSnoc(SortByFrame(front), last, n);
    }
  }

  predicate Dense(s: seq<MovieFrame>) {
    forall i :: 0 <= i < |s| ==> s[i].frame == i
  }

  lemma SameMembers<T>(s: seq<T>, t: seq<T>)
    requires multiset(s) == multiset(t)
    ensures |s| == |t| && forall x :: x in s <==> x in t
  {
    assert |s| == |multiset(s)| == |multiset(t)| == |t|;
    forall x | x in s ensures x in t {
      assert x in multiset(t);
    }
    forall x | x in t ensures x in s {
      assert x in multiset(s);
    }
  }

  lemma FrontCounts<T>(s: seq<T>)
    requires s != []
    ensures multiset(s[..|s| - 1]) == multiset(s) - multiset{s[|s| - 1]}
  {
    assert s == s[..|s| - 1] + [s[|s| - 1]];
  }

  lemma DropLast<T>(s: seq<T>, t: seq<T>)
    requires multiset(s) == multiset(t) && s != [] && t != [] && s[|s| - 1] == t[|t| - 1]
    ensures multiset(s[..|s| - 1]) == multiset(t[..|t| - 1])
  {
    FrontCounts(s);
    FrontCounts(t);
  }

  /** Rows numbered densely from zero have only one order by frame. */
  lemma {:induction false} DenseOrderUnique(s: seq<MovieFrame>, t: seq<MovieFrame>)
    requires Dense(s) && SortedByFrame(t) && multiset(s) == multiset(t)
    ensures s == t
    decreases |s|
  {
    SameMembers(s, t);
    if s != [] {
      var n := |s| - 1;
      LastAgrees(s, t);
      DropLast(s, t);
      DenseOrderUnique(s[..n], t[..n]);
      Unsnoc(s);
      Unsnoc(t);
    }
  }

  lemma LastAgrees(s: seq<MovieFrame>, t: seq<MovieFrame>)
    requires Dense(s) && SortedByFrame(t) && |s| == |t| > 0 && forall x :: x in s <==> x in t
    ensures s[|s| - 1] == t[|t| - 1]
  {
    var n := |s| - 1;
    assert s[n] in t && t[n] in s;
    var k :| 0 <= k < |t| && t[k] == s[n];
    assert t[n].frame >= n;
  }

  lemma Unsnoc<T>(s: seq<T>)
    requires s != []
    ensures s == s[..|s| - 1] + [s[|s| - 1]]
  {
  }

  function Without<T>(s: seq<T>, k: nat): seq<T>
    requires k < |s|
  {
    s[..k] + s[k + 1..]
  }

  lemma WithoutCounts<T>(s: seq<T>, k: nat)
    requires k < |s|
    ensures multiset(Without(s, k)) == multiset(s) - multiset{s[k]}
  {
    assert s == s[..k] + [s[k]] + s[k + 1..];
  }

  lemma WithoutFront<T>(s: seq<T>, k: nat)
    requires k < |s| - 1
    ensures Without(s, k) == Without(s[..|s| - 1], k) + [s[|s| - 1]]
  {
  }

  /** `a` holds the frames of `b` and one more. */
  predicate OneMore(a: Option<seq<MovieFrame>>, b: Option<seq<MovieFrame>>, f: Option<MovieFrame>) {
    && (a.Some? <==> b.Some? && f.Some?)
    && (a.Some? ==> multiset(a.value) == multiset(b.value) + multiset{f.value})
  }

  lemma OneMoreAdded(a: Option<seq<MovieFrame>>, b: Option<seq<MovieFrame>>, f: Option<MovieFrame>,
                     last: Option<MovieFrame>)
    requires OneMore(a, b, f)
    ensures OneMore(AddRow(a, last), AddRow(b, last), f)
  {
  }

  lemma OneMoreLast(b: Option<seq<MovieFrame>>, f: Option<MovieFrame>)
    ensures OneMore(AddRow(b, f), b, f)
  {
  }

  lemma ParseSnoc(rows: seq<string>, front: seq<string>, last: string, json: Json)
    requires rows == front + [last]
    ensures ParseRows(rows, json) == AddRow(ParseRows(front, json), ParseRow(last, json))
  {
    assert rows[..|rows| - 1] == front;
  }

  /** Taking a row out takes out its frame. */
  lemma {:induction false} ParseWithout(rows: seq<string>, k: nat, json: Json)
    requires k < |rows|
    ensures OneMore(ParseRows(rows, json), ParseRows(Without(rows, k), json), ParseRow(rows[k], json))
  {
    var front, last := rows[..|rows| - 1], rows[|rows| - 1];
    Unsnoc(rows);
    ParseSnoc(rows, front, last, json);
    if k < |front| {
      var rest := Without(front, k);
      ParseWithout(front, k, json);
      WithoutFront(rows, k);
      ParseSnoc(Without(rows, k), rest, last, json);
      OneMoreAdded(ParseRows(front, json), ParseRows(rest, json), ParseRow(rows[k], json), ParseRow(last, json));
    } else {
      assert Without(rows, k) == front;
      OneMoreLast(ParseRows(front, json), ParseRow(last, json));
    }
  }

  lemma {:induction false} ParsePermuted(a: seq<string>, b: seq<string>, json: Json)
    requires multiset(a) == multiset(b)
    ensures ParseRows(a, json).Some? <==> ParseRows(b, json).Some?
    ensures ParseRows(a, json).Some? ==> multiset(ParseRows(a, json).value) == multiset(ParseRows(b, json).value)
    decreases |a|
  {
    SameMembers(a, b);
    if a != [] {
      var n := |a| - 1;
      assert a[n] in b;
      var k :| 0 <= k < |b| && b[k] == a[n];
      assert Without(a, n) == a[..n];
      WithoutCounts(a, n);
      WithoutCounts(b, k);
      ParsePermuted(a[..n], Without(b, k), json);
      ParseWithout(b, k, json);
      ParseWithout(a, n, json);
    }
  }

  lemma RecordableIsDense(movie: seq<MovieFrame>, maxButtons: nat)
    requires AllRecordable(movie, maxButtons)
    ensures Dense(movie)
  {
  }

  /** One direction of the law below. */
  lemma PermutedRecords(a: string, b: string, frames: nat, maxButtons: nat, json: Json)
    requires multiset(Rows(Lines(a))) == multiset(Rows(Lines(b)))
    requires CanonicalRecording(a, frames, maxButtons, json).Some?
    ensures CanonicalRecording(b, frames, maxButtons, json) == CanonicalRecording(a, frames, maxButtons, json)
  {
    var ra, rb := Rows(Lines(a)), Rows(Lines(b));
    SameMembers(ra, rb);
    ParsePermuted(ra, rb, json);
    var fa, fb := ParseRows(ra, json).value, ParseRows(rb, json).value;
    SortSorts(fb);
    RecordableIsDense(SortByFrame(fa), maxButtons);
    DenseOrderUnique(SortByFrame(fa), SortByFrame(fb));
  }

  /** Texts with the same rows in any order are recorded alike, or are both refused. */
  lemma OrderOfRowsIsImmaterial(a: string, b: string, frames: nat, maxButtons: nat, json: Json)
    requires multiset(Rows(Lines(a))) == multiset(Rows(Lines(b)))
    ensures CanonicalRecording(a, frames, maxButtons, json) == CanonicalRecording(b, frames, maxButtons, json)
  {
    if CanonicalRecording(a, frames, maxButtons, json).Some? {
      PermutedRecords(a, b, frames, maxButtons, json);
    } else if CanonicalRecording(b, frames, maxButtons, json).Some? {
      PermutedRecords(b, a, frames, maxButtons, json);
    }
  }

  // -------------------------------------------------------------------------- round trip

  lemma ButtonIsPlain(name: string)
    requires IsButton(name)
    ensures Lower(Trim(name)) == name && ',' !in name && '\n' !in name
    ensures !IsWhite(name[0]) && !IsWhite(name[|name| - 1]) && name[0] != '{'
  {
    assert IsButtonChar(name[0]) && IsButtonChar(name[|name| - 1]);
    TrimNothing(name);
    assert forall i :: 0 <= i < |name| ==> LowerChar(name[i]) == name[i];
  }

  predicate AllButtons(names: seq<string>) {
    forall i :: 0 <= i < |names| ==> IsButton(names[i])
  }

  lemma {:induction false} NonEmptyOfButtons(names: seq<string>)
    requires AllButtons(names)
    ensures NonEmpty(names) == names
  {
    if names != [] {
      NonEmptyOfButtons(names[1..]);
      assert names == [names[0]] + names[1..];
    }
  }

  lemma NamesOfButtons(names: seq<string>)
    requires AllButtons(names)
    ensures Names(names) == names
  {
    forall i | 0 <= i < |names| ensures Lower(Trim(names[i])) == names[i] {
      ButtonIsPlain(names[i]);
    }
  }

  /** A joined button list has no white space at its ends and no line break, and is no JSON. */
  lemma {:induction false} JoinedButtons(names: seq<string>)
    requires AllButtons(names)
    ensures var t := Join(names, ',');
      && '\n' !in t && (t != "" ==> !IsWhite(t[0]) && t[0] != '{' && !IsWhite(t[|t| - 1]))
      && (t == "" <==> names == [])
  {
    if names != [] {
      ButtonIsPlain(names[0]);
      JoinedButtons(names[1..]);
    }
  }

  lemma StateRoundTrip(names: seq<string>, json: Json)
    requires AllButtons(names)
    ensures ParseState(Join(names, ','), json) == Some(ControllerRow(names, map[]))
  {
    var t := Join(names, ',');
    JoinedButtons(names);
    TrimNothing(t);
    if names == [] {
      assert Split(t, ',') == [""];
      assert Names([""]) == [""];
    } else {
      forall p | p in names ensures ',' !in p {
        ButtonIsPlain(p);
      }
      SplitJoin(names, ',');
      NamesOfButtons(names);
      NonEmptyOfButtons(names);
    }
  }

  predicate IsCanonicalFrame(f: MovieFrame) {
    f.frame <= U64_MAX && AllButtons(f.buttons) && f.axes == map[]
  }

  lemma NumberIsPlain(n: nat)
    ensures var t := Format(n); ':' !in t && '\n' !in t && !IsWhite(t[0]) && Trim(t) == t
  {
    var t := Format(n);
    assert IsDigit(t[0]) && IsDigit(t[|t| - 1]);
    TrimNothing(t);
  }

  lemma RowIsPlain(f: MovieFrame)
    requires IsCanonicalFrame(f)
    ensures var t := RowText(f); t != "" && Trim(t) == t && StripReturn(t) == t && '\n' !in t
  {
    NumberIsPlain(f.frame);
    JoinedButtons(f.buttons);
    var t, buttons := RowText(f), Join(f.buttons, ',');
    assert t[|t| - 1] == if buttons == "" then ':' else buttons[|buttons| - 1];
    TrimNothing(t);
  }

  lemma RowRoundTrip(f: MovieFrame, json: Json)
    requires IsCanonicalFrame(f)
    ensures ParseRow(RowText(f), json) == Some(f)
  {
    NumberIsPlain(f.frame);
    ParseOfFormat(f.frame);
    FindIn(Format(f.frame), ':', Join(f.buttons, ','));
    StateRoundTrip(f.buttons, json);
  }

  function RowTexts(movie: seq<MovieFrame>): seq<string> {
    seq(|movie|, i requires 0 <= i < |movie| => RowText(movie[i]))
  }

  predicate IsCanonical(movie: seq<MovieFrame>) {
    forall i :: 0 <= i < |movie| ==> IsCanonicalFrame(movie[i])
  }

  lemma LineCut(row: string, rest: string)
    requires '\n' !in row
    ensures Lines(row + "\n" + rest) == [StripReturn(row)] + Lines(rest)
  {
    FindIn(row, '\n', rest);
  }

  lemma RowsCons(row: string, lines: seq<string>)
    requires Trim(row) == row && row != ""
    ensures Rows([row] + lines) == [row] + Rows(lines)
  {
    assert ([row] + lines)[1..] == lines;
  }

  lemma RowTextsCons(movie: seq<MovieFrame>)
    requires movie != []
    ensures RowTexts(movie) == [RowText(movie[0])] + RowTexts(movie[1..])
  {
  }

  /** A name written with any white space around it and in any case. */
  ghost predicate Tidies(part: string, name: string) {
    exists w, core, v :: Padded(part, w, core, v) && name == Lower(core)
  }

  predicate Padded(part: string, w: string, core: string, v: string) {
    part == w + core + v && Blank(w) && Blank(v) && Bare(core)
  }

  lemma TidyName(part: string, name: string)
    requires Tidies(part, name)
    ensures Lower(Trim(part)) == name
  {
    var w, core, v :| Padded(part, w, core, v) && name == Lower(core);
    TrimPadded(w, core, v);
  }

  lemma BlankNumber(pre: string, n: nat, post: string)
    requires Blank(pre) && Blank(post)
    ensures Trim(pre + Format(n) + post) == Format(n) && ':' !in pre + Format(n) + post
  {
    TrimPadded(pre, Format(n), post);
  }

  /**
    A row may be written loosely: white space around the frame and around every name, any
    case, names left empty. It is read as the same frame with the tidy names.
  */
  lemma LooseRowIsRead(pre: string, n: nat, post: string, parts: seq<string>, names: seq<string>, json: Json)
    requires Blank(pre) && Blank(post) && n <= U64_MAX && |parts| == |names| > 0
    requires forall i :: 0 <= i < |parts| ==> ',' !in parts[i] && Tidies(parts[i], names[i])
    requires var state := TrimStart(Join(parts, ',')); state == "" || state[0] != '{'
    ensures ParseRow(pre + Format(n) + post + ":" + Join(parts, ','), json) ==
      Some(MovieFrame(n, NonEmpty(names), map[]))
  {
    var head, state := pre + Format(n) + post, Join(parts, ',');
    BlankNumber(pre, n, post);
    assert head + ":" + state == head + [':'] + state;
    FindIn(head, ':', state);
    ParseOfFormat(n);
    SplitJoin(parts, ',');
    forall i | 0 <= i < |parts| ensures Lower(Trim(parts[i])) == names[i] {
      TidyName(parts[i], names[i]);
    }
    assert Names(parts) == names;
  }

  lemma RowTextsSnoc(movie: seq<MovieFrame>)
    requires movie != []
    ensures var n := |movie| - 1;
      RowTexts(movie)[..n] == RowTexts(movie[..n]) && RowTexts(movie)[n] == RowText(movie[n])
  {
  }

  lemma {:induction false} LinesOfMovie(movie: seq<MovieFrame>)
    requires IsCanonical(movie)
    ensures Rows(Lines(MovieText(movie))) == RowTexts(movie)
  {
    if movie != [] {
      var row, rest := RowText(movie[0]), MovieText(movie[1..]);
      RowIsPlain(movie[0]);
      LinesOfMovie(movie[1..]);
      RowTextsCons(movie);
      LineCut(row, rest);
      RowsCons(row, Lines(rest));
    }
  }

  lemma {:induction false} RowsRoundTrip(movie: seq<MovieFrame>, json: Json)
    requires IsCanonical(movie)
    ensures ParseRows(RowTexts(movie), json) == Some(movie)
  {
    if movie != [] {
      var n := |movie| - 1;
      RowsRoundTrip(movie[..n], json);
      RowRoundTrip(movie[n], json);
      RowTextsSnoc(movie);
      Unsnoc(movie);
    }
  }

  lemma MovieRoundTrip(movie: seq<MovieFrame>, json: Json)
    requires IsCanonical(movie) && Dense(movie) && |movie| <= USIZE_MAX
    ensures ParseMovie(MovieText(movie), USIZE_MAX, json) == Some(movie)
  {
    LinesOfMovie(movie);
    RowsRoundTrip(movie, json);
    SortSorts(movie);
    DenseOrderUnique(movie, SortByFrame(movie));
  }

  lemma DistinctAscending(names: seq<string>)
    requires Distinct(names)
    ensures |Ordered.Ascending(Ordered.Elements(names))| == |names|
  {
    DistinctCount(names);
  }

  lemma {:induction false} DistinctCount(names: seq<string>)
    requires Distinct(names)
    ensures |Ordered.Elements(names)| == |names|
  {
    if names != [] {
      DistinctCount(names[1..]);
      Ordered.ElementsCons(names[0], names[1..]);
      assert names == [names[0]] + names[1..];
      assert names[0] !in names[1..];
    }
  }

  lemma SortedDistinct(names: seq<string>)
    requires Ordered.StrictlySorted(names)
    ensures Distinct(names)
  {
    forall i, j | 0 <= i < j < |names| ensures names[i] != names[j] {
      Ordered.LessIrreflexive(names[i]);
    }
  }

  /** A frame's canonical form can be recorded at the same index, and is its own canonical form. */
  lemma CanonicalFrameRecordable(f: MovieFrame, index: nat, maxButtons: nat)
    requires Recordable(f, index, maxButtons)
    ensures Recordable(CanonicalFrame(f), index, maxButtons)
    ensures CanonicalFrame(CanonicalFrame(f)) == CanonicalFrame(f)
  {
    var names := Ordered.Elements(f.buttons);
    var sorted := Ordered.Ascending(names);
    DistinctAscending(f.buttons);
    Ordered.AscendingSorted(names);
    SortedDistinct(sorted);
    forall i | 0 <= i < |sorted| ensures IsButton(sorted[i]) {
      assert sorted[i] in Ordered.Elements(sorted);
    }
  }

  lemma CanonicalFramesRecordable(movie: seq<MovieFrame>, maxButtons: nat)
    requires AllRecordable(movie, maxButtons) && |movie| <= U64_MAX
    ensures AllRecordable(CanonicalFrames(movie), maxButtons) && IsCanonical(CanonicalFrames(movie))
    ensures CanonicalFrames(CanonicalFrames(movie)) == CanonicalFrames(movie)
  {
    forall i | 0 <= i < |movie|
      ensures Recordable(CanonicalFrame(movie[i]), i, maxButtons)
      ensures CanonicalFrame(CanonicalFrame(movie[i])) == CanonicalFrame(movie[i])
    {
      CanonicalFrameRecordable(movie[i], i, maxButtons);
    }
  }

  /**
    The canonical text of a recording parses to exactly the canonical movie, and recording it
    again under the same limits changes nothing.
  */
  lemma CanonicalRoundTrip(text: string, frames: nat, maxButtons: nat, json: Json, json': Json)
    requires frames <= U64_MAX
    ensures var r := CanonicalRecording(text, frames, maxButtons, json);
      r.Some? ==>
        && ParseMovie(r.value.text, USIZE_MAX, json') == Some(r.value.movie)
        && CanonicalRecording(r.value.text, frames, maxButtons, json') == r
  {
    var r := CanonicalRecording(text, frames, maxButtons, json);
    if r.Some? {
      var movie := ParseMovie(text, USIZE_MAX, json).value;
      CanonicalFramesRecordable(movie, maxButtons);
      RecordableIsDense(r.value.movie, maxButtons);
      MovieRoundTrip(r.value.movie, json');
    }
  }

  /** Recording keeps every frame's pressed buttons: each once, in order, none added or lost. */
  lemma CanonicalKeepsState(text: string, frames: nat, maxButtons: nat, json: Json, i: nat)
    requires CanonicalRecording(text, frames, maxButtons, json).Some? && i < frames
    ensures var movie := CanonicalRecording(text, frames, maxButtons, json).value.movie;
      var given := ParseMovie(text, USIZE_MAX, json).value;
      && |movie| == |given| == frames && movie[i].frame == given[i].frame == i
      && movie[i].axes == given[i].axes == map[]
      && Ordered.StrictlySorted(movie[i].buttons)
      && Ordered.Elements(movie[i].buttons) == Ordered.Elements(given[i].buttons)
      && |movie[i].buttons| == |given[i].buttons| <= maxButtons
  {
    var given := ParseMovie(text, USIZE_MAX, json).value;
    assert Recordable(given[i], i, maxButtons);
    DistinctAscending(given[i].buttons);
    Ordered.AscendingSorted(Ordered.Elements(given[i].buttons));
  }

  /** A movie is read exactly if it has no more rows than allowed and every row can be read. */
  lemma ParsedIff(text: string, maxRows: nat, json: Json)
    ensures var rows := Rows(Lines(text));
      ParseMovie(text, maxRows, json).Some? <==>
      |rows| <= maxRows && forall i :: 0 <= i < |rows| ==> ParseRow(rows[i], json).Some?
  {
    AllRowsParsed(Rows(Lines(text)), json);
  }

  lemma {:induction false} AllRowsParsed(rows: seq<string>, json: Json)
    ensures ParseRows(rows, json).Some? <==> forall i :: 0 <= i < |rows| ==> ParseRow(rows[i], json).Some?
  {
    hide ParseRow;
    if rows != [] {
      var front := rows[..|rows| - 1];
      AllRowsParsed(front, json);
      assert forall i :: 0 <= i < |front| ==> front[i] == rows[i];
    }
  }

  /** A recording is accepted exactly if it has the frames asked for, dense from zero, and only proper buttons. */
  lemma RecordedIff(text: string, frames: nat, maxButtons: nat, json: Json)
    ensures var movie := ParseMovie(text, USIZE_MAX, json);
      CanonicalRecording(text, frames, maxButtons, json).Some? <==>
      && movie.Some? && |movie.value| == frames > 0
      && forall i :: 0 <= i < frames ==> PlainFrame(movie.value[i], i, maxButtons)
  {
    hide ParseMovie, Recordable, PlainFrame;
    var movie := ParseMovie(text, USIZE_MAX, json);
    if movie.Some? && |movie.value| == frames {
      forall i | 0 <= i < frames
        ensures Recordable(movie.value[i], i, maxButtons) <==> PlainFrame(movie.value[i], i, maxButtons)
      {
        PlainIsRecordable(movie.value[i], i, maxButtons);
      }
    }
  }

  /** A frame at its own place, without axes, with a few buttons that differ and are plainly written. */
  ghost predicate PlainFrame(f: MovieFrame, i: nat, maxButtons: nat) {
    && f.frame == i && f.axes == map[] && |f.buttons| <= maxButtons
    && (forall j, k :: 0 <= j < |f.buttons| && 0 <= k < |f.buttons| && f.buttons[j] == f.buttons[k] ==> j == k)
    && (forall b :: b in f.buttons ==> b != "" && Plainly(b))
  }

  ghost predicate Plainly(b: string) {
    forall c :: c in b ==> c in "abcdefghijklmnopqrstuvwxyz0123456789_+-"
  }

  lemma PlainlyIsButton(b: string)
    ensures IsButton(b) <==> b != "" && Plainly(b)
  {
    forall c ensures IsButtonChar(c) <==> c in "abcdefghijklmnopqrstuvwxyz0123456789_+-" {
      ButtonCharIs(c);
    }
  }

  lemma PlainIsRecordable(f: MovieFrame, i: nat, maxButtons: nat)
    ensures Recordable(f, i, maxButtons) <==> PlainFrame(f, i, maxButtons)
  {
    hide IsButton, Plainly;
    forall b ensures IsButton(b) <==> b != "" && Plainly(b) {
      PlainlyIsButton(b);
    }
    if Distinct(f.buttons) {
      forall j, k | 0 <= j < |f.buttons| && 0 <= k < |f.buttons| && f.buttons[j] == f.buttons[k] ensures j == k {
        assert !(j < k) && !(k < j);
      }
    }
    assert forall k :: 0 <= k < |f.buttons| ==> f.buttons[k] in f.buttons;
  }

  /** Blank lines are no rows, and every other line is one without the white space around it. */
  lemma RowsOfLine(before: seq<string>, line: string, behind: seq<string>)
    ensures Rows(before + [line] + behind) ==
      Rows(before) + (if Trim(line) == "" then [] else [Trim(line)]) + Rows(behind)
    ensures Blank(line) ==> Trim(line) == ""
  {
    RowsAppend(before + [line], behind);
    RowsAppend(before, [line]);
    assert [line][1..] == [] && Rows([line]) == RowOf(line);
    if Blank(line) {
      TrimPadded(line, "", "");
      assert line + "" + "" == line;
    }
  }

  // --------------------------------------------------------------------- the two parsers

  lemma {:induction false} RowsAppend(a: seq<string>, b: seq<string>)
    ensures Rows(a + b) == Rows(a) + Rows(b)
  {
    if a == [] {
      assert a + b == b;
    } else {
      var rest := a[1..];
      RowsAppend(rest, b);
      TailOfSum(a, b);
      Associate(RowOf(a[0]), Rows(rest), Rows(b));
    }
  }

  lemma TailOfSum<T>(a: seq<T>, b: seq<T>)
    requires a != []
    ensures (a + b)[1..] == a[1..] + b && (a + b)[0] == a[0]
  {
  }

  lemma Associate<T>(a: seq<T>, b: seq<T>, c: seq<T>)
    ensures a + (b + c) == a + b + c
  {
  }

  lemma RowsSnoc(lines: seq<string>, i: nat)
    requires i < |lines|
    ensures Rows(lines[..i + 1]) == Rows(lines[..i]) + RowOf(lines[i])
  {
    assert lines[..i + 1] == lines[..i] + [lines[i]];
    RowsAppend(lines[..i], [lines[i]]);
  }

  lemma {:induction false} ParseRowsLength(rows: seq<string>, json: Json)
    ensures ParseRows(rows, json).Some? ==> |ParseRows(rows, json).value| == |rows|
  {
    if rows != [] {
      ParseRowsLength(rows[..|rows| - 1], json);
    }
  }

  lemma {:induction false} PrefixFails(a: seq<string>, b: seq<string>, json: Json)
    requires ParseRows(a, json).None?
    ensures ParseRows(a + b, json).None?
    decreases |b|
  {
    if b == [] {
      assert a + b == a;
    } else {
      PrefixFails(a, b[..|b| - 1], json);
      assert (a + b)[..|a + b| - 1] == a + b[..|b| - 1];
    }
  }

  lemma RowsOfPrefix(lines: seq<string>, i: nat)
    requires i <= |lines|
    ensures Rows(lines) == Rows(lines[..i]) + Rows(lines[i..])
  {
    var front, back := lines[..i], lines[i..];
    Halves(lines, i);
    RowsAppend(front, back);
  }

  lemma Halves<T>(s: seq<T>, i: nat)
    requires i <= |s|
    ensures s == s[..i] + s[i..]
  {
  }

  lemma ParseRowsSnoc(rows: seq<string>, row: string, json: Json)
    ensures ParseRows(rows + [row], json) == AddRow(ParseRows(rows, json), ParseRow(row, json))
  {
    assert (rows + [row])[..|rows|] == rows;
  }

  /** The rows of the first `i` lines hold these frames. */
  ghost predicate Parsed(lines: seq<string>, i: nat, frames: seq<MovieFrame>, json: Json)
    requires i <= |lines|
  {
    ParseRows(Rows(lines[..i]), json) == Some(frames)
  }

  lemma ParsedNone(lines: seq<string>, json: Json)
    ensures Parsed(lines, 0, [], json)
  {
  }

  lemma ParsedBlank(lines: seq<string>, i: nat, frames: seq<MovieFrame>, json: Json)
    requires i < |lines| && Parsed(lines, i, frames, json) && Trim(lines[i]) == ""
    ensures Parsed(lines, i + 1, frames, json)
  {
    RowsSnoc(lines, i);
    assert Rows(lines[..i]) + [] == Rows(lines[..i]);
  }

  lemma ParsedRow(lines: seq<string>, i: nat, frames: seq<MovieFrame>, json: Json)
    requires i < |lines| && Parsed(lines, i, frames, json)
    requires Trim(lines[i]) != "" && ParseRow(Trim(lines[i]), json).Some?
    ensures Parsed(lines, i + 1, frames + [ParseRow(Trim(lines[i]), json).value], json)
  {
    RowsSnoc(lines, i);
    ParseRowsSnoc(Rows(lines[..i]), Trim(lines[i]), json);
  }

  lemma ParsedAll(lines: seq<string>, frames: seq<MovieFrame>, json: Json)
    requires Parsed(lines, |lines|, frames, json)
    ensures ParseRows(Rows(lines), json) == Some(frames) && |Rows(lines)| == |frames|
  {
    assert lines[..|lines|] == lines;
    ParseRowsLength(Rows(lines), json);
  }

  /** The first bad row, or the first row too many, refuses the text. */
  lemma Refused(lines: seq<string>, i: nat, frames: seq<MovieFrame>, maxRows: nat, json: Json)
    requires i < |lines| && Parsed(lines, i, frames, json) && Trim(lines[i]) != ""
    requires ParseRow(Trim(lines[i]), json).None? || |frames| >= maxRows
    ensures |Rows(lines)| > maxRows || ParseRows(Rows(lines), json).None?
  {
    var front, upto := Rows(lines[..i]), Rows(lines[..i + 1]);
    RowsSnoc(lines, i);
    RowsOfPrefix(lines, i + 1);
    ParseRowsLength(front, json);
    if ParseRow(Trim(lines[i]), json).None? {
      ParseRowsSnoc(front, Trim(lines[i]), json);
      PrefixFails(upto, Rows(lines[i + 1..]), json);
    }
  }

  method ParseMovieBounded(text: string, maxRows: nat, json: Json) returns (r: Option<seq<MovieFrame>>)
    ensures r == ParseMovie(text, maxRows, json)
  {
    var lines := Lines(text);
    var frames: seq<MovieFrame> := [];
    ParsedNone(lines, json);
    for i := 0 to |lines|
      invariant Parsed(lines, i, frames, json) && |frames| <= maxRows
    {
      var line := Trim(lines[i]);
      if line == "" {
        ParsedBlank(lines, i, frames, json);
        continue;
      }
      var row := ParseRow(line, json);
      if row.None? || |frames| >= maxRows {
        Refused(lines, i, frames, maxRows, json);
        return None;
      }
      ParsedRow(lines, i, frames, json);
      frames := frames + [row.value];
    }
    ParsedAll(lines, frames, json);
    r := Some(SortByFrame(frames));
  }

  method CheckButtons(names: seq<string>) returns (seen: set<string>, ok: bool)
    ensures ok <==> Distinct(names) && AllButtons(names)
    ensures ok ==> seen == Ordered.Elements(names)
  {
    seen := {};
    for i := 0 to |names|
      invariant seen == set j | 0 <= j < i :: names[j]
      invariant forall j :: 0 <= j < i ==> IsButton(names[j])
      invariant forall j, k :: 0 <= j < k < i ==> names[j] != names[k]
    {
      if !IsButton(names[i]) || names[i] in seen {
        return seen, false;
      }
      seen := seen + {names[i]};
    }
    ok := true;
  }

  lemma {:induction false} MovieTextSnoc(movie: seq<MovieFrame>, f: MovieFrame)
    ensures MovieText(movie + [f]) == MovieText(movie) + RowText(f) + "\n"
  {
    if movie != [] {
      var head, rest := RowText(movie[0]) + "\n", movie[1..];
      MovieTextSnoc(rest, f);
      TailOfSum(movie, [f]);
      Associate(head, MovieText(rest), RowText(f) + "\n");
      Associate(MovieText(rest), RowText(f), "\n");
      Associate(MovieText(movie), RowText(f), "\n");
    } else {
      assert MovieText([]) == "" && (movie + [f])[1..] == [];
    }
  }

  /** The first `i` frames may be recorded, and `done` and `text` are their canonical form. */
  ghost predicate Recorded(movie: seq<MovieFrame>, i: nat, done: seq<MovieFrame>, text: string, maxButtons: nat)
    requires i <= |movie|
  {
    && AllRecordable(movie[..i], maxButtons)
    && done == CanonicalFrames(movie[..i]) && text == MovieText(done)
  }

  lemma RecordedStep(movie: seq<MovieFrame>, i: nat, done: seq<MovieFrame>, text: string, maxButtons: nat)
    requires i < |movie| && Recorded(movie, i, done, text, maxButtons) && Recordable(movie[i], i, maxButtons)
    ensures var f := CanonicalFrame(movie[i]); Recorded(movie, i + 1, done + [f], text + RowText(f) + "\n", maxButtons)
  {
    MovieTextSnoc(done, CanonicalFrame(movie[i]));
    CanonicalFramesSnoc(movie, i);
    RecordableSnoc(movie, i, maxButtons);
  }

  lemma CanonicalFramesSnoc(movie: seq<MovieFrame>, i: nat)
    requires i < |movie|
    ensures CanonicalFrames(movie[..i + 1]) == CanonicalFrames(movie[..i]) + [CanonicalFrame(movie[i])]
  {
  }

  lemma RecordableSnoc(movie: seq<MovieFrame>, i: nat, maxButtons: nat)
    requires i < |movie| && AllRecordable(movie[..i], maxButtons) && Recordable(movie[i], i, maxButtons)
    ensures AllRecordable(movie[..i + 1], maxButtons)
  {
    forall k | 0 <= k <= i ensures Recordable(movie[k], k, maxButtons) {
      assert k < i ==> movie[..i][k] == movie[k];
    }
  }

  lemma RecordedAll(movie: seq<MovieFrame>, done: seq<MovieFrame>, text: string, maxButtons: nat)
    requires Recorded(movie, |movie|, done, text, maxButtons)
    ensures AllRecordable(movie, maxButtons) && done == CanonicalFrames(movie) && text == MovieText(done)
  {
    assert movie[..|movie|] == movie;
  }

  /** Every frame's buttons are replaced in turn by their sorted set. */
  method RewriteFrames(movie: seq<MovieFrame>, maxButtons: nat) returns (r: Option<CanonicalMovie>)
    requires forall i :: 0 <= i < |movie| ==> movie[i].axes == map[]
    ensures r.Some? <==> AllRecordable(movie, maxButtons)
    ensures r.Some? ==> r.value.movie == CanonicalFrames(movie) && r.value.text == MovieText(r.value.movie)
  {
    var done: seq<MovieFrame> := [];
    var canonical := "";
    for i := 0 to |movie|
      invariant Recorded(movie, i, done, canonical, maxButtons)
    {
      if movie[i].frame != i || |movie[i].buttons| > maxButtons {
        assert !Recordable(movie[i], i, maxButtons);
        return None;
      }
      var seen, ok := CheckButtons(movie[i].buttons);
      if !ok {
        assert !Recordable(movie[i], i, maxButtons);
        return None;
      }
      RecordedStep(movie, i, done, canonical, maxButtons);
      var frame := movie[i].(buttons := Ordered.Ascending(seen));
      canonical := canonical + RowText(frame) + "\n";
      done := done + [frame];
    }
    RecordedAll(movie, done, canonical, maxButtons);
    r := Some(CanonicalMovie(done, canonical));
  }

  method CanonicalRecordingMovie(text: string, frames: nat, maxButtons: nat, json: Json)
    returns (r: Option<CanonicalMovie>)
    ensures r == CanonicalRecording(text, frames, maxButtons, json)
  {
    var parsed := ParseMovieBounded(text, USIZE_MAX, json);
    if parsed.None? || frames == 0 || |parsed.value| != frames {
      return None;
    }
    var movie := parsed.value;
    if exists i :: 0 <= i < |movie| && movie[i].axes != map[] {
      return None;
    }
    r := RewriteFrames(movie, maxButtons);
  }
}
