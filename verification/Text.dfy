/** The library string routines the modelled parsers are made of. */
module Text {

  import opened Base

  /** The first index that holds `c`, or the length. */
  function Find(s: string, c: char): (i: nat)
    ensures i <= |s| && c !in s[..i]
    ensures i < |s| ==> s[i] == c
  {
    if s == "" || s[0] == c then 0
    else
      var i := 1 + Find(s[1..], c);
      assert s[..i] == [s[0]] + s[1..][..i - 1];
      i
  }

  lemma {:induction false} FindIn(a: string, c: char, rest: string)
    requires c !in a
    ensures Find(a + [c] + rest, c) == |a|
    ensures (a + [c] + rest)[..|a|] == a && (a + [c] + rest)[|a| + 1..] == rest
  {
    var s := a + [c] + rest;
    if a != "" {
      FindIn(a[1..], c, rest);
      assert s[1..] == a[1..] + [c] + rest;
    }
  }

  lemma {:induction false} FindNone(s: string, c: char)
    requires c !in s
    ensures Find(s, c) == |s|
  {
    if s != "" {
      FindNone(s[1..], c);
    }
  }

  function Split(s: string, sep: char): seq<string>
    decreases |s|
  {
    var i := Find(s, sep);
    if i == |s| then [s] else [s[..i]] + Split(s[i + 1..], sep)
  }

  function Join(parts: seq<string>, sep: char): string {
    if parts == [] then ""
    else if |parts| == 1 then parts[0]
    else parts[0] + [sep] + Join(parts[1..], sep)
  }

  lemma {:induction false} SplitJoin(parts: seq<string>, sep: char)
    requires parts != [] && forall p :: p in parts ==> sep !in p
    ensures Split(Join(parts, sep), sep) == parts
  {
    if |parts| == 1 {
      FindNone(parts[0], sep);
    } else {
      FindIn(parts[0], sep, Join(parts[1..], sep));
      SplitJoin(parts[1..], sep);
    }
  }

  lemma {:induction false} JoinSplit(s: string, sep: char)
    ensures Split(s, sep) != [] && Join(Split(s, sep), sep) == s
    ensures forall p :: p in Split(s, sep) ==> sep !in p
    decreases |s|
  {
    var i := Find(s, sep);
    if i < |s| {
      JoinSplit(s[i + 1..], sep);
      assert s == s[..i] + [sep] + s[i + 1..];
    } else {
      assert s[..i] == s;
    }
  }

  predicate IsWhite(c: char) {
    || '\U{9}' <= c <= '\U{D}' || c == ' ' || c == '\U{85}' || c == '\U{A0}' || c == '\U{1680}'
    || '\U{2000}' <= c <= '\U{200A}' || c == '\U{2028}' || c == '\U{2029}' || c == '\U{202F}'
    || c == '\U{205F}' || c == '\U{3000}'
  }

  function TrimStart(s: string): string {
    if s != "" && IsWhite(s[0]) then TrimStart(s[1..]) else s
  }

  function TrimEnd(s: string): string {
    if s != "" && IsWhite(s[|s| - 1]) then TrimEnd(s[..|s| - 1]) else s
  }

  function Trim(s: string): string {
    TrimEnd(TrimStart(s))
  }

  lemma TrimNothing(s: string)
    requires s != "" ==> !IsWhite(s[0]) && !IsWhite(s[|s| - 1])
    ensures Trim(s) == s && TrimStart(s) == s
  {
  }

  /** White space is what Unicode calls so. */
  lemma WhiteIs(c: char)
    ensures IsWhite(c) <==> c as int in [9, 10, 11, 12, 13, 32, 133, 160, 5760, 8192, 8193, 8194, 8195, 8196, 8197,
      8198, 8199, 8200, 8201, 8202, 8232, 8233, 8239, 8287, 12288]
  {
    var all := [9, 10, 11, 12, 13, 32, 133, 160, 5760, 8192, 8193, 8194, 8195, 8196, 8197, 8198, 8199, 8200, 8201,
      8202, 8232, 8233, 8239, 8287, 12288];
    assert 9 <= c as int <= 13 ==> all[c as int - 9] == c as int;
    assert 8192 <= c as int <= 8202 ==> all[c as int - 8183] == c as int;
    assert all[5] == 32 && all[6] == 133 && all[7] == 160 && all[8] == 5760;
    assert all[20] == 8232 && all[21] == 8233 && all[22] == 8239 && all[23] == 8287 && all[24] == 12288;
  }

  predicate Blank(s: string) {
    forall i :: 0 <= i < |s| ==> IsWhite(s[i])
  }

  /** Text without white space at either end. */
  predicate Bare(s: string) {
    s != "" ==> !IsWhite(s[0]) && !IsWhite(s[|s| - 1])
  }

  lemma {:induction false} TrimStartPadded(w: string, s: string)
    requires Blank(w) && (s != "" ==> !IsWhite(s[0]))
    ensures TrimStart(w + s) == s
    decreases |w|
  {
    if w == "" {
      assert w + s == s;
    } else {
      assert (w + s)[1..] == w[1..] + s && (w + s)[0] == w[0];
      TrimStartPadded(w[1..], s);
    }
  }

  lemma {:induction false} TrimEndPadded(s: string, v: string)
    requires Blank(v) && (s != "" ==> !IsWhite(s[|s| - 1]))
    ensures TrimEnd(s + v) == s
    decreases |v|
  {
    if v == "" {
      assert s + v == s;
    } else {
      var n := |v| - 1;
      assert (s + v)[..|s + v| - 1] == s + v[..n] && (s + v)[|s + v| - 1] == v[n];
      TrimEndPadded(s, v[..n]);
    }
  }

  /** Trimming takes the white space away on both sides, and nothing else. */
  lemma TrimPadded(w: string, s: string, v: string)
    requires Blank(w) && Blank(v) && Bare(s)
    ensures Trim(w + s + v) == s
  {
    if s == "" {
      assert w + s + v == (w + v) + "";
      TrimStartPadded(w + v, "");
    } else {
      assert w + s + v == w + (s + v);
      TrimStartPadded(w, s + v);
      TrimEndPadded(s, v);
    }
  }

  function LowerChar(c: char): char {
    if 'A' <= c <= 'Z' then c - 'A' + 'a' else c
  }

  function Lower(s: string): string {
    seq(|s|, i requires 0 <= i < |s| => LowerChar(s[i]))
  }

  /** Lower case leaves no capital letter, and changes nothing but those. */
  lemma LowerIs(s: string)
    ensures |Lower(s)| == |s| && Lower(Lower(s)) == Lower(s)
    ensures forall i :: 0 <= i < |s| ==>
      && !('A' <= Lower(s)[i] <= 'Z')
      && (Lower(s)[i] == s[i] || (Lower(s)[i] as int == s[i] as int + 32 && 'a' <= Lower(s)[i] <= 'z'))
  {
  }

  function StripReturn(s: string): string {
    if s != "" && s[|s| - 1] == '\r' then s[..|s| - 1] else s
  }

  function Lines(s: string): seq<string>
    decreases |s|
  {
    if s == "" then []
    else
      var i := Find(s, '\n');
      if i == |s| then [s] else [StripReturn(s[..i])] + Lines(s[i + 1..])
  }

  /** A line ends in a line feed or in a carriage return and a line feed. */
  lemma LinesOfLine(a: string, rest: string)
    requires '\n' !in a
    ensures Lines(a + "\r\n" + rest) == [a] + Lines(rest)
    ensures (a != "" ==> a[|a| - 1] != '\r') ==> Lines(a + "\n" + rest) == [a] + Lines(rest)
  {
    var cr := a + "\r";
    assert a + "\r\n" + rest == cr + ['\n'] + rest && a + "\n" + rest == a + ['\n'] + rest;
    FindIn(cr, '\n', rest);
    FindIn(a, '\n', rest);
    assert cr[..|cr| - 1] == a;
  }

  // ------------------------------------------------------------------------- numbers

  const U64_MAX: nat := 0xFFFF_FFFF_FFFF_FFFF

  predicate IsDigit(c: char) { '0' <= c <= '9' }

  predicate AllDigits(s: string) {
    forall i :: 0 <= i < |s| ==> IsDigit(s[i])
  }

  function Number(s: string): nat
    requires AllDigits(s)
  {
    if s == "" then 0 else 10 * Number(s[..|s| - 1]) + (s[|s| - 1] as int - '0' as int)
  }

  /** An unsigned 64-bit number in decimal; one leading plus sign is accepted. */
  function ParseU64(s: string): Option<nat> {
    var digits := if s != "" && s[0] == '+' then s[1..] else s;
    if digits != "" && AllDigits(digits) && Number(digits) <= U64_MAX then Some(Number(digits)) else None
  }

  function Format(n: nat): (s: string)
    ensures s != "" && AllDigits(s)
  {
    var last := [('0' as int + n % 10) as char];
    if n < 10 then last else Format(n / 10) + last
  }

  lemma {:induction false} NumberOfFormat(n: nat)
    ensures Number(Format(n)) == n
  {
    var last := [('0' as int + n % 10) as char];
    if n >= 10 {
      NumberOfFormat(n / 10);
      assert (Format(n / 10) + last)[..|Format(n / 10)|] == Format(n / 10);
    } else {
      assert last[..0] == "";
    }
  }

  lemma ParseOfFormat(n: nat)
    ensures ParseU64(Format(n)) == if n <= U64_MAX then Some(n) else None
  {
    NumberOfFormat(n);
    assert IsDigit(Format(n)[0]);
  }

  /** Decimal digits, the last one counting once and the others ten times as much. */
  lemma NumberIs(s: string, digit: nat)
    requires AllDigits(s) && digit < 10
    ensures var more := s + ["0123456789"[digit]];
      AllDigits(more) && Number(more) == 10 * Number(s) + digit
    ensures Number("") == 0
  {
    var more := s + ["0123456789"[digit]];
    assert more[..|more| - 1] == s;
  }

  lemma {:induction false} NumberLeadingZero(s: string)
    requires AllDigits(s)
    ensures AllDigits("0" + s) && Number("0" + s) == Number(s)
    decreases |s|
  {
    var t := "0" + s;
    if s == "" {
      assert t[..0] == "";
    } else {
      var n := |s| - 1;
      assert t[..|t| - 1] == "0" + s[..n] && t[|t| - 1] == s[n];
      NumberLeadingZero(s[..n]);
    }
  }

  /** Zeros in front and one plus sign change nothing; what is no digits is no number. */
  lemma ParseLoosely(s: string)
    requires s != "" && AllDigits(s)
    ensures ParseU64("0" + s) == ParseU64(s) == ParseU64("+" + s)
    ensures ParseU64(s).None? <==> Number(s) > 0xFFFF_FFFF_FFFF_FFFF
    ensures ParseU64("").None? && ParseU64("+").None? && ParseU64("++" + s).None?
  {
    NumberLeadingZero(s);
    var plus, twice := "+" + s, "++" + s;
    assert plus[1..] == s && twice[1..] == plus && plus[0] == '+';
  }
}
