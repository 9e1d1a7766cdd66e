/** What is fed to the digest of a media graph, and the bounds on what is hashed. */
module GraphHash {

  import opened Base

  // ---------------------------------------------------------------------- numbers as bytes

  function Power(k: nat): (p: nat)
    ensures p > 0
  {
    if k == 0 then 1 else 256 * Power(k - 1)
  }

  function LittleEndian(n: nat, k: nat): (s: seq<Byte>)
    ensures |s| == k
  {
    if k == 0 then [] else [n % 256] + LittleEndian(n / 256, k - 1)
  }

  function FromLittleEndian(s: seq<Byte>): nat {
    if s == [] then 0 else s[0] + 256 * FromLittleEndian(s[1..])
  }

  lemma {:induction false} LittleEndianRoundTrip(n: nat, k: nat)
    requires n < Power(k)
    ensures FromLittleEndian(LittleEndian(n, k)) == n
  {
    if k > 0 {
      LittleEndianRoundTrip(n / 256, k - 1);
      assert LittleEndian(n, k)[1..] == LittleEndian(n / 256, k - 1);
    }
  }

  /** The byte at a place is the digit of that weight, the lowest first. */
  lemma {:induction false} LittleEndianAt(n: nat, k: nat, i: nat)
    requires i < k
    ensures LittleEndian(n, k)[i] == (n / Power(i)) % 256
  {
    if i > 0 {
      LittleEndianAt(n / 256, k - 1, i - 1);
      DivideTwice(n, Power(i - 1));
    }
  }

  lemma DivideTwice(n: nat, p: nat)
    requires p > 0
    ensures (n / 256) / p == n / (256 * p)
  {
    var q := n / 256 / p;
    var r := n / 256 - q * p;
    assert n == 256 * (q * p + r) + n % 256 && 0 <= r <= p - 1;
    QuotientIs(n, 256 * p, q, 256 * r + n % 256);
  }

  lemma QuotientIs(n: nat, d: nat, q: nat, r: nat)
    requires d > 0 && n == d * q + r && r < d
    ensures n / d == q
  {
    var e := n / d - q;
    assert d * e == r - n % d;
    MultipleIsFar(d, e);
  }

  lemma MultipleIsFar(d: int, e: int)
    requires d > 0
    ensures (e > 0 ==> d * e >= d) && (e < 0 ==> d * e <= 0 - d)
  {
  }

  const U64_LIMIT: nat := 0x1_0000_0000_0000_0000

  lemma PowerOfEight()
    ensures Power(8) == U64_LIMIT
  {
    assert Power(2) == 0x1_0000;
    assert Power(4) == 0x1_0000 * Power(2);
    assert Power(6) == 0x1_0000 * Power(4);
  }

  // --------------------------------------------------------------------------- the encoding

  type Name = seq<Byte>

  datatype Item = Item(name: Name, content: seq<Byte>)

  function Prefixed(s: seq<Byte>): seq<Byte> {
    LittleEndian(|s|, 8) + s
  }

  function Encode(item: Item): seq<Byte> {
    Prefixed(item.name) + Prefixed(item.content)
  }

  /** Length and bytes of the name, then length and bytes of the content. */
  lemma EncodeIs(item: Item)
    ensures var s, n, c := Encode(item), |item.name|, |item.content|;
      && |s| == 16 + n + c && s[..8] == LittleEndian(n, 8) && s[8..8 + n] == item.name
      && s[8 + n..16 + n] == LittleEndian(c, 8) && s[16 + n..] == item.content
  {
  }

  function EncodeAll(items: seq<Item>): seq<Byte> {
    if items == [] then [] else Encode(items[0]) + EncodeAll(items[1..])
  }

  /** The first length-prefixed string of a stream, and what is behind it. */
  function TakePrefixed(s: seq<Byte>): Option<(seq<Byte>, seq<Byte>)> {
    if |s| < 8 then None
    else
      var n := FromLittleEndian(s[..8]);
      if |s| - 8 < n then None else Some((s[8..8 + n], s[8 + n..]))
  }

  lemma TakenIsShorter(s: seq<Byte>)
    ensures TakePrefixed(s).Some? ==> |TakePrefixed(s).value.1| < |s|
  {
  }

  function DecodeAll(s: seq<Byte>): Option<seq<Item>>
    decreases |s|
  {
    if s == [] then Some([])
    else
      TakenIsShorter(s);
      var name := TakePrefixed(s);
      if name.None? then None
      else
        TakenIsShorter(name.value.1);
        var content := TakePrefixed(name.value.1);
        if content.None? then None
        else
          var rest := DecodeAll(content.value.1);
          if rest.None? then None else Some([Item(name.value.0, content.value.0)] + rest.value)
  }

  predicate Sized(item: Item) {
    |item.name| < U64_LIMIT && |item.content| < U64_LIMIT
  }

  lemma TakeOfPrefixed(t: seq<Byte>, rest: seq<Byte>)
    requires |t| < U64_LIMIT
    ensures TakePrefixed(Prefixed(t) + rest) == Some((t, rest))
  {
    var s, length := Prefixed(t) + rest, LittleEndian(|t|, 8);
    PowerOfEight();
    LittleEndianRoundTrip(|t|, 8);
    assert s == length + (t + rest);
    assert s[..8] == length && s[8..8 + |t|] == t && s[8 + |t|..] == rest;
  }

  lemma {:induction false} DecodeEncode(items: seq<Item>)
    requires forall i :: 0 <= i < |items| ==> Sized(items[i])
    ensures DecodeAll(EncodeAll(items)) == Some(items)
  {
    if items != [] {
      var item, rest := items[0], EncodeAll(items[1..]);
      DecodeEncode(items[1..]);
      assert Encode(item) + rest == Prefixed(item.name) + (Prefixed(item.content) + rest);
      TakeOfPrefixed(item.name, Prefixed(item.content) + rest);
      TakeOfPrefixed(item.content, rest);
      assert items == [item] + items[1..];
    }
  }

  // --------------------------------------------------------------------------- the formats

  datatype Format = Cue | Gdi | Ccd | Toc | M3u

  function Ascii(s: string): (r: seq<Byte>)
    requires forall i :: 0 <= i < |s| ==> s[i] as int < 128
    ensures |r| == |s|
  {
    seq(|s|, i requires 0 <= i < |s| => s[i] as int)
  }

  function Domain(f: Format): (r: seq<Byte>)
    ensures |r| == 24
  {
    match f
    case Cue => Ascii("emucap-cue-graph-sha256\0")
    case Gdi => Ascii("emucap-gdi-graph-sha256\0")
    case Ccd => Ascii("emucap-ccd-graph-sha256\0")
    case Toc => Ascii("emucap-toc-graph-sha256\0")
    case M3u => Ascii("emucap-m3u-graph-sha256\0")
  }

  function Marker(f: Format): Name {
    match f
    case Cue => Ascii("entry.cue")
    case Gdi => Ascii("entry.gdi")
    case Ccd => Ascii("entry.ccd")
    case Toc => Ascii("entry.toc")
    case M3u => Ascii("entry.m3u")
  }

  function KindName(f: Format): (s: string)
    ensures |s| == 3 && forall i :: 0 <= i < |s| ==> s[i] as int < 128
  {
    match f
    case Cue => "cue"
    case Gdi => "gdi"
    case Ccd => "ccd"
    case Toc => "toc"
    case M3u => "m3u"
  }

  /** Domains and markers follow one scheme, with the name of the format in it. */
  lemma DomainIs(f: Format)
    ensures forall i :: 0 <= i < 24 ==>
      Domain(f)[i] == (if 7 <= i < 10 then KindName(f)[i - 7] else "emucap-...-graph-sha256\0"[i]) as int
  {
    match f
    case Cue =>
    case Gdi =>
    case Ccd =>
    case Toc =>
    case M3u =>
  }

  lemma MarkerIs(f: Format)
    ensures |Marker(f)| == 9
    ensures forall i :: 0 <= i < 9 ==>
      Marker(f)[i] == (if i < 6 then "entry."[i] else KindName(f)[i - 6]) as int
  {
  }

  /** The whole input of a graph's SHA-256. */
  function Preimage(f: Format, entry: seq<Byte>, members: seq<Item>): seq<Byte> {
    Domain(f) + EncodeAll([Item(Marker(f), entry)] + members)
  }

  /** The digest is fed the domain, then the marked entry, then the members. */
  lemma PreimageIs(f: Format, entry: seq<Byte>, members: seq<Item>)
    ensures Preimage(f, entry, members) == Domain(f) + Encode(Item(Marker(f), entry)) + EncodeAll(members)
  {
    var items := [Item(Marker(f), entry)] + members;
    assert items[0] == Item(Marker(f), entry) && items[1..] == members;
    assert Domain(f) + (Encode(items[0]) + EncodeAll(members)) == Domain(f) + Encode(items[0]) + EncodeAll(members);
  }

  lemma DomainsDiffer(f: Format, g: Format)
    requires Domain(f) == Domain(g)
    ensures f == g
  {
    assert Domain(f)[7] == Domain(g)[7] && Domain(f)[8] == Domain(g)[8];
  }

  lemma EncodingsDiffer(a: seq<Item>, b: seq<Item>)
    requires forall i :: 0 <= i < |a| ==> Sized(a[i])
    requires forall i :: 0 <= i < |b| ==> Sized(b[i])
    requires EncodeAll(a) == EncodeAll(b)
    ensures a == b
  {
    DecodeEncode(a);
    DecodeEncode(b);
  }

  predicate AllSized(entry: seq<Byte>, members: seq<Item>) {
    |entry| < U64_LIMIT && forall i :: 0 <= i < |members| ==> Sized(members[i])
  }

  /** Graphs with one preimage are of one format and have the same entry and members, in order. */
  lemma PreimageUnique(f: Format, entry: seq<Byte>, members: seq<Item>,
                       g: Format, entry': seq<Byte>, members': seq<Item>)
    requires AllSized(entry, members) && AllSized(entry', members')
    requires Preimage(f, entry, members) == Preimage(g, entry', members')
    ensures f == g && entry == entry' && members == members'
  {
    var a, b := [Item(Marker(f), entry)] + members, [Item(Marker(g), entry')] + members';
    SameHalves(Domain(f), EncodeAll(a), Domain(g), EncodeAll(b));
    DomainsDiffer(f, g);
    EncodingsDiffer(a, b);
    assert a[0] == b[0] && a[1..] == members && b[1..] == members';
  }

  lemma SameHalves(a: seq<Byte>, b: seq<Byte>, c: seq<Byte>, d: seq<Byte>)
    requires a + b == c + d && |a| == |c|
    ensures a == c && b == d
  {
    assert (a + b)[..|a|] == a && (c + d)[..|a|] == c;
    assert (a + b)[|a|..] == b && (c + d)[|a|..] == d;
  }

  const CUE_SHA1_DOMAIN: seq<Byte> := Ascii("emucap-cue-graph-v1\0")

  lemma CueDomainIs()
    ensures |CUE_SHA1_DOMAIN| == 20
    ensures forall i :: 0 <= i < 10 ==> CUE_SHA1_DOMAIN[i] == Domain(Cue)[i]
    ensures forall i :: 0 <= i < 10 ==> CUE_SHA1_DOMAIN[10 + i] == "-graph-v1\0"[i] as int
  {
  }

  /** The input of a CUE sheet's SHA-1, which also covers the sheet's own file name. */
  function CuePreimage(name: Name, entry: seq<Byte>, members: seq<Item>): seq<Byte> {
    CUE_SHA1_DOMAIN + EncodeAll([Item(name, entry)] + members)
  }

  lemma CuePreimageUnique(name: Name, entry: seq<Byte>, members: seq<Item>,
                          name': Name, entry': seq<Byte>, members': seq<Item>)
    requires AllSized(entry, members) && AllSized(entry', members') && |name| < U64_LIMIT && |name'| < U64_LIMIT
    requires CuePreimage(name, entry, members) == CuePreimage(name', entry', members')
    ensures name == name' && entry == entry' && members == members'
  {
    var a, b := [Item(name, entry)] + members, [Item(name', entry')] + members';
    SameHalves(CUE_SHA1_DOMAIN, EncodeAll(a), CUE_SHA1_DOMAIN, EncodeAll(b));
    EncodingsDiffer(a, b);
    assert a[0] == b[0] && a[1..] == members && b[1..] == members';
  }
}
