/** Reading newline-terminated messages from a byte stream that arrives in arbitrary pieces. */
module BoundedLines {

  import opened Base

  const NEWLINE: Byte := 10
  const MAX_LINE: nat := 1024 * 1024

  datatype BoundedLine = Line | Oversized | Eof

  /** What a caller gets: a line comes with its bytes. */
  datatype Item = Text(bytes: seq<Byte>) | TooLong

  function Newline(s: seq<Byte>): (i: nat)
    ensures i <= |s| && NEWLINE !in s[..i]
    ensures i < |s| ==> s[i] == NEWLINE
  {
    if s == [] || s[0] == NEWLINE then 0
    else
      var i := 1 + Newline(s[1..]);
      assert s[..i] == [s[0]] + s[1..][..i - 1];
      i
  }

  lemma {:induction false} NewlineIn(a: seq<Byte>, rest: seq<Byte>)
    requires NEWLINE !in a
    ensures Newline(a + rest) == |a| + Newline(rest)
  {
    if a == [] {
      assert a + rest == rest;
    } else {
      NewlineIn(a[1..], rest);
      assert (a + rest)[1..] == a[1..] + rest;
    }
  }

  function Classify(bytes: seq<Byte>): Item {
    if |bytes| > MAX_LINE then TooLong else Text(bytes)
  }

  /** The items of a whole stream: it is cut at its newlines, and only a long tail is reported. */
  function Items(s: seq<Byte>): seq<Item>
    decreases |s|
  {
    var i := Newline(s);
    if i < |s| then [Classify(s[..i])] + Items(s[i + 1..])
    else if |s| > MAX_LINE then [TooLong]
    else []
  }

  function Terminated(lines: seq<seq<Byte>>): seq<Byte> {
    if lines == [] then [] else lines[0] + [NEWLINE] + Terminated(lines[1..])
  }

  function ClassifyAll(lines: seq<seq<Byte>>): seq<Item> {
    if lines == [] then [] else [Classify(lines[0])] + ClassifyAll(lines[1..])
  }

  /** Every line is one item, up to a length of one MiB. */
  lemma {:induction false} ClassifyAllIs(lines: seq<seq<Byte>>)
    ensures |ClassifyAll(lines)| == |lines| && forall i :: 0 <= i < |lines| ==>
      ClassifyAll(lines)[i] == if |lines[i]| > 1_048_576 then TooLong else Text(lines[i])
  {
    if lines != [] {
      ClassifyAllIs(lines[1..]);
      assert forall i :: 1 <= i < |lines| ==> lines[1..][i - 1] == lines[i];
    }
  }

  /** Lines written one after the other come back one by one; an open tail counts only if it is long. */
  lemma {:induction false} ItemsOfLines(lines: seq<seq<Byte>>, tail: seq<Byte>)
    requires 10 !in tail && forall l :: l in lines ==> 10 !in l
    ensures Items(Terminated(lines) + tail) == ClassifyAll(lines) + if |tail| > 1_048_576 then [TooLong] else []
  {
    if lines == [] {
      NoneIn(tail);
      NothingOpen(tail);
    } else {
      var rest := Terminated(lines[1..]) + tail;
      ItemsOfLines(lines[1..], tail);
      LineAndRest(lines[0], Terminated(lines[1..]), tail);
      CutLine(lines[0], rest);
    }
  }

  lemma LineAndRest(line: seq<Byte>, more: seq<Byte>, tail: seq<Byte>)
    ensures line + [NEWLINE] + more + tail == line + ([NEWLINE] + (more + tail))
  {
  }

  lemma CutLine(line: seq<Byte>, rest: seq<Byte>)
    requires NEWLINE !in line
    ensures Items(line + ([NEWLINE] + rest)) == [Classify(line)] + Items(rest)
  {
    CutFirst(line, rest);
  }

  /** The answer to one read of a stream, and the part of the stream behind it. */
  function First(s: seq<Byte>): BoundedLine {
    var i := Newline(s);
    if i < |s| then (if i <= MAX_LINE then Line else Oversized)
    else if |s| > MAX_LINE then Oversized
    else Eof
  }

  function Behind(s: seq<Byte>): seq<Byte> {
    var i := Newline(s);
    if i < |s| then s[i + 1..] else []
  }

  lemma ItemsByFirst(s: seq<Byte>)
    ensures First(s) != Eof ==> |Behind(s)| < |s|
    ensures First(s) == Line ==> Items(s) == [Text(s[..Newline(s)])] + Items(Behind(s))
    ensures First(s) == Oversized ==> Items(s) == [TooLong] + Items(Behind(s))
    ensures First(s) == Eof ==> Items(s) == []
  {
    if Newline(s) == |s| {
      assert Items([]) == [];
    }
  }

  lemma CutFirst(a: seq<Byte>, b: seq<Byte>)
    requires NEWLINE !in a
    ensures var s := a + ([NEWLINE] + b); Newline(s) == |a| < |s| && s[..|a|] == a && Behind(s) == b
  {
    NewlineIn(a, [NEWLINE] + b);
  }

  lemma NoneIn(a: seq<Byte>)
    requires NEWLINE !in a
    ensures Newline(a) == |a|
  {
    NewlineIn(a, []);
    assert a + [] == a;
  }

  lemma Regroup(open: seq<Byte>, chunk: seq<Byte>, n: nat, rest: seq<Byte>)
    requires n < |chunk| && chunk[n] == NEWLINE
    ensures open + (chunk + rest) == (open + chunk[..n]) + ([NEWLINE] + (chunk[n + 1..] + rest))
  {
    assert chunk == chunk[..n] + ([NEWLINE] + chunk[n + 1..]);
  }

  lemma NothingOpen(input: seq<Byte>)
    ensures [] + input == input
  {
  }

  lemma Joined(s: seq<Byte>, chunk: seq<Byte>, n: nat)
    requires chunk <= s && n <= |chunk|
    ensures s == chunk + s[|chunk|..] && s[n..] == chunk[n..] + s[|chunk|..]
  {
  }

  /** The end of the first line, found in the piece behind an open part without newlines. */
  lemma LineEndsIn(open: seq<Byte>, input: seq<Byte>, chunk: seq<Byte>)
    requires NEWLINE !in open && chunk <= input && Newline(chunk) < |chunk|
    ensures var s, n := open + input, Newline(chunk);
      Newline(s) == |open| + n < |s| && s[..Newline(s)] == open + chunk[..n] && Behind(s) == input[n + 1..]
  {
    var n, rest := Newline(chunk), input[|chunk|..];
    Joined(input, chunk, n + 1);
    Regroup(open, chunk, n, rest);
    CutFirst(open + chunk[..n], chunk[n + 1..] + rest);
  }

  /** The state of the line reader between two waits for input. */
  class LineReader {
    var line: seq<Byte>
    var discarding: bool
    /** What the peer has not been read of yet, in whatever pieces it comes. */
    var input: seq<Byte>
    /** The bytes taken from the input for the line that is not complete yet. */
    ghost var open: seq<Byte>
    /** How many waits for input were given up or failed. */
    ghost var lost: nat

    ghost predicate Valid()
      reads this
    {
      && NEWLINE !in open
      && (if discarding then line == [] && |open| > MAX_LINE else line == open)
      && |line| <= MAX_LINE
    }

    /** The stream as it stands: the open line and everything behind it. */
    ghost function Unread(): seq<Byte>
      reads this
    {
      open + input
    }

    constructor (stream: seq<Byte>)
      ensures Valid() && Unread() == stream
    {
      line, discarding, input, open, lost := [], false, stream, [], 0;
    }

    /** Any non-empty piece of what is left, nothing at its end; or no answer at all. */
    method FillBuf() returns (available: seq<Byte>, ready: bool)
      modifies this`lost
      ensures lost == old(lost) + if ready then 0 else 1
      ensures available <= input
      ensures ready ==> (available == [] <==> input == [])
    {
      ready := *;
      var n: int :| 0 <= n <= |input| && (input != [] ==> n > 0);
      available := input[..n];
      if !ready {
        lost := lost + 1;
      }
    }

    /** Drops what is open and the next `n` bytes. */
    method Skip(n: nat)
      requires n <= |input|
      modifies this`input, this`open
      ensures open == [] && input == old(input)[n..]
    {
      input, open := input[n..], [];
    }

    /** Moves the next bytes from the input to the open line. */
    method Take(chunk: seq<Byte>)
      requires chunk <= input && NEWLINE !in chunk && NEWLINE !in open
      modifies this`input, this`open
      ensures Unread() == old(Unread()) && NEWLINE !in open
      ensures open == old(open) + chunk && input == old(input)[|chunk|..]
    {
      assert input == chunk + input[|chunk|..];
      assert open + input == open + chunk + input[|chunk|..];
      open := open + chunk;
      input := input[|chunk|..];
    }

    /** The answer the stream called for, and the state behind it. */
    ghost predicate Answered(line: BoundedLine, stream: seq<Byte>)
      reads this
    {
      && line == First(stream) && input == Behind(stream) && !discarding
      && this.line == open == if line == Line then stream[..Newline(stream)] else []
    }

    method AtEnd() returns (r: BoundedLine)
      requires Valid() && input == []
      modifies this
      ensures Valid() && Answered(r, old(Unread())) && lost == old(lost)
    {
      NoneIn(open);
      assert Unread() == open;
      r := if discarding then Oversized else Eof;
      line, discarding, open := [], false, [];
    }

    method EndsIn(available: seq<Byte>) returns (r: BoundedLine)
      requires Valid() && available <= input && Newline(available) < |available|
      modifies this
      ensures Valid() && Answered(r, old(Unread())) && lost == old(lost)
    {
      LineEndsIn(open, input, available);
      var newline := Newline(available);
      if discarding {
        discarding, r := false, Oversized;
      } else if |line| + newline > MAX_LINE {
        line, r := [], Oversized;
      } else {
        line, r := line + available[..newline], Line;
      }
      Skip(newline + 1);
      open := line;
    }

    method GoesOn(available: seq<Byte>)
      requires Valid() && available <= input && Newline(available) == |available|
      modifies this
      ensures Valid() && Unread() == old(Unread()) && input == old(input)[|available|..] && lost == old(lost)
    {
      assert available[..|available|] == available;
      if !discarding {
        if |line| + |available| > MAX_LINE {
          line, discarding := [], true;
        } else {
          line := line + available;
        }
      }
      Take(available);
    }

    /**
      Reads on to the end of the line. The answer is that of the whole stream, whatever the
      pieces; a wait that is given up or fails leaves the stream as it was.
    */
    method ReadBoundedLine() returns (r: Answer)
      requires Valid()
      modifies this
      ensures Valid()
      ensures r.Interrupted? ==> Unread() == old(Unread())
      ensures r.Ready? ==> Answered(r.line, old(Unread()))
      ensures lost == old(lost) + if r.Interrupted? then 1 else 0
    {
      while true
        invariant Valid() && Unread() == old(Unread()) && lost == old(lost)
        decreases |input|
      {
        var available, ready := FillBuf();
        if !ready {
          return Interrupted;
        }
        if available == [] {
          var end := AtEnd();
          return Ready(end);
        }
        if Newline(available) < |available| {
          var line := EndsIn(available);
          return Ready(line);
        }
        GoesOn(available);
      }
    }

    /** The caller is done with a line. */
    method Clear()
      requires Valid() && !discarding
      modifies this`line, this`open
      ensures Valid() && Unread() == input && line == []
    {
      line, open := [], [];
    }

    /** One item, with the line cleared behind it. */
    method NextItem() returns (r: Next)
      requires Valid()
      modifies this
      ensures Valid() && Given(r, old(Unread()), Unread())
      ensures lost == old(lost) + if r.GaveUp? then 1 else 0
    {
      var line := ReadBoundedLine();
      ghost var stream := old(Unread());
      if line.Interrupted? {
        return GaveUp;
      }
      ItemsByFirst(stream);
      match line.line
      case Eof =>
        r := Ended;
      case Oversized =>
        NothingOpen(input);
        r := Got(TooLong);
      case Line =>
        r := Got(Text(this.line));
        Clear();
    }

    /**
      Receives until the stream ends, or until the wait has been given up `patience` times. A
      caller that clears the line gets the items of the whole stream, in order.
    */
    method Receive(patience: nat) returns (items: seq<Item>, finished: bool)
      requires Valid()
      modifies this
      ensures Valid()
      ensures Items(old(Unread())) == items + if finished then [] else Items(Unread())
      ensures lost <= old(lost) + patience && (finished || lost == old(lost) + patience)
    {
      items, finished := [], false;
      var left := patience;
      while left > 0 && !finished
        invariant Valid()
        invariant Items(old(Unread())) == items + if finished then [] else Items(Unread())
        invariant 0 <= left && left + lost == old(lost) + patience
        decreases left, |Unread()|, !finished
      {
        ghost var before := Unread();
        var r := NextItem();
        Conserved(old(Items(Unread())), items, r, before, Unread());
        match r
        case GaveUp => left := left - 1;
        case Ended => finished := true;
        case Got(item) => items := items + [item];
      }
    }
  }

  lemma Conserved(all: seq<Item>, items: seq<Item>, r: Next, before: seq<Byte>, behind: seq<Byte>)
    requires all == items + Items(before) && Given(r, before, behind)
    ensures match r
      case GaveUp => all == items + Items(behind) && |behind| == |before|
      case Ended => all == items + []
      case Got(item) => all == items + [item] + Items(behind) && |behind| < |before|
  {
  }

  datatype Answer = Ready(line: BoundedLine) | Interrupted

  datatype Next = GaveUp | Ended | Got(item: Item)

  /** What an answer says about the items of the stream before it and of the stream behind it. */
  ghost predicate Given(r: Next, before: seq<Byte>, behind: seq<Byte>) {
    match r
    case GaveUp => behind == before
    case Ended => Items(before) == [] && behind == []
    case Got(item) => Items(before) == [item] + Items(behind) && |behind| < |before|
  }
}
