/** The bounded history of controller polls, and readers that follow it with a cursor. */
module PollRing {

  import opened Base

  const CAPACITY: nat := 4096

  datatype Poll = Poll(sequence: nat, word: int, frame: nat, vi: nat)

  /** What a read reports; `next` is the cursor to go on with. */
  datatype Page = Page(first: nat, last: nat, next: nat, dropped: nat, entries: seq<Poll>)

  function After(ring: seq<Poll>, after: nat): seq<Poll> {
    if ring == [] then [] else (if ring[0].sequence > after then [ring[0]] else []) + After(ring[1..], after)
  }

  function Take(s: seq<Poll>, limit: nat): seq<Poll> {
    if |s| <= limit then s else s[..limit]
  }

  datatype Selection = Selection(first: nat, last: nat, entries: seq<Poll>)

  function Select(ring: seq<Poll>, after: nat, limit: nat): Option<Selection> {
    var last := if ring == [] then 0 else ring[|ring| - 1].sequence;
    var first := if ring == [] then 1 else ring[0].sequence;
    if after > last then None else Some(Selection(first, last, Take(After(ring, after), limit)))
  }

  function PageOf(found: Selection, after: nat): Page {
    var entries := found.entries;
    var next := if entries == [] then after else entries[|entries| - 1].sequence;
    var dropped := if found.first > after + 1 then found.first - (after + 1) else 0;
    Page(found.first, found.last, next, dropped, entries)
  }

  function ReadPage(ring: seq<Poll>, after: nat, limit: nat): Option<Page> {
    if !(1 <= limit <= CAPACITY) then None
    else
      var found := Select(ring, after, limit);
      if found.None? then None else Some(PageOf(found.value, after))
  }

  // ------------------------------------------------- the ring as a window of the history

  /** Every poll of the generation, in order: the poll at index `i` is number `i + 1`. */
  predicate Numbered(history: seq<Poll>) {
    forall i :: 0 <= i < |history| ==> history[i].sequence == i + 1
  }

  function Window(history: seq<Poll>): seq<Poll> {
    if |history| <= CAPACITY then history else history[|history| - CAPACITY..]
  }

  function Evicted(history: seq<Poll>): nat {
    if |history| <= CAPACITY then 0 else |history| - CAPACITY
  }

  lemma {:induction false} AfterIsSuffix(history: seq<Poll>, k: nat, after: nat)
    requires Numbered(history) && k <= |history| && after <= |history|
    ensures After(history[k..], after) == history[if k < after then after else k..]
    decreases |history| - k
  {
    if k < |history| {
      assert history[k..][0] == history[k] && history[k..][1..] == history[k + 1..];
      AfterIsSuffix(history, k + 1, after);
    }
  }

  /** Where a read of the window begins and ends, in terms of the whole history. */
  function Begin(history: seq<Poll>, after: nat): nat {
    if after < Evicted(history) then Evicted(history) else after
  }

  function End(history: seq<Poll>, after: nat, limit: nat): nat {
    if Begin(history, after) + limit < |history| then Begin(history, after) + limit else |history|
  }

  lemma TakeOfSuffix(history: seq<Poll>, begin: nat, limit: nat)
    requires begin <= |history|
    ensures var end := if begin + limit < |history| then begin + limit else |history|;
      Take(history[begin..], limit) == history[begin..end]
  {
  }

  /** The ends of the window, and what a selection from a part of the history that is not empty is. */
  lemma SelectFrom(history: seq<Poll>, k: nat, after: nat, limit: nat, entries: seq<Poll>)
    requires Numbered(history) && k < |history|
    requires after <= |history| ==> entries == Take(After(history[k..], after), limit)
    ensures Select(history[k..], after, limit) ==
      if after > |history| then None else Some(Selection(k + 1, |history|, entries))
  {
    var ring := history[k..];
    assert ring[0] == history[k] && ring[|ring| - 1] == history[|history| - 1];
  }

  /** The part of the history behind a cursor is what the ring still holds of it. */
  lemma SelectIsSlice(history: seq<Poll>, after: nat, limit: nat)
    requires Numbered(history)
    ensures Select(Window(history), after, limit) ==
      if after > |history| then None
      else Some(Selection(Evicted(history) + 1, |history|, history[Begin(history, after)..End(history, after, limit)]))
  {
    var k := Evicted(history);
    var entries := if after > |history| then [] else history[Begin(history, after)..End(history, after, limit)];
    assert Window(history) == history[k..];
    if after <= |history| {
      AfterIsSuffix(history, k, after);
      TakeOfSuffix(history, Begin(history, after), limit);
    }
    if history != [] {
      SelectFrom(history, k, after, limit, entries);
    }
  }

  lemma PageOfSlice(history: seq<Poll>, after: nat, begin: nat, end: nat)
    requires Numbered(history) && begin == Begin(history, after) && begin <= end <= |history|
    requires begin == end ==> after == end
    ensures var page := PageOf(Selection(Evicted(history) + 1, |history|, history[begin..end]), after);
      page.next == end && page.dropped == begin - after
  {
    var entries := history[begin..end];
    if begin < end {
      assert entries[|entries| - 1] == history[end - 1];
    }
  }

  /**
    A read hands out the history from the cursor on, less what was evicted, up to its limit: the
    cursor moves on by exactly the polls handed out and those reported dropped.
  */
  lemma PageIsSlice(history: seq<Poll>, after: nat, limit: nat)
    requires Numbered(history)
    ensures ReadPage(Window(history), after, limit).Some? <==> 1 <= limit <= CAPACITY && after <= |history|
    ensures ReadPage(Window(history), after, limit).Some? ==>
      var page := ReadPage(Window(history), after, limit).value;
      && page.next == End(history, after, limit) <= |history| == page.last
      && page.first == 1 + (if |history| <= 4096 then 0 else |history| - 4096)
      && page.dropped == Begin(history, after) - after
      && page.entries == history[Begin(history, after)..page.next]
      && page.next - after == page.dropped + |page.entries|
  {
    SelectIsSlice(history, after, limit);
    if 1 <= limit <= CAPACITY && after <= |history| {
      PageOfSlice(history, after, Begin(history, after), End(history, after, limit));
    }
  }

  /** Nothing is dropped exactly when the cursor is at most a ring's length behind. */
  lemma DroppedIffEvicted(history: seq<Poll>, after: nat, limit: nat)
    requires Numbered(history) && 1 <= limit <= CAPACITY && after <= |history|
    ensures ReadPage(Window(history), after, limit).Some?
    ensures ReadPage(Window(history), after, limit).value.dropped == 0 <==> |history| - after <= 4096
  {
    PageIsSlice(history, after, limit);
  }

  // ----------------------------------------------------- readers among ongoing polls

  datatype Step = Polled(word: int, frame: nat, vi: nat) | Read(limit: nat)

  /** A generation with one reader that always goes on from the cursor it was given. */
  datatype Follower = Follower(history: seq<Poll>, cursor: nat, seen: seq<Poll>, dropped: nat)

  function Apply(f: Follower, step: Step): Follower {
    match step
    case Polled(word, frame, vi) => f.(history := f.history + [Poll(|f.history| + 1, word, frame, vi)])
    case Read(limit) =>
      var page := ReadPage(Window(f.history), f.cursor, limit);
      if page.None? then f
      else f.(cursor := page.value.next, seen := f.seen + page.value.entries, dropped := f.dropped + page.value.dropped)
  }

  function Follow(steps: seq<Step>): Follower {
    if steps == [] then Follower([], 0, [], 0) else Apply(Follow(steps[..|steps| - 1]), steps[|steps| - 1])
  }

  predicate IsFrom(p: Poll, history: seq<Poll>, cursor: nat)
    requires cursor <= |history|
  {
    1 <= p.sequence <= cursor && history[p.sequence - 1] == p
  }

  /** Each poll seen is the poll of its number, and the numbers rise and stay within the cursor. */
  predicate InOrder(seen: seq<Poll>, history: seq<Poll>, cursor: nat) {
    && cursor <= |history| && (forall i :: 0 <= i < |seen| ==> IsFrom(seen[i], history, cursor))
    && (forall i, j :: 0 <= i < j < |seen| ==> seen[i].sequence < seen[j].sequence)
  }

  predicate Conserved(f: Follower) {
    && Numbered(f.history) && f.cursor <= |f.history| && InOrder(f.seen, f.history, f.cursor)
    && f.cursor == |f.seen| + f.dropped
  }

  lemma InOrderGrows(seen: seq<Poll>, history: seq<Poll>, cursor: nat, p: Poll)
    requires InOrder(seen, history, cursor)
    ensures InOrder(seen, history + [p], cursor)
  {
    forall i | 0 <= i < |seen| ensures IsFrom(seen[i], history + [p], cursor) {
      assert IsFrom(seen[i], history, cursor);
    }
  }

  lemma InOrderReads(seen: seq<Poll>, history: seq<Poll>, cursor: nat, begin: nat, end: nat)
    requires InOrder(seen, history, cursor) && Numbered(history) && cursor <= begin <= end <= |history|
    ensures InOrder(seen + history[begin..end], history, end)
  {
    var more, all := history[begin..end], seen + history[begin..end];
    forall i | 0 <= i < |all|
      ensures IsFrom(all[i], history, end)
      ensures i >= |seen| ==> all[i].sequence > cursor
    {
      assert i < |seen| ==> all[i] == seen[i] && IsFrom(seen[i], history, cursor);
      if i >= |seen| {
        assert all[i] == history[begin + i - |seen|];
      }
    }
    forall i, j | 0 <= i < j < |all| ensures all[i].sequence < all[j].sequence {
      assert i < |seen| ==> all[i] == seen[i] && IsFrom(seen[i], history, cursor);
      if i >= |seen| {
        assert all[i] == history[begin + i - |seen|] && all[j] == history[begin + j - |seen|];
      }
    }
  }

  /**
    However polls and reads interleave, the reader sees rising numbers without repeats, each poll
    as it was made, and every poll up to its cursor was either seen or reported dropped.
  */
  lemma {:induction false} FollowerConserves(steps: seq<Step>)
    ensures Conserved(Follow(steps))
  {
    if steps != [] {
      var f, step := Follow(steps[..|steps| - 1]), steps[|steps| - 1];
      FollowerConserves(steps[..|steps| - 1]);
      match step
      case Polled(word, frame, vi) =>
        InOrderGrows(f.seen, f.history, f.cursor, Poll(|f.history| + 1, word, frame, vi));
      case Read(limit) =>
        PageIsSlice(f.history, f.cursor, limit);
        if ReadPage(Window(f.history), f.cursor, limit).Some? {
          InOrderReads(f.seen, f.history, f.cursor, Begin(f.history, f.cursor), End(f.history, f.cursor, limit));
        }
    }
  }

  // -------------------------------------------------------------------------- the ring

  class Polls {
    var count: nat
    var ring: seq<Poll>
    /** Every poll of the generation. */
    ghost var history: seq<Poll>

    ghost predicate Valid()
      reads this
    {
      Numbered(history) && count == |history| && ring == Window(history)
    }

    constructor ()
      ensures Valid() && history == []
    {
      count, ring, history := 0, [], [];
    }

    method Reset()
      modifies this
      ensures Valid() && history == []
    {
      count, ring, history := 0, [], [];
    }

    /** A controller response was written. */
    method Completed(word: int, frame: nat, vi: nat) returns (sequence: nat)
      requires Valid()
      modifies this
      ensures Valid() && sequence == count == old(count) + 1
      ensures history == old(history) + [Poll(sequence, word, frame, vi)]
    {
      sequence := count + 1;
      if |ring| == CAPACITY {
        ring := ring[1..];
      }
      ring := ring + [Poll(sequence, word, frame, vi)];
      history := history + [Poll(sequence, word, frame, vi)];
      count := sequence;
    }

    method ReadInputPolls(after: nat, limit: nat) returns (page: Option<Page>)
      requires Valid()
      ensures page.Some? <==> 1 <= limit <= 4096 && after <= count
      ensures page.Some? ==>
        && Begin(history, after) <= page.value.next <= |history|
        && page.value.entries == history[Begin(history, after)..page.value.next]
        && page.value.next == End(history, after, limit) && page.value.last == count
        && page.value.next - after == page.value.dropped + |page.value.entries|
        && page.value.first == 1 + Evicted(history)
        && (page.value.dropped == 0 <==> count - after <= CAPACITY)
    {
      PageIsSlice(history, after, limit);
      if !(1 <= limit <= CAPACITY) {
        return None;
      }
      var found := Select(ring, after, limit);
      if found.None? {
        return None;
      }
      page := Some(PageOf(found.value, after));
    }
  }
}
