/** The order in which the program's sorted sets and maps list their string keys. */
module Ordered {

  /** Lexicographic order, character by character. */
  predicate Less(a: string, b: string) {
    b != "" && (a == "" || a[0] < b[0] || (a[0] == b[0] && Less(a[1..], b[1..])))
  }

  lemma {:induction false} LessIrreflexive(a: string)
    ensures !Less(a, a)
  {
    if a != "" {
      LessIrreflexive(a[1..]);
    }
  }

  lemma {:induction false} LessTotal(a: string, b: string)
    ensures Less(a, b) || Less(b, a) || a == b
  {
    if a != "" && b != "" {
      LessTotal(a[1..], b[1..]);
      if a[0] == b[0] && a[1..] == b[1..] {
        assert a == [a[0]] + a[1..] && b == [b[0]] + b[1..];
      }
    }
  }

  lemma {:induction false} LessTransitive(a: string, b: string, c: string)
    requires Less(a, b) && Less(b, c)
    ensures Less(a, c)
  {
    if a != "" && a[0] == b[0] && b[0] == c[0] {
      LessTransitive(a[1..], b[1..], c[1..]);
    }
  }

  /** Where two strings part: one ends there, or has the smaller character. */
  predicate PartAt(a: string, b: string, i: nat) {
    i <= |a| && i < |b| && a[..i] == b[..i] && (i == |a| || a[i] < b[i])
  }

  lemma PartsFirst(a: string, b: string, i: nat)
    requires PartAt(a, b, i)
    ensures b != ""
    ensures if i == 0 then a == "" || a[0] < b[0] else a != "" && a[0] == b[0]
  {
    assert i > 0 ==> a[..i][0] == a[0] && b[..i][0] == b[0];
  }

  lemma {:induction false} LessIsLexicographic(a: string, b: string)
    ensures Less(a, b) <==> exists i :: PartAt(a, b, i)
  {
    if a != "" && b != "" && a[0] == b[0] {
      LessIsLexicographic(a[1..], b[1..]);
      forall i: nat | PartAt(a[1..], b[1..], i) ensures PartAt(a, b, i + 1) {
        assert a[..i + 1] == [a[0]] + a[1..][..i] && b[..i + 1] == [b[0]] + b[1..][..i];
      }
      forall i: nat | PartAt(a, b, i) ensures i > 0 && PartAt(a[1..], b[1..], i - 1) {
        if i > 0 {
          assert a[1..][..i - 1] == a[..i][1..] && b[1..][..i - 1] == b[..i][1..];
        }
      }
    } else if b != "" && (a == "" || a[0] < b[0]) {
      assert PartAt(a, b, 0);
    } else {
      forall i: nat | PartAt(a, b, i) ensures false {
        PartsFirst(a, b, i);
      }
    }
  }

  predicate StrictlySorted(s: seq<string>) {
    forall i, j :: 0 <= i < j < |s| ==> Less(s[i], s[j])
  }

  function Elements<T>(s: seq<T>): set<T> {
    set x | x in s
  }

  lemma ElementsCons<T>(x: T, s: seq<T>)
    ensures Elements([x] + s) == {x} + Elements(s)
  {
    forall y | y in Elements([x] + s) ensures y in {x} + Elements(s) {
      var i :| 0 <= i < |[x] + s| && ([x] + s)[i] == y;
      assert i > 0 ==> s[i - 1] == y;
    }
    assert forall y :: y in s ==> y in [x] + s;
  }

  predicate IsLeast(m: string, s: set<string>) {
    m in s && forall x :: x in s && x != m ==> Less(m, x)
  }

  lemma {:induction false} LeastExists(s: set<string>)
    requires s != {}
    ensures exists m :: IsLeast(m, s)
    decreases |s|
  {
    var x :| x in s;
    if s == {x} {
      assert IsLeast(x, s);
    } else {
      var rest := s - {x};
      assert rest != {};
      LeastExists(rest);
      var m :| IsLeast(m, rest);
      LessTotal(m, x);
      if Less(m, x) {
        assert IsLeast(m, s);
      } else {
        forall y | y in s && y != x ensures Less(x, y) {
          if y != m {
            LessTransitive(x, m, y);
          }
        }
        assert IsLeast(x, s);
      }
    }
  }

  lemma LeastUnique(m: string, n: string, s: set<string>)
    requires IsLeast(m, s) && IsLeast(n, s)
    ensures m == n
  {
    if m != n {
      LessTransitive(m, n, m);
      LessIrreflexive(m);
    }
  }

  lemma LeastDetermined(s: set<string>)
    requires s != {}
    ensures exists m :: IsLeast(m, s)
    ensures forall m, n :: IsLeast(m, s) && IsLeast(n, s) ==> m == n
  {
    LeastExists(s);
    forall m, n | IsLeast(m, s) && IsLeast(n, s) ensures m == n {
      LeastUnique(m, n, s);
    }
  }

  /** The elements of a set in ascending order. */
  function Ascending(s: set<string>): (r: seq<string>)
    ensures Elements(r) == s && |r| == |s|
    decreases |s|
  {
    if s == {} then []
    else
      LeastDetermined(s);
      var m :| m in s && IsLeast(m, s);
      var rest := Ascending(s - {m});
      ElementsCons(m, rest);
      [m] + rest
  }

  lemma {:induction false} AscendingSorted(s: set<string>)
    ensures StrictlySorted(Ascending(s))
    decreases |s|
  {
    if s != {} {
      LeastDetermined(s);
      var m :| m in s && IsLeast(m, s);
      AscendingSorted(s - {m});
      var rest := Ascending(s - {m});
      forall j | 0 <= j < |rest| ensures Less(m, rest[j]) {
        assert rest[j] in Elements(rest);
      }
      SortedCons(m, rest);
    }
  }

  lemma SortedCons(m: string, rest: seq<string>)
    requires StrictlySorted(rest) && forall j :: 0 <= j < |rest| ==> Less(m, rest[j])
    ensures StrictlySorted([m] + rest)
  {
  }

  lemma ElementsEmpty<T>(s: seq<T>)
    ensures Elements(s) == {} <==> s == []
  {
    if s != [] {
      assert s[0] in Elements(s);
    }
  }

  /** A set has only one ascending listing. */
  lemma {:induction false} SortedListsAgree(a: seq<string>, b: seq<string>)
    requires StrictlySorted(a) && StrictlySorted(b) && Elements(a) == Elements(b)
    ensures a == b
    decreases |a|
  {
    ElementsEmpty(a);
    ElementsEmpty(b);
    if a != [] {
      FirstIsLeast(a);
      FirstIsLeast(b);
      LeastUnique(a[0], b[0], Elements(a));
      TailElements(a);
      TailElements(b);
      SortedListsAgree(a[1..], b[1..]);
      assert a == [a[0]] + a[1..] && b == [b[0]] + b[1..];
    }
  }

  lemma FirstIsLeast(a: seq<string>)
    requires a != [] && StrictlySorted(a)
    ensures IsLeast(a[0], Elements(a))
  {
    forall x | x in Elements(a) && x != a[0] ensures Less(a[0], x) {
      var i :| 0 <= i < |a| && a[i] == x;
    }
  }

  lemma TailElements(a: seq<string>)
    requires a != [] && StrictlySorted(a)
    ensures StrictlySorted(a[1..]) && Elements(a[1..]) == Elements(a) - {a[0]}
  {
    forall x | x in a[1..] ensures x != a[0] {
      LessIrreflexive(a[0]);
    }
    assert a == [a[0]] + a[1..];
  }
}
