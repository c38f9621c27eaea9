/** Sequences of strings used as ordered sets: the body's `classList` (a DOMTokenList,
    whose `add` appends a missing token and whose `remove` drops it) and the
    children of a menu, looked up by value. */
module Seqs {

  /** No element occurs twice. */
  ghost predicate NoDup(s: seq<string>)
  {
    forall i, j :: 0 <= i < j < |s| ==> s[i] != s[j]
  }

  /** How often `x` occurs in `s`. */
  function Count(s: seq<string>, x: string): nat
  {
    multiset(s)[x]
  }

  /** A sequence with a head is free of repeats iff its tail is and the
      head does not occur in it again. */
  lemma NoDupCons(x: string, t: seq<string>)
    ensures NoDup([x] + t) <==> x !in t && NoDup(t)
  {
    var s := [x] + t;
    if x !in t && NoDup(t) {
      forall i, j | 0 <= i < j < |s| ensures s[i] != s[j] {
        if i > 0 { assert s[i] == t[i - 1] && s[j] == t[j - 1]; }
        else { assert s[j] == t[j - 1]; }
      }
    }
    if NoDup(s) {
      forall i, j | 0 <= i < j < |t| ensures t[i] != t[j] {
        assert s[i + 1] == t[i] && s[j + 1] == t[j];
      }
      forall j | 0 <= j < |t| ensures t[j] != x {
        assert s[0] == x && s[j + 1] == t[j];
        assert s[0] != s[j + 1];
      }
    }
  }

  /** Index of the first `x` in `s`, or `|s|` when there is none (what
      `querySelector` and `find` return, as a position). */
  function FirstIndex(s: seq<string>, x: string): (r: nat)
    ensures r <= |s|
    ensures r < |s| ==> s[r] == x
    ensures forall j :: 0 <= j < r ==> s[j] != x
    ensures r == |s| <==> x !in s
  {
    if s == [] then 0
    else if s[0] == x then 0
    else 1 + FirstIndex(s[1..], x)
  }

  /** `s` with `x` inserted so that it lands at index `p`. */
  function InsertAt(s: seq<string>, p: nat, x: string): (r: seq<string>)
    requires p <= |s|
    ensures |r| == |s| + 1 && r[p] == x
    ensures r[..p] == s[..p] && r[p + 1..] == s[p..]
    ensures multiset(r) == multiset(s) + multiset{x}
  {
    assert s == s[..p] + s[p..];
    s[..p] + [x] + s[p..]
  }

  /** DOMTokenList `add`: a token already there stays where it is; a new
      one goes to the end. */
  function AddIfAbsent(s: seq<string>, x: string): (r: seq<string>)
    ensures x in r
    ensures forall y :: y in r <==> y in s || y == x
    ensures x in s ==> r == s
    ensures x !in s ==> r == s + [x]
    ensures NoDup(s) ==> NoDup(r)
  {
    if x in s then s else s + [x]
  }

  /** DOMTokenList `remove`: every occurrence of `x` is dropped and the other
      elements keep their order. */
  function RemoveAll(s: seq<string>, x: string): (r: seq<string>)
    ensures x !in r
    ensures forall y :: y in r <==> y in s && y != x
    ensures x !in s ==> r == s
    ensures NoDup(s) ==> NoDup(r)
  {
    if s == [] then []
    else
      assert s == [s[0]] + s[1..];
      NoDupCons(s[0], s[1..]);
      var rest := RemoveAll(s[1..], x);
      if s[0] == x then rest
      else
        NoDupCons(s[0], rest);
        [s[0]] + rest
  }

  /** In a sequence without repeats, removing `x` drops exactly the one
      position holding it. */
  lemma {:induction false} RemoveAllAt(s: seq<string>, k: nat)
    requires NoDup(s) && k < |s|
    ensures RemoveAll(s, s[k]) == s[..k] + s[k + 1..]
    decreases k
  {
    if k == 0 {
      assert s[k] !in s[1..];
      assert RemoveAll(s[1..], s[0]) == s[1..];
    } else {
      var t := s[1..];
      assert NoDup(t);
      assert t[k - 1] == s[k];
      RemoveAllAt(t, k - 1);
      assert s[0] != s[k];
      calc {
        RemoveAll(s, s[k]);
        [s[0]] + RemoveAll(t, t[k - 1]);
        [s[0]] + (t[..k - 1] + t[k..]);
        { assert [s[0]] + t[..k - 1] == s[..k]; assert t[k..] == s[k + 1..]; }
        s[..k] + s[k + 1..];
      }
    }
  }

  /** Removing distributes over concatenation. */
  lemma {:induction false} RemoveAllAppend(a: seq<string>, b: seq<string>, x: string)
    ensures RemoveAll(a + b, x) == RemoveAll(a, x) + RemoveAll(b, x)
  {
    if a != [] {
      assert (a + b)[1..] == a[1..] + b;
      RemoveAllAppend(a[1..], b, x);
    } else {
      assert a + b == b;
    }
  }

  /** Removing a freshly inserted element gives back the original sequence. */
  lemma RemoveInserted(s: seq<string>, p: nat, x: string)
    requires p <= |s| && x !in s
    ensures RemoveAll(InsertAt(s, p, x), x) == s
  {
    var a, b := s[..p], s[p..];
    var ax := a + [x];
    assert InsertAt(s, p, x) == ax + b;
    assert RemoveAll(ax, x) == a by {
      RemoveAllAppend(a, [x], x);
      assert RemoveAll([x], x) == [] by { assert [x][1..] == []; }
      assert x !in a;
    }
    assert RemoveAll(ax + b, x) == a + b by {
      RemoveAllAppend(ax, b, x);
      assert x !in b;
    }
    assert a + b == s;
  }

  /** Inserting at `p` leaves the element before `p` in place. */
  lemma InsertKeepsBefore(s: seq<string>, p: nat, x: string)
    requires 0 < p <= |s|
    ensures InsertAt(s, p, x)[p - 1] == s[p - 1]
  {
  }

  /** Inserting at the end appends. */
  lemma InsertAtEnd(s: seq<string>, x: string)
    ensures InsertAt(s, |s|, x) == s + [x]
  {
  }
}
