/** The JavaScript string built-ins the two scripts rely on, over `seq<char>`:
    `includes`, `replace` with a string pattern (which removes the first
    occurrence only, found by the search `indexOf` performs), `startsWith`,
    `trim`, and the case conversions restricted to ASCII. */
module Strings {

  // ---------------------------------------------------------------- occurrences

  /** `w` occurs in `s` starting at index `i`. */
  ghost predicate OccursAt(s: string, w: string, i: int)
  {
    0 <= i && i + |w| <= |s| && s[i..i + |w|] == w
  }

  /** `w` occurs somewhere in `s`: the reference meaning of `includes`. */
  ghost predicate Occurs(s: string, w: string)
  {
    exists i :: OccursAt(s, w, i)
  }

  /** The first occurrence of `w` at or after `from`, or -1. */
  function IndexOfFrom(s: string, w: string, from: nat): (r: int)
    decreases |s| - from
    ensures r == -1 || (from <= r && OccursAt(s, w, r))
    ensures r == -1 ==> forall i :: from <= i ==> !OccursAt(s, w, i)
    ensures r != -1 ==> forall i :: from <= i < r ==> !OccursAt(s, w, i)
  {
    if from + |w| > |s| then -1
    else if s[from..from + |w|] == w then from
    else IndexOfFrom(s, w, from + 1)
  }

  /** The first occurrence of `w` in `s`, or -1: the search `replace` performs
      (what `s.indexOf(w)` computes). */
  function IndexOf(s: string, w: string): (r: int)
    ensures r == -1 <==> !Occurs(s, w)
    ensures r != -1 ==> OccursAt(s, w, r) && forall i :: 0 <= i < r ==> !OccursAt(s, w, i)
  {
    IndexOfFrom(s, w, 0)
  }

  /** `s.includes(w)`. */
  function Contains(s: string, w: string): (r: bool)
    ensures r <==> Occurs(s, w)
  {
    if |w| > |s| then
      assert forall i :: !OccursAt(s, w, i);
      false
    else if s[..|w|] == w then
      assert OccursAt(s, w, 0);
      true
    else
      ShiftOccurs(s, w);
      Contains(s[1..], w)
  }

  /** Occurrences in the tail of `s` are the occurrences in `s` past index 0. */
  lemma ShiftOccurs(s: string, w: string)
    requires |s| > 0
    ensures forall i :: 0 <= i ==> (OccursAt(s[1..], w, i) <==> OccursAt(s, w, i + 1))
    ensures !OccursAt(s, w, 0) ==> (Occurs(s[1..], w) <==> Occurs(s, w))
  {
    forall i | 0 <= i ensures OccursAt(s[1..], w, i) <==> OccursAt(s, w, i + 1) {
      if 0 <= i && i + |w| <= |s| - 1 {
        assert s[1..][i..i + |w|] == s[i + 1..i + 1 + |w|];
      }
    }
    if !OccursAt(s, w, 0) && Occurs(s, w) {
      var j :| OccursAt(s, w, j);
      assert OccursAt(s[1..], w, j - 1);
    }
  }

  /** `s.startsWith(p)`. */
  predicate StartsWith(s: string, p: string)
    ensures StartsWith(s, p) <==> OccursAt(s, p, 0)
  {
    |p| <= |s| && s[..|p|] == p
  }

  /** `s.replace(w, '')` for a string pattern: only the first occurrence of `w`
      is removed; without one, `s` is returned as it is. */
  function RemoveFirst(s: string, w: string): (r: string)
    ensures !Occurs(s, w) ==> r == s
    ensures Occurs(s, w) ==> |r| == |s| - |w|
    ensures Occurs(s, w) ==>
      IndexOf(s, w) + |w| <= |s| && r == s[..IndexOf(s, w)] + s[IndexOf(s, w) + |w|..]
  {
    var i := IndexOf(s, w);
    if i == -1 then s else s[..i] + s[i + |w|..]
  }

  /** Removing a prefix that is there leaves exactly the rest of the string. */
  lemma RemoveFirstOfPrefix(s: string, p: string)
    requires StartsWith(s, p)
    ensures RemoveFirst(s, p) == s[|p|..]
  {
  }

  /** A string that does not hold the first character of `w` cannot hold `w`. */
  lemma NotOccursWithoutFirstChar(s: string, w: string)
    requires |w| > 0 && w[0] !in s
    ensures !Occurs(s, w)
  {
  }

  // ---------------------------------------------------------------- ASCII case

  function LowerChar(c: char): char
  {
    if 'A' <= c <= 'Z' then (c as int + 32) as char else c
  }

  function UpperChar(c: char): char
  {
    if 'a' <= c <= 'z' then (c as int - 32) as char else c
  }

  /** `s.toLowerCase()`, for the ASCII letters. */
  function Lower(s: string): (r: string)
    ensures |r| == |s|
    ensures forall i :: 0 <= i < |r| ==> !('A' <= r[i] <= 'Z')
    ensures forall i :: 0 <= i < |s| && 'A' <= s[i] <= 'Z' ==> r[i] as int == s[i] as int + 32
    ensures forall i :: 0 <= i < |s| && !('A' <= s[i] <= 'Z') ==> r[i] == s[i]
  {
    seq(|s|, i requires 0 <= i < |s| => LowerChar(s[i]))
  }

  /** `s.toUpperCase()`, for the ASCII letters. */
  function Upper(s: string): (r: string)
    ensures |r| == |s|
    ensures forall i :: 0 <= i < |r| ==> !('a' <= r[i] <= 'z')
    ensures forall i :: 0 <= i < |s| && 'a' <= s[i] <= 'z' ==> r[i] as int == s[i] as int - 32
    ensures forall i :: 0 <= i < |s| && !('a' <= s[i] <= 'z') ==> r[i] == s[i]
  {
    seq(|s|, i requires 0 <= i < |s| => UpperChar(s[i]))
  }

  /** Lower-casing commutes with taking a slice. */
  lemma LowerSlice(s: string, i: nat, j: nat)
    requires i <= j <= |s|
    ensures Lower(s)[i..j] == Lower(s[i..j])
  {
  }

  /** The case-insensitive search both scripts perform: if some piece of `s`
      spells `w` in any mix of upper and lower case, the lower-cased `s`
      contains the lower-case word `w`. */
  lemma FoldedOccurrence(s: string, w: string, i: nat)
    requires i + |w| <= |s| && Lower(s[i..i + |w|]) == w
    ensures Contains(Lower(s), w)
  {
    LowerSlice(s, i, i + |w|);
    assert OccursAt(Lower(s), w, i);
  }

  // ---------------------------------------------------------------- trim

  /** The characters `String.prototype.trim` removes: ECMAScript WhiteSpace
      (TAB, VT, FF, ZWNBSP and every space separator) and LineTerminator. */
  predicate IsWhiteSpace(c: char)
  {
    c == '\t' || c == '\n' || c == '\U{000B}' || c == '\U{000C}' || c == '\r' || c == ' '
    || c == '\U{00A0}' || c == '\U{1680}' || ('\U{2000}' <= c <= '\U{200A}')
    || c == '\U{2028}' || c == '\U{2029}' || c == '\U{202F}' || c == '\U{205F}'
    || c == '\U{3000}' || c == '\U{FEFF}'
  }

  /** Index of the first character of `s` at or after `from` that is not white space. */
  function SkipLeading(s: string, from: nat): (r: nat)
    requires from <= |s|
    decreases |s| - from
    ensures from <= r <= |s|
    ensures forall k :: from <= k < r ==> IsWhiteSpace(s[k])
    ensures r < |s| ==> !IsWhiteSpace(s[r])
  {
    if from == |s| || !IsWhiteSpace(s[from]) then from else SkipLeading(s, from + 1)
  }

  /** One past the last character of `s[..to]` that is not white space, or 0. */
  function SkipTrailing(s: string, to: nat): (r: nat)
    requires to <= |s|
    ensures r <= to
    ensures forall k :: r <= k < to ==> IsWhiteSpace(s[k])
    ensures r > 0 ==> !IsWhiteSpace(s[r - 1])
  {
    if to == 0 || !IsWhiteSpace(s[to - 1]) then to else SkipTrailing(s, to - 1)
  }

  /** Where the trimmed text starts: the first character that is not white space. */
  function TrimStart(s: string): nat
  {
    SkipLeading(s, 0)
  }

  /** Where the trimmed text ends: one past the last character that is not
      white space (or the start, when there is none). */
  function TrimEnd(s: string): nat
  {
    var b := SkipTrailing(s, |s|);
    if b > TrimStart(s) then b else TrimStart(s)
  }

  /** `s.trim()`: the slice of `s` between the white space at its two ends;
      only white space is dropped, and the result neither starts nor ends
      with it. */
  function Trim(s: string): (r: string)
    ensures TrimStart(s) <= TrimEnd(s) <= |s|
    ensures forall k :: 0 <= k < TrimStart(s) ==> IsWhiteSpace(s[k])
    ensures forall k :: TrimEnd(s) <= k < |s| ==> IsWhiteSpace(s[k])
    ensures r == [] || (!IsWhiteSpace(r[0]) && !IsWhiteSpace(r[|r| - 1]))
    ensures r == s[TrimStart(s)..TrimEnd(s)]
  {
    s[TrimStart(s)..TrimEnd(s)]
  }

  /** A slice of a slice is a slice. */
  lemma SliceOfSlice(s: string, a: nat, b: nat, i: nat, n: nat)
    requires a <= i && i + n <= b <= |s|
    ensures s[a..b][i - a..i - a + n] == s[i..i + n]
  {
    var t := s[a..b][i - a..i - a + n];
    assert |t| == n;
    forall k | 0 <= k < n ensures t[k] == s[i..i + n][k] {
      assert t[k] == s[a..b][i - a + k] == s[i + k];
    }
  }

  /** Trimming keeps every occurrence of a non-empty word whose first and last
      characters are not white space. */
  lemma TrimKeepsWord(s: string, w: string)
    requires Occurs(s, w) && |w| > 0
    requires !IsWhiteSpace(w[0]) && !IsWhiteSpace(w[|w| - 1])
    ensures Occurs(Trim(s), w)
  {
    var i :| OccursAt(s, w, i);
    var j := i + |w| - 1;
    var a := TrimStart(s);
    var b := TrimEnd(s);
    assert s[i] == w[0] by { assert s[i..i + |w|][0] == s[i]; }
    assert s[j] == w[|w| - 1] by { assert s[i..i + |w|][|w| - 1] == s[j]; }
    assert a <= i by { assert !IsWhiteSpace(s[i]); }
    assert j < b by { assert !IsWhiteSpace(s[j]); }
    SliceOfSlice(s, a, b, i, |w|);
    assert OccursAt(Trim(s), w, i - a);
  }
}
