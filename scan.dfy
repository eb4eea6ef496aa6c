/**
 * Specifications of the linear scans the in-memory repositories perform:
 * the first element that satisfies a test (the early-return `for` loops) and
 * all elements that satisfy it, in stored order (the list comprehension).
 */
module Scan {
  import opened Wrappers

  /** Index of the first element of `s` satisfying `p`, scanning from the front. */
  function FirstIndex<T>(s: seq<T>, p: T -> bool): (r: Option<nat>)
    ensures r.Some? ==> r.value < |s| && p(s[r.value])
    ensures r.Some? ==> forall j :: 0 <= j < r.value ==> !p(s[j])
    ensures r.None? <==> forall j :: 0 <= j < |s| ==> !p(s[j])
  {
    if s == [] then None
    else if p(s[0]) then Some(0)
    else match FirstIndex(s[1..], p)
      case None => None
      case Some(k) => Some(k + 1)
  }

  /** The first element of `s` satisfying `p`: the first stored match wins. */
  function FirstMatch<T>(s: seq<T>, p: T -> bool): (r: Option<T>)
    ensures r.None? <==> forall j :: 0 <= j < |s| ==> !p(s[j])
    ensures forall i :: 0 <= i < |s| && p(s[i]) && (forall j :: 0 <= j < i ==> !p(s[j])) ==> r == Some(s[i])
    ensures r.Some? ==> r.value in s && p(r.value)
  {
    match FirstIndex(s, p)
    case None => None
    case Some(i) => Some(s[i])
  }

  /** Appending an element never changes an existing first match; otherwise the new element is the match if it qualifies. */
  lemma FirstMatchAppend<T>(s: seq<T>, x: T, p: T -> bool)
    ensures FirstMatch(s + [x], p) ==
      if FirstMatch(s, p).Some? then FirstMatch(s, p) else if p(x) then Some(x) else None
  {
    var t := s + [x];
    match FirstIndex(s, p)
    case Some(i) =>
      assert t[i] == s[i];
      assert forall j :: 0 <= j < i ==> t[j] == s[j];
    case None =>
      assert forall j :: 0 <= j < |s| ==> t[j] == s[j];
      assert t[|s|] == x;
  }

  /** The elements of `s` satisfying `p`, in the order they are stored. */
  function Filter<T>(s: seq<T>, p: T -> bool): (r: seq<T>)
    ensures |r| <= |s|
    ensures forall k :: 0 <= k < |r| ==> r[k] in s && p(r[k])
    ensures forall i :: 0 <= i < |s| && p(s[i]) ==> s[i] in r
  {
    if s == [] then []
    else (if p(s[0]) then [s[0]] else []) + Filter(s[1..], p)
  }

  /** Filtering distributes over concatenation, so it keeps the stored order. */
  lemma {:induction false} FilterAppend<T>(s: seq<T>, t: seq<T>, p: T -> bool)
    ensures Filter(s + t, p) == Filter(s, p) + Filter(t, p)
  {
    if s == [] {
      assert s + t == t;
    } else {
      assert (s + t)[0] == s[0];
      assert (s + t)[1..] == s[1..] + t;
      FilterAppend(s[1..], t, p);
    }
  }

  /** Filtering keeps every occurrence of a matching element and drops every occurrence of the others. */
  lemma {:induction false} FilterCount<T>(s: seq<T>, p: T -> bool, x: T)
    ensures multiset(Filter(s, p))[x] == if p(x) then multiset(s)[x] else 0
  {
    if s != [] {
      assert s == [s[0]] + s[1..];
      FilterCount(s[1..], p, x);
    }
  }

  /** Filtering a store that grew by one element. */
  lemma FilterSnoc<T>(s: seq<T>, x: T, p: T -> bool)
    ensures Filter(s + [x], p) == Filter(s, p) + (if p(x) then [x] else [])
  {
    FilterAppend(s, [x], p);
  }
}
