/**
 * The two document-store queries the handlers use, over a collection held as a
 * sequence in natural (insertion) order: `findOne` yields the first document
 * matching a filter, `find` all of them in order.
 */
module Query {
  import opened Wrappers

  /** Index of the first element satisfying p, as `findOne` picks it. */
  function FindFirst<T>(s: seq<T>, p: T -> bool): (r: Option<nat>)
    ensures r.None? <==> forall i :: 0 <= i < |s| ==> !p(s[i])
    ensures r.Some? ==> r.value < |s| && p(s[r.value])
    ensures r.Some? ==> forall j :: 0 <= j < r.value ==> !p(s[j])
    decreases |s|
  {
    if s == [] then None
    else if p(s[0]) then Some(0)
    else match FindFirst(s[1..], p)
      case None => None
      case Some(k) => Some(k + 1)
  }

  /** The elements satisfying p, in their original order, as `find` returns them. */
  function FindAll<T(!new)>(s: seq<T>, p: T -> bool): (r: seq<T>)
    ensures |r| <= |s|
    ensures forall x :: x in r <==> x in s && p(x)
    decreases |s|
  {
    if s == [] then []
    else if p(s[0]) then [s[0]] + FindAll(s[1..], p)
    else FindAll(s[1..], p)
  }

  /** `find` keeps every matching element as many times as it occurs and drops the rest. */
  lemma {:induction false} FindAllCounts<T(!new)>(s: seq<T>, p: T -> bool)
    ensures forall x :: multiset(FindAll(s, p))[x] == if p(x) then multiset(s)[x] else 0
    decreases |s|
  {
    if s != [] {
      FindAllCounts(s[1..], p);
      assert s == [s[0]] + s[1..];
    }
  }

  /** Appending one element extends the result by that element when it matches. */
  lemma {:induction false} FindAllAppend<T(!new)>(s: seq<T>, x: T, p: T -> bool)
    ensures FindAll(s + [x], p) == FindAll(s, p) + (if p(x) then [x] else [])
    decreases |s|
  {
    if s == [] {
      assert s + [x] == [x];
    } else {
      assert (s + [x])[1..] == s[1..] + [x];
      FindAllAppend(s[1..], x, p);
    }
  }

  /** Replacing an element by another, neither of which matches, leaves the result alone. */
  lemma {:induction false} FindAllUpdateUnmatched<T(!new)>(s: seq<T>, i: nat, y: T, p: T -> bool)
    requires i < |s| && !p(s[i]) && !p(y)
    ensures FindAll(s[i := y], p) == FindAll(s, p)
    decreases |s|
  {
    if i > 0 {
      assert s[i := y][1..] == s[1..][i - 1 := y];
      FindAllUpdateUnmatched(s[1..], i - 1, y, p);
    } else {
      assert s[i := y][1..] == s[1..];
    }
  }

  /** Removing an element that does not match leaves the result alone. */
  lemma {:induction false} FindAllRemoveUnmatched<T(!new)>(s: seq<T>, i: nat, p: T -> bool)
    requires i < |s| && !p(s[i])
    ensures FindAll(s[..i] + s[i + 1..], p) == FindAll(s, p)
    decreases |s|
  {
    if i > 0 {
      assert (s[..i] + s[i + 1..])[1..] == s[1..][..i - 1] + s[1..][i..];
      FindAllRemoveUnmatched(s[1..], i - 1, p);
    } else {
      assert s[..i] + s[i + 1..] == s[1..];
    }
  }

  /** Two collections that agree, position by position, on which elements match give the
      same `findOne` answer; so does a collection whose elements were changed only in
      fields the filter does not look at. */
  lemma {:induction false} FindFirstSameMatches<T>(s: seq<T>, t: seq<T>, p: T -> bool)
    requires |s| == |t|
    requires forall i :: 0 <= i < |s| ==> p(s[i]) == p(t[i])
    ensures FindFirst(s, p) == FindFirst(t, p)
    decreases |s|
  {
    if s != [] && !p(s[0]) {
      FindFirstSameMatches(s[1..], t[1..], p);
    }
  }
}
