/** Sequence operations that the to-do component builds its arrays with:
    `Array.prototype.map`, `Array.prototype.filter` and `Array.prototype.slice`,
    together with the order-preserving subsequence relation that filtering keeps. */
module Seqs {

  /** `a` can be obtained from `b` by deleting elements, keeping the order of the rest. */
  predicate IsSubseq<T(==)>(a: seq<T>, b: seq<T>)
    decreases |b|
  {
    if a == [] then true
    else if b == [] then false
    else (a[0] == b[0] && IsSubseq(a[1..], b[1..])) || IsSubseq(a, b[1..])
  }

  /** `s.map(f)`: one result per element, at the same index. */
  function Map<T, U>(s: seq<T>, f: T -> U): (r: seq<U>)
    ensures |r| == |s|
    ensures forall i :: 0 <= i < |s| ==> r[i] == f(s[i])
  {
    if s == [] then [] else [f(s[0])] + Map(s[1..], f)
  }

  /** `s.filter(p)`: the elements that satisfy `p`, in their original order and
      with their original multiplicities, and nothing else. */
  function Filter<T(==, !new)>(s: seq<T>, p: T -> bool): (r: seq<T>)
    ensures |r| <= |s|
    ensures IsSubseq(r, s)
    ensures forall i :: 0 <= i < |r| ==> p(r[i])
    ensures forall x :: x in r <==> x in s && p(x)
    ensures forall x :: p(x) ==> multiset(r)[x] == multiset(s)[x]
    ensures multiset(r) <= multiset(s)
  {
    if s == [] then []
    else
      var rest := Filter(s[1..], p);
      assert s == [s[0]] + s[1..];
      if p(s[0]) then
        assert ([s[0]] + rest)[1..] == rest;
        [s[0]] + rest
      else
        rest
  }

  /** Filtering keeps a sequence whose elements all satisfy the predicate. */
  lemma {:induction false} FilterAll<T(!new)>(s: seq<T>, p: T -> bool)
    requires forall x :: x in s ==> p(x)
    ensures Filter(s, p) == s
  {
    if s != [] {
      FilterAll(s[1..], p);
    }
  }

  /** Filtering removes everything from a sequence none of whose elements satisfy the predicate. */
  lemma {:induction false} FilterNone<T(!new)>(s: seq<T>, p: T -> bool)
    requires forall x :: x in s ==> !p(x)
    ensures Filter(s, p) == []
  {
    if s != [] {
      FilterNone(s[1..], p);
    }
  }

  /** A map that leaves every element the predicate can see untouched, and does not
      change whether an element satisfies the predicate, leaves the filtered view unchanged. */
  lemma {:induction false} FilterAfterMap<T(!new)>(s: seq<T>, f: T -> T, p: T -> bool)
    requires forall x :: x in s ==> p(f(x)) == p(x)
    requires forall x :: x in s && p(x) ==> f(x) == x
    ensures Filter(Map(s, f), p) == Filter(s, p)
  {
    if s != [] {
      assert Map(s, f) == [f(s[0])] + Map(s[1..], f);
      assert ([f(s[0])] + Map(s[1..], f))[1..] == Map(s[1..], f);
      FilterAfterMap(s[1..], f, p);
    }
  }

  /** `s.slice(start, end)` for non-negative bounds: both bounds are clipped to the
      length, and a start at or past the end gives the empty sequence. */
  function Slice<T>(s: seq<T>, start: nat, end: nat): (r: seq<T>)
    ensures |r| == if start < end && start < |s| then (if end < |s| then end else |s|) - start else 0
    ensures forall k :: 0 <= k < |r| ==> start + k < |s| && r[k] == s[start + k]
  {
    var lo := if start < |s| then start else |s|;
    var hi := if end < |s| then end else |s|;
    if lo < hi then s[lo..hi] else []
  }

  /** Filtering drops at least one element of a sequence that holds an element failing the predicate. */
  lemma {:induction false} FilterDropShrinks<T(!new)>(s: seq<T>, p: T -> bool, x: T)
    requires x in s && !p(x)
    ensures |Filter(s, p)| < |s|
  {
    if s[0] != x {
      FilterDropShrinks(s[1..], p, x);
    }
  }

  /** `s.splice(i, 1)` for an index inside the sequence: the element at `i` is taken out. */
  function RemoveAt<T>(s: seq<T>, i: nat): (r: seq<T>)
    requires i < |s|
    ensures |r| == |s| - 1
    ensures forall k :: 0 <= k < i ==> r[k] == s[k]
    ensures forall k :: i <= k < |r| ==> r[k] == s[k + 1]
  {
    s[..i] + s[i + 1..]
  }

  /** `s.splice(i, 0, x)` for a non-negative index: `x` is inserted before position `i`,
      or appended when `i` is past the end (the array method clips the index to the length). */
  function InsertAt<T>(s: seq<T>, i: nat, x: T): (r: seq<T>)
    ensures |r| == |s| + 1
    ensures var j := if i < |s| then i else |s|;
      r[j] == x &&
      (forall k :: 0 <= k < j ==> r[k] == s[k]) &&
      (forall k :: j < k < |r| ==> r[k] == s[k - 1])
  {
    var j := if i < |s| then i else |s|;
    s[..j] + [x] + s[j..]
  }

  /** Moving the element at `from` so that it lands at `to`: take it out, then insert it
      again into what remains. */
  function Move<T>(s: seq<T>, from: nat, to: nat): seq<T>
    requires from < |s|
  {
    InsertAt(RemoveAt(s, from), to, s[from])
  }

  /** The index at which `Move` puts the moved element: `to`, clipped to the last index. */
  function Landing(n: nat, to: nat): nat
    requires n > 0
  {
    if to < n - 1 then to else n - 1
  }

  /** A move is a permutation: same length, same elements with the same multiplicities. */
  lemma MovePermutes<T>(s: seq<T>, from: nat, to: nat)
    requires from < |s|
    ensures |Move(s, from, to)| == |s|
    ensures multiset(Move(s, from, to)) == multiset(s)
  {
    var rest := RemoveAt(s, from);
    assert s == s[..from] + [s[from]] + s[from + 1..];
    assert multiset(rest) + multiset{s[from]} == multiset(s);
    var j := if to < |rest| then to else |rest|;
    assert Move(s, from, to) == rest[..j] + [s[from]] + rest[j..];
    assert rest == rest[..j] + rest[j..];
  }

  /** The moved element ends up at the landing index, and taking it out again gives
      back the other elements in their original relative order. */
  lemma MoveLands<T>(s: seq<T>, from: nat, to: nat)
    requires from < |s|
    ensures Landing(|s|, to) < |Move(s, from, to)|
    ensures Move(s, from, to)[Landing(|s|, to)] == s[from]
    ensures RemoveAt(Move(s, from, to), Landing(|s|, to)) == RemoveAt(s, from)
  {
    var rest := RemoveAt(s, from);
    var m := Move(s, from, to);
    var j := Landing(|s|, to);
    assert m == rest[..j] + [s[from]] + rest[j..];
    assert RemoveAt(m, j) == rest;
  }
}
