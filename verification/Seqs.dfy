/**
 * Sequence notions shared by the aggregation code: distinctness, the position of
 * a value's first appearance, and the "append if not yet seen" deduplication that
 * both `Counter` (key order) and the `seen` lists of the analysers perform.
 */
module Seqs {

  predicate Distinct<T(==)>(s: seq<T>) {
    forall i, j :: 0 <= i < j < |s| ==> s[i] != s[j]
  }

  /** Index of the first occurrence of `x` in `s`, or `|s|` when `x` does not occur. */
  function FirstIndex<T(==)>(s: seq<T>, x: T): (i: nat)
    ensures i <= |s|
    ensures i < |s| ==> s[i] == x
    ensures forall j :: 0 <= j < i ==> s[j] != x
    ensures i == |s| <==> x !in s
  {
    if |s| == 0 then 0
    else if s[0] == x then 0
    else 1 + FirstIndex(s[1..], x)
  }

  /**
   * The distinct elements of `s` in order of first appearance: what the loop
   * `for v in s: if v not in seen: seen.append(v)` leaves in `seen`.
   */
  function FirstSeen<T(==)>(s: seq<T>): (d: seq<T>)
    ensures forall k :: 0 <= k < |d| ==> d[k] in s
    ensures forall k :: 0 <= k < |s| ==> s[k] in d
    ensures Distinct(d)
    ensures |d| <= |s|
  {
    if s == [] then []
    else
      var d := FirstSeen(s[..|s| - 1]);
      var x := s[|s| - 1];
      assert s == s[..|s| - 1] + [x];
      if x in d then d else d + [x]
  }

  /** One more element is listed by `FirstSeen` exactly when it has not been seen. */
  lemma FirstSeenSnoc<T>(s: seq<T>, x: T)
    ensures FirstSeen(s + [x]) == if x in FirstSeen(s) then FirstSeen(s) else FirstSeen(s) + [x]
  {
    assert (s + [x])[..|s|] == s;
  }

  /** Appending an element does not move the first appearance of an element already present. */
  lemma FirstIndexAppend<T>(s: seq<T>, x: T, y: T)
    requires y in s
    ensures FirstIndex(s + [x], y) == FirstIndex(s, y)
  {
    var i, k := FirstIndex(s + [x], y), FirstIndex(s, y);
    assert (s + [x])[k] == y;
    assert i <= k;
    assert i < |s| && s[i] == y;
  }

  /** The elements of `d` appear in `s` for the first time in the order `d` lists them. */
  predicate InFirstAppearanceOrder<T(==)>(s: seq<T>, d: seq<T>) {
    forall i, j :: 0 <= i < j < |d| ==> FirstIndex(s, d[i]) < FirstIndex(s, d[j])
  }

  /** `FirstSeen` lists its elements in increasing order of their first appearance in `s`. */
  lemma {:induction false} FirstSeenOrder<T>(s: seq<T>)
    ensures InFirstAppearanceOrder(s, FirstSeen(s))
  {
    if s != [] {
      var t, x := s[..|s| - 1], s[|s| - 1];
      FirstSeenOrder(t);
      FirstSeenOrderSnoc(t, x);
      LastSplit(s);
    }
  }

  /** One step of `FirstSeenOrder`: appending an element keeps the order of first appearances. */
  lemma FirstSeenOrderSnoc<T>(t: seq<T>, x: T)
    requires InFirstAppearanceOrder(t, FirstSeen(t))
    ensures InFirstAppearanceOrder(t + [x], FirstSeen(t + [x]))
  {
    var s, d', d := t + [x], FirstSeen(t), FirstSeen(t + [x]);
    FirstSeenSnoc(t, x);
    forall i, j | 0 <= i < j < |d|
      ensures FirstIndex(s, d[i]) < FirstIndex(s, d[j])
    {
      assert d[i] == d'[i];
      FirstIndexAppend(t, x, d'[i]);
      if j < |d'| {
        assert d[j] == d'[j];
        FirstIndexAppend(t, x, d'[j]);
      } else {
        assert d[j] == x && x !in d';
        NotSeenNotIn(t, x);
        FirstIndexNew(t, x);
      }
    }
  }

  /** An element not seen before first appears where it is appended. */
  lemma FirstIndexNew<T>(t: seq<T>, x: T)
    requires x !in t
    ensures FirstIndex(t + [x], x) == |t|
  {
    assert (t + [x])[|t|] == x;
  }

  /** What `FirstSeen` has not listed does not occur. */
  lemma NotSeenNotIn<T>(t: seq<T>, x: T)
    requires x !in FirstSeen(t)
    ensures x !in t
  {
    forall k | 0 <= k < |t|
      ensures t[k] != x
    {
      assert t[k] in FirstSeen(t);
    }
  }

  /** A non-empty sequence is its front followed by its last element. */
  lemma LastSplit<T>(s: seq<T>)
    requires s != []
    ensures s == s[..|s| - 1] + [s[|s| - 1]]
  {
  }
}
