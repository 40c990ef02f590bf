/** Facts about sequences that the SARIF rule table and the artifact index rely on:
    distinctness, first-occurrence deduplication and the position of first occurrence. */
module Seqs {

  /** No element occurs twice. */
  predicate Distinct<T(==)>(s: seq<T>) {
    forall i, j :: 0 <= i < j < |s| ==> s[i] != s[j]
  }

  /** The elements of `s` in order of first occurrence, later repetitions dropped.
      This is what inserting every element of `s` into a Python dict with
      `setdefault` leaves as the dict's key order. */
  function Dedup<T(==)>(s: seq<T>): seq<T>
    decreases |s|
  {
    if s == [] then []
    else
      var init := s[..|s| - 1];
      if s[|s| - 1] in init then Dedup(init) else Dedup(init) + [s[|s| - 1]]
  }

  /** Index of the first occurrence of `x` in `s`. */
  function FirstIndex<T(==)>(s: seq<T>, x: T): (i: nat)
    requires x in s
    ensures i < |s| && s[i] == x
    ensures forall k :: 0 <= k < i ==> s[k] != x
  {
    if s[0] == x then 0 else 1 + FirstIndex(s[1..], x)
  }

  /** `r` lists each element of `s` exactly once, ordered by where it first occurs in `s`. */
  predicate FirstOccurrenceOrder<T(==)>(s: seq<T>, r: seq<T>) {
    && Distinct(r)
    && (forall i :: 0 <= i < |r| ==> r[i] in s)
    && (forall i :: 0 <= i < |s| ==> s[i] in r)
    && (forall i, j :: 0 <= i < j < |r| && r[i] in s && r[j] in s ==> FirstIndex(s, r[i]) < FirstIndex(s, r[j]))
  }

  lemma {:induction false} DedupMembers<T>(s: seq<T>)
    ensures forall x :: x in Dedup(s) <==> x in s
    decreases |s|
  {
    if s != [] {
      var init := s[..|s| - 1];
      DedupMembers(init);
      assert s == init + [s[|s| - 1]];
    }
  }

  lemma {:induction false} DedupDistinct<T>(s: seq<T>)
    ensures Distinct(Dedup(s))
    decreases |s|
  {
    if s != [] {
      var init := s[..|s| - 1];
      DedupDistinct(init);
      DedupMembers(init);
    }
  }

  /** Appending an element does not move the first occurrence of anything already present. */
  lemma {:induction false} FirstIndexAppend<T>(s: seq<T>, x: T, y: T)
    requires y in s
    ensures FirstIndex(s + [x], y) == FirstIndex(s, y)
    decreases |s|
  {
    if s[0] != y {
      assert (s + [x])[1..] == s[1..] + [x];
      FirstIndexAppend(s[1..], x, y);
    }
  }

  /** Dedup is a first-occurrence listing: no repeats, the same elements, ordered by first occurrence. */
  lemma {:induction false} DedupFirstOccurrence<T>(s: seq<T>)
    ensures FirstOccurrenceOrder(s, Dedup(s))
    decreases |s|
  {
    DedupDistinct(s);
    DedupMembers(s);
    if s != [] {
      var init, x := s[..|s| - 1], s[|s| - 1];
      assert s == init + [x];
      DedupFirstOccurrence(init);
      DedupMembers(init);
      var r := Dedup(s);
      forall i, j | 0 <= i < j < |r| && r[i] in s && r[j] in s
        ensures FirstIndex(s, r[i]) < FirstIndex(s, r[j])
      {
        var d := Dedup(init);
        assert r[i] in init by {
          assert i < |d|;
          assert r[i] == d[i];
        }
        FirstIndexAppend(init, x, r[i]);
        if j < |d| {
          assert r[j] == d[j];
          FirstIndexAppend(init, x, r[j]);
        } else {
          assert r[j] == x && x !in init;
          assert FirstIndex(s, x) == |init|;
        }
      }
    }
  }

  /** Dropping the last element of `s` does not move the first occurrence of
      anything that occurs earlier. */
  lemma FirstIndexInit<T>(s: seq<T>, y: T)
    requires |s| > 0 && y in s[..|s| - 1]
    ensures FirstIndex(s, y) == FirstIndex(s[..|s| - 1], y)
  {
    assert s == s[..|s| - 1] + [s[|s| - 1]];
    FirstIndexAppend(s[..|s| - 1], s[|s| - 1], y);
  }

  /** Dropping the last element of `s` keeps the first occurrence of everything
      that occurs before it, and all of those come before the last position. */
  lemma FirstIndexInitAll<T>(s: seq<T>)
    requires |s| > 0
    ensures forall y :: y in s[..|s| - 1] ==> FirstIndex(s, y) == FirstIndex(s[..|s| - 1], y) < |s| - 1
  {
    forall y | y in s[..|s| - 1]
      ensures FirstIndex(s, y) == FirstIndex(s[..|s| - 1], y) < |s| - 1
    {
      FirstIndexInit(s, y);
    }
  }

  /** When the last element of `s` occurred before, a first-occurrence listing of `s` is one of its prefix. */
  lemma FirstOccurrenceOrderRepeat<T>(s: seq<T>, r: seq<T>)
    requires FirstOccurrenceOrder(s, r) && |s| > 0 && s[|s| - 1] in s[..|s| - 1]
    ensures FirstOccurrenceOrder(s[..|s| - 1], r)
  {
    var p := s[..|s| - 1];
    assert s == p + [s[|s| - 1]];
    FirstIndexInitAll(s);
    assert forall i :: 0 <= i < |r| ==> r[i] in s;
  }

  /** When the last element of `s` is new, it ends every first-occurrence listing of `s`. */
  lemma FirstOccurrenceOrderNewLast<T>(s: seq<T>, r: seq<T>)
    requires FirstOccurrenceOrder(s, r) && |s| > 0 && s[|s| - 1] !in s[..|s| - 1]
    ensures |r| > 0 && r[|r| - 1] == s[|s| - 1]
    ensures r == r[..|r| - 1] + [s[|s| - 1]]
  {
    var p, x := s[..|s| - 1], s[|s| - 1];
    assert s == p + [x];
    FirstIndexInitAll(s);
    assert s[|p|] == x;
    var k :| 0 <= k < |r| && r[k] == x;
    assert FirstIndex(s, x) == |p|;
    var last := |r| - 1;
    assert r[last] in s;
    assert k == last;
    assert r == r[..last] + [r[last]];
  }

  /** ... and the rest of the listing is a first-occurrence listing of the prefix. */
  lemma FirstOccurrenceOrderNew<T>(s: seq<T>, r: seq<T>)
    requires FirstOccurrenceOrder(s, r) && |s| > 0 && s[|s| - 1] !in s[..|s| - 1]
    ensures |r| > 0 && r == r[..|r| - 1] + [s[|s| - 1]]
    ensures FirstOccurrenceOrder(s[..|s| - 1], r[..|r| - 1])
  {
    FirstOccurrenceOrderNewLast(s, r);
    var p, x := s[..|s| - 1], s[|s| - 1];
    var r' := r[..|r| - 1];
    assert s == p + [x];
    FirstIndexInitAll(s);
    forall i | 0 <= i < |r'|
      ensures r'[i] in p
    {
      assert r'[i] == r[i] && r[i] in s && r[i] != x;
    }
    forall i | 0 <= i < |p|
      ensures p[i] in r'
    {
      assert p[i] == s[i] && p[i] in r && p[i] != x;
    }
    forall i, j | 0 <= i < j < |r'| && r'[i] in p && r'[j] in p
      ensures FirstIndex(p, r'[i]) < FirstIndex(p, r'[j])
    {
      assert r'[i] == r[i] && r'[j] == r[j];
    }
  }

  /** First-occurrence order determines the listing: Dedup is the only sequence with that property. */
  lemma {:induction false} FirstOccurrenceOrderUnique<T>(s: seq<T>, r: seq<T>)
    requires FirstOccurrenceOrder(s, r)
    ensures r == Dedup(s)
    decreases |s|
  {
    // every element of r occurs in s, so r is empty when s is
    assert |r| == 0 || r[0] in s;
    if s != [] {
      var p, x := s[..|s| - 1], s[|s| - 1];
      if x in p {
        FirstOccurrenceOrderRepeat(s, r);
        FirstOccurrenceOrderUnique(p, r);
        assert Dedup(s) == Dedup(p);
      } else {
        var r' := r[..|r| - 1];
        FirstOccurrenceOrderNew(s, r);
        FirstOccurrenceOrderUnique(p, r');
        assert Dedup(s) == Dedup(p) + [x];
      }
    }
  }

  /** Deduplicating a longer sequence only appends to the deduplication of its prefix. */
  lemma {:induction false} DedupPrefix<T>(s: seq<T>, t: seq<T>)
    ensures Dedup(s) <= Dedup(s + t)
    decreases |t|
  {
    if t == [] {
      assert s + t == s;
    } else {
      var init := t[..|t| - 1];
      assert (s + t)[..|s + t| - 1] == s + init;
      DedupPrefix(s, init);
    }
  }

  /** A repetition-free sequence has as many elements as the set of its elements. */
  lemma {:induction false} DistinctCardinality<T>(s: seq<T>)
    requires Distinct(s)
    ensures |set x | x in s| == |s|
    decreases |s|
  {
    if s != [] {
      var init, x := s[..|s| - 1], s[|s| - 1];
      assert s == init + [x];
      DistinctCardinality(init);
      assert x !in init;
      assert (set y | y in s) == (set y | y in init) + {x};
    }
  }
}
