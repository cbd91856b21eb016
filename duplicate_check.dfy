/** The duplicate check that `InOrder.__init__` runs before it accepts a watch
    list: `Counter(mocks)` counts every mock, and a list comprehension over
    `counter.items()` keeps each mock whose count exceeds one.  A `Counter`
    is a dict, so its keys come in the order they were first inserted, that
    is, in the order of each mock's first occurrence in the list. */
module DuplicateCheck {

  /** No element occurs twice: the watch list is duplicate-free. */
  predicate NoRepeats<T(==)>(s: seq<T>) {
    forall i, j :: 0 <= i < j < |s| ==> s[i] != s[j]
  }

  /** The position of the first occurrence of `x` in `s`. */
  function FirstIndex<T(==)>(s: seq<T>, x: T): (k: nat)
    requires x in s
    ensures k < |s| && s[k] == x && x !in s[..k]
  {
    if s[0] == x then 0
    else
      var k' := FirstIndex(s[1..], x);
      assert s[..k' + 1] == [s[0]] + s[1..][..k'];
      k' + 1
  }

  /** The first occurrence is the only index holding `x` with no `x` before it. */
  lemma FirstIndexUnique<T>(s: seq<T>, x: T, k: nat)
    requires k < |s| && s[k] == x && x !in s[..k]
    ensures FirstIndex(s, x) == k
  {
  }

  /** Appending at the back does not move the first occurrence of an element
      that is already there, and puts a new element at the end. */
  lemma FirstIndexAppend<T>(p: seq<T>, x: T, y: T)
    requires y in p + [x]
    ensures y in p ==> FirstIndex(p + [x], y) == FirstIndex(p, y)
    ensures y !in p ==> FirstIndex(p + [x], y) == |p|
  {
    var q := p + [x];
    if y in p {
      var k := FirstIndex(p, y);
      assert q[..k] == p[..k];
      FirstIndexUnique(q, y, k);
    } else {
      assert q[..|p|] == p;
      FirstIndexUnique(q, y, |p|);
    }
  }

  /** The elements of `r` appear in the order of their first occurrence in `s`. */
  predicate InFirstOccurrenceOrder<T(==)>(r: seq<T>, s: seq<T>) {
    && (forall i :: 0 <= i < |r| ==> r[i] in s)
    && (forall i, j :: 0 <= i < j < |r| ==>
          r[i] in s && r[j] in s && FirstIndex(s, r[i]) < FirstIndex(s, r[j]))
  }

  /** The keys of `Counter(s)`, in the dict's iteration order. */
  function Keys<T(==, !new)>(s: seq<T>): (ks: seq<T>)
    ensures forall x :: x in ks <==> x in s
    ensures NoRepeats(ks)
  {
    if s == [] then []
    else
      var ks' := Keys(s[..|s| - 1]);
      if s[|s| - 1] in ks' then ks' else ks' + [s[|s| - 1]]
  }

  /** Iterating the `Counter` visits each key in first-occurrence order. */
  lemma {:induction false} KeysInFirstOccurrenceOrder<T(!new)>(s: seq<T>)
    ensures InFirstOccurrenceOrder(Keys(s), s)
  {
    if s != [] {
      var p, x := s[..|s| - 1], s[|s| - 1];
      assert s == p + [x];
      KeysInFirstOccurrenceOrder(p);
      var ks', ks := Keys(p), Keys(s);
      forall i, j | 0 <= i < j < |ks|
        ensures FirstIndex(s, ks[i]) < FirstIndex(s, ks[j])
      {
        FirstIndexAppend(p, x, ks[i]);
        FirstIndexAppend(p, x, ks[j]);
        if j == |ks'| {
          assert ks[i] == ks'[i] && ks[i] in p;
          assert ks[j] == x && x !in p;
          assert FirstIndex(p, ks[i]) < |p|;
        } else {
          assert ks[i] == ks'[i] && ks[j] == ks'[j];
        }
      }
    }
  }

  /** The comprehension `[k for k, freq in counter.items() if freq > 1]`,
      where the frequency of `k` is its multiplicity in `s`. */
  function Repeated<T(==, !new)>(ks: seq<T>, s: seq<T>): (r: seq<T>)
    ensures forall x :: x in r <==> x in ks && multiset(s)[x] > 1
    ensures NoRepeats(ks) ==> NoRepeats(r)
  {
    if ks == [] then []
    else (if multiset(s)[ks[0]] > 1 then [ks[0]] else []) + Repeated(ks[1..], s)
  }

  /** Dropping the first element keeps the rest in order. */
  lemma TailInFirstOccurrenceOrder<T>(ks: seq<T>, s: seq<T>)
    requires ks != [] && InFirstOccurrenceOrder(ks, s)
    ensures InFirstOccurrenceOrder(ks[1..], s)
  {
    var tail := ks[1..];
    forall i, j | 0 <= i < j < |tail|
      ensures FirstIndex(s, tail[i]) < FirstIndex(s, tail[j])
    {
      assert tail[i] == ks[i + 1] && tail[j] == ks[j + 1];
    }
  }

  /** An element that comes first in `ks` occurs in `s` before every element
      kept from the rest of `ks`. */
  lemma ConsInFirstOccurrenceOrder<T(!new)>(ks: seq<T>, s: seq<T>, rt: seq<T>)
    requires ks != [] && InFirstOccurrenceOrder(ks, s) && InFirstOccurrenceOrder(rt, s)
    requires forall y :: y in rt ==> y in ks[1..]
    ensures InFirstOccurrenceOrder([ks[0]] + rt, s)
  {
    var r := [ks[0]] + rt;
    forall i, j | 0 <= i < j < |r|
      ensures FirstIndex(s, r[i]) < FirstIndex(s, r[j])
    {
      if i == 0 {
        assert r[j] == rt[j - 1] && rt[j - 1] in ks[1..];
        var j' :| 0 <= j' < |ks[1..]| && ks[1..][j'] == r[j];
        assert ks[j' + 1] == r[j];
      } else {
        assert r[i] == rt[i - 1] && r[j] == rt[j - 1];
      }
    }
  }

  /** Keeping only some keys does not disturb their order. */
  lemma {:induction false} RepeatedKeepsOrder<T(!new)>(ks: seq<T>, s: seq<T>)
    requires InFirstOccurrenceOrder(ks, s)
    ensures InFirstOccurrenceOrder(Repeated(ks, s), s)
  {
    if ks != [] {
      TailInFirstOccurrenceOrder(ks, s);
      RepeatedKeepsOrder(ks[1..], s);
      if multiset(s)[ks[0]] > 1 {
        ConsInFirstOccurrenceOrder(ks, s, Repeated(ks[1..], s));
      }
    }
  }

  /** The mocks that `InOrder.__init__` reports as duplicated.  Each one is
      named once, exactly the mocks that occur at least twice are named, and
      they are named in the order of their first occurrence. */
  function Duplicates<T(==, !new)>(s: seq<T>): (dups: seq<T>)
    ensures forall x :: x in dups <==> multiset(s)[x] >= 2
    ensures NoRepeats(dups)
    ensures InFirstOccurrenceOrder(dups, s)
  {
    KeysInFirstOccurrenceOrder(s);
    RepeatedKeepsOrder(Keys(s), s);
    Repeated(Keys(s), s)
  }

  /** An element occurs at least twice exactly when two positions hold it. */
  lemma {:induction false} TwiceIffTwoPositions<T>(s: seq<T>, x: T)
    ensures multiset(s)[x] >= 2 <==>
            exists i, j :: 0 <= i < j < |s| && s[i] == x && s[j] == x
  {
    if s != [] {
      var t := s[1..];
      assert s == [s[0]] + t;
      assert multiset(s)[x] == (if s[0] == x then 1 else 0) + multiset(t)[x];
      TwiceIffTwoPositions(t, x);
      if multiset(s)[x] >= 2 {
        if s[0] == x {
          assert x in t;
          var j :| 0 <= j < |t| && t[j] == x;
          assert s[0] == x && s[j + 1] == x;
        } else {
          var i, j :| 0 <= i < j < |t| && t[i] == x && t[j] == x;
          assert s[i + 1] == x && s[j + 1] == x;
        }
      }
      if exists i, j :: 0 <= i < j < |s| && s[i] == x && s[j] == x {
        var i, j :| 0 <= i < j < |s| && s[i] == x && s[j] == x;
        if i == 0 {
          assert t[j - 1] == x;
        } else {
          assert t[i - 1] == x && t[j - 1] == x;
        }
      }
    }
  }

  /** The check passes (no duplicates are reported) exactly when the list
      holds no element twice; in particular the empty list passes. */
  lemma NoDuplicatesIff<T(!new)>(s: seq<T>)
    ensures Duplicates(s) == [] <==> NoRepeats(s)
  {
    if Duplicates(s) != [] {
      var x := Duplicates(s)[0];
      TwiceIffTwoPositions(s, x);
    }
    if !NoRepeats(s) {
      var i, j :| 0 <= i < j < |s| && s[i] == s[j];
      TwiceIffTwoPositions(s, s[i]);
      assert s[i] in Duplicates(s);
    }
  }
}
