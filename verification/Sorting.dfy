/** `sorted` on integer sets, and descending insertion for tuples sorted in reverse. */
module Sorting {
  import opened Sequences

  predicate Ascending(s: seq<int>) {
    forall i, j :: 0 <= i < j < |s| ==> s[i] < s[j]
  }

  predicate Descending(s: seq<int>) {
    forall i, j :: 0 <= i < j < |s| ==> s[i] >= s[j]
  }

  lemma HasMember(s: set<int>)
    ensures |s| > 0 ==> exists x :: x in s
  {
    assert (forall x :: x !in s) ==> s == {};
  }

  lemma {:induction false} LeastExists(s: set<int>)
    requires |s| > 0
    ensures exists m :: m in s && forall x :: x in s ==> m <= x
    decreases |s|
  {
    HasMember(s);
    var x :| x in s;
    var others := s - {x};
    if |others| == 0 {
      assert forall y :: y in s ==> x <= y;
    } else {
      LeastExists(others);
      var m :| m in others && forall y :: y in others ==> m <= y;
      var least := if x <= m then x else m;
      forall y | y in s
        ensures least <= y
      {
        assert y == x || y in others;
      }
      assert least in s;
    }
  }

  function Least(s: set<int>): (m: int)
    requires |s| > 0
    ensures m in s && forall x :: x in s ==> m <= x
  {
    LeastExists(s);
    var m :| m in s && forall x :: x in s ==> m <= x;
    m
  }

  /** `sorted(s)`: the elements of the set, each once, in ascending order. */
  function SortedSet(s: set<int>): (r: seq<int>)
    ensures |r| == |s|
    decreases |s|
  {
    if |s| == 0 then [] else [Least(s)] + SortedSet(s - {Least(s)})
  }

  lemma ElementsCons(x: int, s: seq<int>)
    ensures Elements([x] + s) == {x} + Elements(s)
  {
  }

  lemma {:induction false} SortedSetSorts(s: set<int>)
    ensures Elements(SortedSet(s)) == s && Ascending(SortedSet(s))
    decreases |s|
  {
    hide Elements, Ascending;
    if |s| == 0 {
      NothingAscends();
    } else {
      var m, others := Least(s), s - {Least(s)};
      SortedSetSorts(others);
      LeastFirst(m, SortedSet(others));
      ElementsCons(m, SortedSet(others));
    }
  }

  lemma NothingAscends()
    ensures Elements<int>([]) == {} && Ascending([])
  {
  }

  lemma LeastFirst(m: int, rest: seq<int>)
    requires Ascending(rest) && forall x :: x in Elements(rest) ==> m < x
    ensures Ascending([m] + rest)
  {
    forall i | 0 <= i < |rest|
      ensures m < rest[i]
    {
      assert rest[i] in Elements(rest);
    }
  }

  /** Two ascending sequences of the same elements are equal. */
  lemma {:induction false} AscendingUnique(a: seq<int>, b: seq<int>)
    requires Ascending(a) && Ascending(b) && (forall x :: x in a <==> x in b)
    ensures a == b
    decreases |a|
  {
    assert a != [] ==> a[0] in a && a[0] in b;
    assert b != [] ==> b[0] in b && b[0] in a;
    if a != [] {
      assert a[0] in a && b[0] in b && a[0] in b && b[0] in a;
      assert a[0] == b[0];
      forall x
        ensures x in a[1..] <==> x in b[1..]
      {
        TailMember(a, x);
        TailMember(b, x);
      }
      AscendingUnique(a[1..], b[1..]);
      assert a == [a[0]] + a[1..] && b == [b[0]] + b[1..];
    }
  }

  lemma TailMember(s: seq<int>, x: int)
    requires s != [] && Ascending(s)
    ensures x in s[1..] <==> x in s && x != s[0]
  {
    if x in s && x != s[0] {
      var i :| 0 <= i < |s| && s[i] == x;
      assert s[1..][i - 1] == x;
    }
  }

  /** An ascending sequence is the sorted form of its elements. */
  lemma AscendingIsSorted(s: seq<int>)
    requires Ascending(s)
    ensures SortedSet(Elements(s)) == s && |Elements(s)| == |s|
  {
    var r := SortedSet(Elements(s));
    SortedSetSorts(Elements(s));
    forall x
      ensures x in r <==> x in s
    {
      assert x in r <==> x in Elements(r);
    }
    AscendingUnique(r, s);
  }

  /** `tuple(sorted((*s, x), reverse=True))` for a tuple that is already in that order. */
  function InsertDesc(s: seq<int>, x: int): (r: seq<int>) {
    if s == [] || x >= s[0] then [x] + s else [s[0]] + InsertDesc(s[1..], x)
  }

  lemma {:induction false} InsertDescCounts(s: seq<int>, x: int)
    ensures multiset(InsertDesc(s, x)) == multiset(s) + multiset{x}
    ensures |InsertDesc(s, x)| == |s| + 1 && Sum(InsertDesc(s, x)) == Sum(s) + x
  {
    if s == [] || x >= s[0] {
      assert ([x] + s)[1..] == s;
    } else {
      InsertDescCounts(s[1..], x);
      assert s == [s[0]] + s[1..];
      assert ([s[0]] + InsertDesc(s[1..], x))[1..] == InsertDesc(s[1..], x);
    }
  }

  lemma InsertDescMembers(s: seq<int>, x: int)
    ensures forall y :: y in InsertDesc(s, x) <==> y == x || y in s
  {
    InsertDescCounts(s, x);
    forall y
      ensures y in InsertDesc(s, x) <==> y == x || y in s
    {
      assert y in InsertDesc(s, x) <==> y in multiset(InsertDesc(s, x));
      assert y in s <==> y in multiset(s);
    }
  }

  lemma {:induction false} InsertDescDescends(s: seq<int>, x: int)
    requires Descending(s)
    ensures Descending(InsertDesc(s, x))
  {
    if s != [] && x < s[0] {
      InsertDescDescends(s[1..], x);
      var rest := InsertDesc(s[1..], x);
      InsertDescMembers(s[1..], x);
      forall i, j | 0 <= i < j < |rest| + 1
        ensures ([s[0]] + rest)[i] >= ([s[0]] + rest)[j]
      {
        assert rest[j - 1] in rest;
      }
    }
  }

  lemma InsertDescSorts(s: seq<int>, x: int)
    requires Descending(s)
    ensures Descending(InsertDesc(s, x))
    ensures multiset(InsertDesc(s, x)) == multiset(s) + multiset{x}
    ensures |InsertDesc(s, x)| == |s| + 1
    ensures Sum(InsertDesc(s, x)) == Sum(s) + x
    ensures forall y :: y in InsertDesc(s, x) <==> y == x || y in s
  {
    InsertDescCounts(s, x);
    InsertDescMembers(s, x);
    InsertDescDescends(s, x);
  }

  /** Taking the last module off a descending list and inserting it again changes nothing. */
  lemma {:induction false} InsertLast(s: seq<int>)
    requires s != [] && Descending(s)
    ensures InsertDesc(s[..|s| - 1], s[|s| - 1]) == s
  {
    var last := s[|s| - 1];
    if |s| == 1 {
      assert s == [last];
    } else {
      var front := s[..|s| - 1];
      assert s[1..][..|s| - 2] == front[1..];
      InsertLast(s[1..]);
      if last >= front[0] {
        AllEqual(s);
      }
      assert s == [s[0]] + s[1..];
    }
  }

  lemma AllEqual(s: seq<int>)
    requires s != [] && Descending(s) && s[|s| - 1] >= s[0]
    ensures [s[|s| - 1]] + s[..|s| - 1] == s
  {
    forall i | 0 <= i < |s|
      ensures s[i] == s[0]
    {
      if 0 < i < |s| - 1 {
        assert s[0] >= s[i] >= s[|s| - 1];
      }
    }
  }

  /** Any list, put in descending order. */
  function SortDesc(s: seq<int>): seq<int> {
    if s == [] then [] else InsertDesc(SortDesc(s[1..]), s[0])
  }

  lemma {:induction false} SortDescSorts(s: seq<int>)
    ensures Descending(SortDesc(s)) && multiset(SortDesc(s)) == multiset(s)
    ensures |SortDesc(s)| == |s| && Sum(SortDesc(s)) == Sum(s)
    ensures forall y :: y in SortDesc(s) <==> y in s
  {
    hide InsertDesc;
    if s != [] {
      SortDescSorts(s[1..]);
      InsertDescSorts(SortDesc(s[1..]), s[0]);
      assert s == [s[0]] + s[1..];
    }
  }
}
