/** Facts about finite sequences used by several components. */
module Sequences {

  ghost predicate NoDup<T>(s: seq<T>) {
    forall i, j :: 0 <= i < j < |s| ==> s[i] != s[j]
  }

  /** The elements of a sequence, forgetting order and repetition. */
  function Elements<T(==)>(s: seq<T>): (r: set<T>)
    ensures forall x | x in s :: x in r
    ensures forall x | x in r :: x in s
  {
    set x | x in s
  }

  /** What erasing every occurrence of x leaves: the other elements, in order. */
  function Without<T(==)>(s: seq<T>, x: T): (r: seq<T>)
    ensures forall y | y in r :: y in s && y != x
    ensures forall y | y in s && y != x :: y in r
    ensures |r| <= |s|
    ensures x !in s ==> r == s
  {
    if s == [] then []
    else if s[0] == x then Without(s[1..], x)
    else [s[0]] + Without(s[1..], x)
  }

  lemma {:induction false} WithoutMiddle<T>(front: seq<T>, x: T, back: seq<T>)
    requires x !in front && x !in back
    ensures Without(front + [x] + back, x) == front + back
  {
    var s := front + [x] + back;
    if front == [] {
      assert s[1..] == back;
    } else {
      assert s[1..] == front[1..] + [x] + back;
      WithoutMiddle(front[1..], x, back);
    }
  }

  lemma NotElsewhere<T>(s: seq<T>, i: nat, front: seq<T>, back: seq<T>)
    requires NoDup(s) && i < |s| && s == front + [s[i]] + back && |front| == i
    ensures s[i] !in front && s[i] !in back
  {
    forall j | 0 <= j < |front| ensures front[j] != s[i] {
      assert front[j] == s[j];
    }
    forall j | 0 <= j < |back| ensures back[j] != s[i] {
      assert back[j] == s[i + 1 + j];
    }
  }

  lemma WithoutAt<T>(s: seq<T>, i: nat, front: seq<T>, back: seq<T>)
    requires NoDup(s) && i < |s| && s == front + [s[i]] + back && |front| == i
    ensures Without(s, s[i]) == front + back
  {
    NotElsewhere(s, i, front, back);
    WithoutMiddle(front, s[i], back);
  }

  lemma {:induction false} WithoutKeepsNoDup<T>(s: seq<T>, x: T)
    requires NoDup(s)
    ensures NoDup(Without(s, x))
  {
    if s != [] {
      WithoutKeepsNoDup(s[1..], x);
      var rest := Without(s[1..], x);
      assert s[0] !in s[1..];
      assert s[0] !in rest;
    }
  }

  /** A sequence without repetition has as many elements as positions. */
  lemma {:induction false} NoDupCardinality<T>(s: seq<T>)
    requires NoDup(s)
    ensures |Elements(s)| == |s|
  {
    if s != [] {
      var rest := s[1..];
      NoDupCardinality(rest);
      assert Elements(s) == {s[0]} + Elements(rest);
      assert s[0] !in rest;
    }
  }

  lemma SubsetCardinality<T>(a: set<T>, b: set<T>)
    requires a <= b
    ensures |a| <= |b|
    ensures |a| == |b| ==> a == b
  {
    assert b == a + (b - a);
  }

  lemma NothingInside<T(!new)>(s: seq<T>)
    ensures s == [] <==> forall x :: x !in s
  {
    if s != [] {
      assert s[0] in s;
    }
  }
}
