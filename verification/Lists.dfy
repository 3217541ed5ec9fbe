// Facts about rearranged lists.
module Lists {

  // The first element of a list, found in a rearrangement of that list.
  lemma MatchHead<T>(a: seq<T>, b: seq<T>) returns (front: seq<T>, back: seq<T>)
    requires a != [] && multiset(a) == multiset(b)
    ensures b == front + [a[0]] + back && multiset(a[1..]) == multiset(front + back)
  {
    assert a[0] in multiset(b);
    var j: nat :| j < |b| && b[j] == a[0];
    front, back := b[..j], b[j + 1..];
    MatchAt(a, b, j);
  }

  lemma MatchAt<T>(a: seq<T>, b: seq<T>, j: nat)
    requires a != [] && multiset(a) == multiset(b) && j < |b| && b[j] == a[0]
    ensures b == b[..j] + [a[0]] + b[j + 1..] && multiset(a[1..]) == multiset(b[..j] + b[j + 1..])
  {
    assert b == b[..j] + [a[0]] + b[j + 1..];
    TakeOut(b[..j], a[0], b[j + 1..]);
    TakeHead(a);
    CancelOne(multiset(a[1..]), multiset(b[..j] + b[j + 1..]), a[0]);
  }

  lemma TakeHead<T>(a: seq<T>)
    requires a != []
    ensures multiset(a) == multiset(a[1..]) + multiset{a[0]}
  {
    assert a == [a[0]] + a[1..];
  }

  lemma TakeOut<T>(front: seq<T>, x: T, back: seq<T>)
    ensures multiset(front + [x] + back) == multiset(front + back) + multiset{x}
  {
  }

  lemma CancelOne<T>(a: multiset<T>, b: multiset<T>, x: T)
    requires a + multiset{x} == b + multiset{x}
    ensures a == b
  {
    forall y ensures a[y] == b[y] {
      assert (a + multiset{x})[y] == (b + multiset{x})[y];
    }
  }

  predicate Distinct<T(==)>(s: seq<T>) {
    forall i, j :: 0 <= i < j < |s| ==> s[i] != s[j]
  }

  lemma JoinedIsDistinct<T>(a: seq<T>, b: seq<T>)
    requires Distinct(a) && Distinct(b) && forall i :: 0 <= i < |b| ==> b[i] !in a
    ensures Distinct(a + b)
  {
  }

  // The list with every occurrence of x deleted.
  function Without<T(==, !new)>(s: seq<T>, x: T): (r: seq<T>)
    ensures |r| <= |s| && forall y :: y in r <==> y in s && y != x
  {
    if s == [] then []
    else if s[0] == x then Without(s[1..], x)
    else [s[0]] + Without(s[1..], x)
  }

  lemma {:induction false} WithoutIsDistinct<T(!new)>(s: seq<T>, x: T)
    requires Distinct(s)
    ensures Distinct(Without(s, x))
  {
    if s != [] {
      WithoutIsDistinct(s[1..], x);
      assert s[0] !in s[1..];
    }
  }

  lemma {:induction false} WithoutShorter<T(!new)>(s: seq<T>, x: T)
    requires x in s
    ensures |Without(s, x)| < |s|
  {
    if s[0] != x {
      WithoutShorter(s[1..], x);
    }
  }

  function AsSet<T>(s: seq<T>): set<T> {
    set x | x in s
  }
}
