// The order in which Ruby compares strings and arrays of strings.
module TextOrder {

  // Ruby's String#<=>, as "at most".
  predicate Leq(a: string, b: string) {
    a == "" || (b != "" && (a[0] < b[0] || (a[0] == b[0] && Leq(a[1..], b[1..]))))
  }

  // What the order is: a text comes before those it is the start of, and where two
  // texts first differ the lesser character decides.
  ghost predicate ComesFirst(a: string, b: string) {
    a <= b || exists k :: DiffersAt(a, b, k) && a[k] < b[k]
  }

  ghost predicate DiffersAt<T>(a: seq<T>, b: seq<T>, k: int) {
    0 <= k < |a| && k < |b| && a[..k] == b[..k] && a[k] != b[k]
  }

  lemma {:induction false} LeqMeans(a: string, b: string)
    ensures Leq(a, b) <==> ComesFirst(a, b)
  {
    if a != "" && b != "" {
      if a[0] == b[0] {
        LeqMeans(a[1..], b[1..]);
        OneCharMore(a, b);
      } else {
        assert DiffersAt(a, b, 0);
        forall k | DiffersAt(a, b, k) ensures k == 0 {
          FirstDiffers(a, b, k);
        }
      }
    }
  }

  lemma FirstDiffers<T>(a: seq<T>, b: seq<T>, k: int)
    requires DiffersAt(a, b, k)
    ensures k > 0 ==> a[0] == b[0]
  {
    if k > 0 {
      assert a[..k][0] == b[..k][0];
    }
  }

  lemma DiffersBehind<T>(a: seq<T>, b: seq<T>, k: int)
    requires a != [] && b != [] && a[0] == b[0]
    ensures DiffersAt(a[1..], b[1..], k) ==> DiffersAt(a, b, k + 1)
    ensures DiffersAt(a, b, k) ==> k > 0 && DiffersAt(a[1..], b[1..], k - 1)
  {
    if DiffersAt(a[1..], b[1..], k) {
      assert a[..k + 1] == [a[0]] + a[1..][..k] && b[..k + 1] == [b[0]] + b[1..][..k];
    }
    if DiffersAt(a, b, k) {
      assert a[1..][..k - 1] == a[..k][1..] && b[1..][..k - 1] == b[..k][1..];
    }
  }

  lemma OneCharMore(a: string, b: string)
    requires a != "" && b != "" && a[0] == b[0]
    ensures ComesFirst(a, b) <==> ComesFirst(a[1..], b[1..])
  {
    assert a == [a[0]] + a[1..] && b == [b[0]] + b[1..];
    assert a <= b <==> a[1..] <= b[1..];
    forall k
      ensures DiffersAt(a[1..], b[1..], k) ==> DiffersAt(a, b, k + 1) && a[1..][k] == a[k + 1] && b[1..][k] == b[k + 1]
    {
      DiffersBehind(a, b, k);
    }
    forall k
      ensures DiffersAt(a, b, k) ==>
                DiffersAt(a[1..], b[1..], k - 1) && a[1..][k - 1] == a[k] && b[1..][k - 1] == b[k]
    {
      DiffersBehind(a, b, k);
    }
  }

  lemma LeqReflexive(a: string)
    ensures Leq(a, a)
  {
  }

  lemma LeqTotal(a: string, b: string)
    ensures Leq(a, b) || Leq(b, a)
  {
  }

  lemma LeqAntisymmetric(a: string, b: string)
    requires Leq(a, b) && Leq(b, a)
    ensures a == b
  {
    if a != "" && b != "" {
      LeqAntisymmetric(a[1..], b[1..]);
      assert a == [a[0]] + a[1..] && b == [b[0]] + b[1..];
    }
  }

  lemma LeqTransitive(a: string, b: string, c: string)
    requires Leq(a, b) && Leq(b, c)
    ensures Leq(a, c)
  {
    if a != "" && a[0] == b[0] == c[0] {
      LeqTransitive(a[1..], b[1..], c[1..]);
    }
  }

  // Ruby's Array#<=> on arrays of strings, as "at most".
  predicate ListLeq(a: seq<string>, b: seq<string>) {
    a == [] || (b != [] && Leq(a[0], b[0]) && (a[0] == b[0] ==> ListLeq(a[1..], b[1..])))
  }

  // Where two lists of texts first differ, their texts there decide.
  ghost predicate ListComesFirst(a: seq<string>, b: seq<string>) {
    a <= b || exists k :: DiffersAt(a, b, k) && ComesFirst(a[k], b[k])
  }

  lemma {:induction false} ListLeqMeans(a: seq<string>, b: seq<string>)
    ensures ListLeq(a, b) <==> ListComesFirst(a, b)
  {
    if a != [] && b != [] {
      LeqMeans(a[0], b[0]);
      if a[0] == b[0] {
        LeqReflexive(a[0]);
        ListLeqMeans(a[1..], b[1..]);
        OneTextMore(a, b);
      } else {
        assert DiffersAt(a, b, 0);
        forall k | DiffersAt(a, b, k) ensures k == 0 {
          FirstDiffers(a, b, k);
        }
      }
    }
  }

  lemma OneTextMore(a: seq<string>, b: seq<string>)
    requires a != [] && b != [] && a[0] == b[0]
    ensures ListComesFirst(a, b) <==> ListComesFirst(a[1..], b[1..])
  {
    hide ComesFirst;
    assert a == [a[0]] + a[1..] && b == [b[0]] + b[1..];
    assert a <= b <==> a[1..] <= b[1..];
    forall k
      ensures DiffersAt(a[1..], b[1..], k) ==> DiffersAt(a, b, k + 1) && a[1..][k] == a[k + 1] && b[1..][k] == b[k + 1]
    {
      DiffersBehind(a, b, k);
    }
    forall k
      ensures DiffersAt(a, b, k) ==>
                DiffersAt(a[1..], b[1..], k - 1) && a[1..][k - 1] == a[k] && b[1..][k - 1] == b[k]
    {
      DiffersBehind(a, b, k);
    }
  }

  lemma ListLeqTotal(a: seq<string>, b: seq<string>)
    ensures ListLeq(a, b) || ListLeq(b, a)
  {
    if a != [] && b != [] {
      LeqTotal(a[0], b[0]);
      ListLeqTotal(a[1..], b[1..]);
    }
  }

  lemma ListLeqAntisymmetric(a: seq<string>, b: seq<string>)
    requires ListLeq(a, b) && ListLeq(b, a)
    ensures a == b
  {
    if a != [] && b != [] {
      LeqAntisymmetric(a[0], b[0]);
      ListLeqAntisymmetric(a[1..], b[1..]);
      assert a == [a[0]] + a[1..] && b == [b[0]] + b[1..];
    }
  }

  lemma ListLeqTransitive(a: seq<string>, b: seq<string>, c: seq<string>)
    requires ListLeq(a, b) && ListLeq(b, c)
    ensures ListLeq(a, c)
  {
    if a != [] {
      LeqTransitive(a[0], b[0], c[0]);
      if a[0] == c[0] {
        LeqAntisymmetric(a[0], b[0]);
        ListLeqTransitive(a[1..], b[1..], c[1..]);
      }
    }
  }
}
