// One form for every loop of points, wherever it starts and whichever way it runs.
module CanonicalRing {
  import opened TextOrder

  // The text of one point: an array of numbers, so that the bracket that closes it
  // is the only closing bracket in it.
  predicate IsPointText(s: string) {
    s != "" && s[0] == '[' && s[|s| - 1] == ']' && forall i :: 0 <= i < |s| - 1 ==> s[i] != ']'
  }

  type PointText = s: string | IsPointText(s) witness "[]"

  type Ring = seq<PointText>

  function Body(ring: Ring): string {
    if ring == [] then "]"
    else if |ring| == 1 then ring[0] + "]"
    else ring[0] + "," + Body(ring[1..])
  }

  function RingText(ring: Ring): string {
    "[" + Body(ring)
  }

  function Rotate<T>(s: seq<T>, k: nat): seq<T>
    requires k <= |s|
  {
    s[k..] + s[..k]
  }

  function Reverse<T>(s: seq<T>): (r: seq<T>)
    ensures |r| == |s|
  {
    if s == [] then [] else Reverse(s[1..]) + [s[0]]
  }

  function Directed<T>(s: seq<T>, reversed: bool): (d: seq<T>)
    ensures |d| == |s|
  {
    if reversed then Reverse(s) else s
  }

  ghost predicate IsTurn<T>(a: seq<T>, b: seq<T>, reversed: bool, k: nat) {
    k <= |a| && b == Rotate(Directed(a, reversed), k)
  }

  // b is the loop a, entered at some point and run in some direction.
  ghost predicate SameLoop<T>(a: seq<T>, b: seq<T>) {
    exists reversed: bool, k: nat :: IsTurn(a, b, reversed, k)
  }

  // What the form promises: it is a turn of the ring, and no turn has a lesser text.
  ghost predicate IsCanonical(points: Ring, ring: Ring) {
    SameLoop(points, ring) && forall c: Ring :: SameLoop(points, c) ==> Leq(RingText(ring), RingText(c))
  }

  // Turning is an equivalence ---------------------------------------------------

  lemma RotateJoined<T>(u: seq<T>, v: seq<T>)
    ensures Rotate(u + v, |u|) == v + u
  {
    assert (u + v)[..|u|] == u && (u + v)[|u|..] == v;
  }

  lemma RotateTwice<T>(s: seq<T>, i: nat, j: nat)
    requires i <= |s| && j <= |s|
    ensures Rotate(Rotate(s, i), j) == Rotate(s, if i + j <= |s| then i + j else i + j - |s|)
  {
    var k := if i + j <= |s| then i + j else i + j - |s|;
    if i + j <= |s| {
      RotateThrice(s[..i], s[i..k], s[k..]);
      assert s == s[..i] + s[i..k] + s[k..];
    } else {
      RotateThrice(s[i..], s[..k], s[k..i]);
      assert s == s[..k] + s[k..i] + s[i..];
      assert Rotate(s, i) == s[i..] + s[..k] + s[k..i];
      assert s[i..] + s[..k] + s[k..i] == s[i..] + (s[..k] + s[k..i]);
    }
  }

  lemma RotateThrice<T>(x: seq<T>, y: seq<T>, z: seq<T>)
    ensures Rotate(x + y + z, |x|) == y + z + x && Rotate(y + z + x, |y|) == z + x + y
    ensures Rotate(x + y + z, |x| + |y|) == z + x + y
  {
    assert x + y + z == x + (y + z) && y + z + x == y + (z + x) && z + x + y == z + (x + y);
    RotateJoined(x, y + z);
    RotateJoined(y, z + x);
    RotateJoined(x + y, z);
  }

  lemma {:induction false} ReverseJoined<T>(u: seq<T>, v: seq<T>)
    ensures Reverse(u + v) == Reverse(v) + Reverse(u)
  {
    if u == [] {
      assert u + v == v;
    } else {
      ReverseJoined(u[1..], v);
      assert (u + v)[1..] == u[1..] + v;
    }
  }

  lemma {:induction false} ReverseTwice<T>(s: seq<T>)
    ensures Reverse(Reverse(s)) == s
  {
    if s != [] {
      ReverseTwice(s[1..]);
      ReverseJoined(Reverse(s[1..]), [s[0]]);
      assert Reverse([s[0]]) == [s[0]];
    }
  }

  lemma ReverseExchanged<T>(u: seq<T>, v: seq<T>)
    ensures Reverse(v + u) == Rotate(Reverse(u + v), |v|)
  {
    hide *;
    ReverseJoined(v, u);
    ReverseJoined(u, v);
    RotateJoined(Reverse(v), Reverse(u));
  }

  lemma ReverseRotated<T>(s: seq<T>, k: nat)
    requires k <= |s|
    ensures Reverse(Rotate(s, k)) == Rotate(Reverse(s), |s| - k)
  {
    hide *;
    var u, v := s[..k], s[k..];
    assert s == u + v;
    RotateJoined(u, v);
    ReverseExchanged(u, v);
  }

  lemma RotateBack<T>(s: seq<T>, k: nat)
    requires k <= |s|
    ensures Rotate(Rotate(s, k), |s| - k) == s
  {
    RotateJoined(s[k..], s[..k]);
    assert s == s[..k] + s[k..];
  }

  lemma SameLoopItself<T>(a: seq<T>)
    ensures SameLoop(a, a)
  {
    assert IsTurn(a, a, false, 0);
  }

  lemma IsSameLoop<T>(a: seq<T>, b: seq<T>, reversed: bool, k: nat)
    requires k <= |a| && b == Rotate(Directed(a, reversed), k)
    ensures SameLoop(a, b)
  {
    assert IsTurn(a, b, reversed, k);
  }

  lemma TurnOf<T>(a: seq<T>, b: seq<T>) returns (reversed: bool, k: nat)
    requires SameLoop(a, b)
    ensures k <= |a| && b == Rotate(Directed(a, reversed), k)
  {
    reversed, k :| IsTurn(a, b, reversed, k);
  }

  lemma ReverseDirected<T>(a: seq<T>, reversed: bool)
    ensures Reverse(Directed(a, reversed)) == Directed(a, !reversed)
  {
    ReverseTwice(a);
  }

  lemma SameLoopSymmetric<T>(a: seq<T>, b: seq<T>)
    requires SameLoop(a, b)
    ensures SameLoop(b, a)
  {
    var reversed, k := TurnOf(a, b);
    hide *;
    TurnedBack(a, reversed, k);
    IsSameLoop(b, a, reversed, if reversed then k else |a| - k);
  }

  lemma TurnedBack<T>(a: seq<T>, reversed: bool, k: nat)
    requires k <= |a|
    ensures a == Rotate(Directed(Rotate(Directed(a, reversed), k), reversed), if reversed then k else |a| - k)
  {
    var d := Directed(a, reversed);
    if reversed {
      ReverseRotated(d, k);
      ReverseTwice(a);
      hide Rotate, Reverse;
      RotateBack(a, |a| - k);
    } else {
      RotateBack(a, k);
    }
  }

  lemma RotateTurn<T>(a: seq<T>, b: seq<T>, j: nat)
    requires SameLoop(a, b) && j <= |b|
    ensures SameLoop(a, Rotate(b, j))
  {
    var reversed, i := TurnOf(a, b);
    hide *;
    RotateTwice(Directed(a, reversed), i, j);
    IsSameLoop(a, Rotate(b, j), reversed, if i + j <= |a| then i + j else i + j - |a|);
  }

  lemma ReverseTurn<T>(a: seq<T>, b: seq<T>)
    requires SameLoop(a, b)
    ensures SameLoop(a, Reverse(b))
  {
    var reversed, i := TurnOf(a, b);
    hide *;
    ReverseRotated(Directed(a, reversed), i);
    ReverseDirected(a, reversed);
    IsSameLoop(a, Reverse(b), !reversed, |a| - i);
  }

  lemma SameLoopTransitive<T>(a: seq<T>, b: seq<T>, c: seq<T>)
    requires SameLoop(a, b) && SameLoop(b, c)
    ensures SameLoop(a, c)
  {
    var reversed, j := TurnOf(b, c);
    hide SameLoop, Rotate, Reverse;
    if reversed {
      ReverseTurn(a, b);
    }
    RotateTurn(a, Directed(b, reversed), j);
  }

  // Texts of rings --------------------------------------------------------------

  // No point's text is the start of another's.
  lemma NoPointStartsAnother(p: PointText, q: PointText)
    requires p <= q
    ensures p == q
  {
    assert p[|p| - 1] == ']' && q[|p| - 1] == ']';
  }

  lemma PointsPrefixFree(p: PointText, q: PointText, x: string, y: string)
    requires p + x == q + y
    ensures p == q && x == y
  {
    assert p == (p + x)[..|p|] && q == (q + y)[..|q|];
    if |p| <= |q| {
      NoPointStartsAnother(p, q);
    } else {
      NoPointStartsAnother(q, p);
    }
    assert x == (p + x)[|p|..] && y == (q + y)[|q|..];
  }

  lemma BodyStarts(a: Ring)
    ensures Body(a) != "" && (Body(a)[0] == ']' <==> a == [])
  {
    assert a != [] ==> Body(a)[0] == a[0][0];
  }

  lemma {:induction false} BodyInjective(a: Ring, b: Ring)
    requires Body(a) == Body(b)
    ensures a == b
  {
    BodyStarts(a);
    BodyStarts(b);
    if a != [] && b != [] {
      var x, y := Body(a)[|a[0]|..], Body(b)[|b[0]|..];
      assert Body(a) == a[0] + x && Body(b) == b[0] + y;
      PointsPrefixFree(a[0], b[0], x, y);
      assert x == if |a| == 1 then "]" else "," + Body(a[1..]);
      assert y == if |b| == 1 then "]" else "," + Body(b[1..]);
      if |a| > 1 && |b| > 1 {
        assert Body(a[1..]) == x[1..] && Body(b[1..]) == y[1..];
        BodyInjective(a[1..], b[1..]);
        assert a == [a[0]] + a[1..] && b == [b[0]] + b[1..];
      }
    }
  }

  lemma TextInjective(a: Ring, b: Ring)
    requires RingText(a) == RingText(b)
    ensures a == b
  {
    assert Body(a) == RingText(a)[1..] && Body(b) == RingText(b)[1..];
    BodyInjective(a, b);
  }

  // The text of a ring: its points in their order, commas between them, in brackets.
  lemma TextOfJoined(a: Ring, b: Ring)
    requires a != [] && b != []
    ensures RingText(a + b) == RingText(a)[..|RingText(a)| - 1] + "," + RingText(b)[1..]
  {
    hide Body;
    BodyOfJoined(a, b);
    BodyEnds(b);
    InBrackets(Body(a));
    InBrackets(Body(b));
    var front := Body(a)[..|Body(a)| - 1];
    assert "[" + (front + "," + Body(b)) == "[" + front + "," + Body(b);
  }

  lemma BodyEnds(a: Ring)
    ensures Body(a) != ""
  {
  }

  lemma InBrackets(body: string)
    requires body != ""
    ensures ("[" + body)[..|body|] == "[" + body[..|body| - 1] && ("[" + body)[1..] == body
  {
  }

  lemma TextOfOne(p: PointText)
    ensures RingText([]) == "[]" && RingText([p]) == "[" + p + "]"
  {
    assert "[" + (p + "]") == "[" + p + "]";
  }

  lemma {:induction false} BodyOfJoined(a: Ring, b: Ring)
    requires a != [] && b != []
    ensures Body(a) != "" && Body(a + b) == Body(a)[..|Body(a)| - 1] + "," + Body(b)
  {
    if |a| == 1 {
      assert (a + b)[1..] == b && Body(a)[..|Body(a)| - 1] == a[0];
    } else {
      BodyOfJoined(a[1..], b);
      assert (a + b)[1..] == a[1..] + b;
      var rest, behind := Body(a[1..]), Body(b);
      assert Body(a) == a[0] + "," + rest && Body(a + b) == a[0] + "," + (rest[..|rest| - 1] + "," + behind);
      hide Body;
      CutBehind(a[0] + ",", rest);
      assert a[0] + "," + (rest[..|rest| - 1] + "," + behind) == a[0] + "," + rest[..|rest| - 1] + "," + behind;
    }
  }

  lemma CutBehind(front: string, body: string)
    requires body != ""
    ensures (front + body)[..|front + body| - 1] == front + body[..|body| - 1]
  {
  }

  // Two different texts, neither the start of the other, keep their order whatever
  // follows them.
  lemma {:induction false} OrderSurvives(p: string, q: string, x: string, y: string)
    requires Leq(p, q) && !(p <= q)
    ensures Leq(p + x, q + y)
  {
    if p[0] == q[0] {
      assert p == [p[0]] + p[1..] && q == [q[0]] + q[1..];
      assert (p + x)[1..] == p[1..] + x && (q + y)[1..] == q[1..] + y;
      OrderSurvives(p[1..], q[1..], x, y);
    } else {
      assert (p + x)[0] == p[0] && (q + y)[0] == q[0];
    }
  }

  lemma LesserStartOfBody(a: Ring, b: Ring)
    requires a != [] && b != [] && Leq(a[0], b[0]) && a[0] != b[0]
    ensures Leq(Body(a), Body(b))
  {
    var x, y := Body(a)[|a[0]|..], Body(b)[|b[0]|..];
    assert Body(a) == a[0] + x && Body(b) == b[0] + y;
    hide Body, Leq;
    if a[0] <= b[0] {
      NoPointStartsAnother(a[0], b[0]);
    }
    OrderSurvives(a[0], b[0], x, y);
  }

  // A ring that starts at a lesser point has the lesser text.
  lemma LesserStart(a: Ring, b: Ring)
    requires a != [] && b != [] && Leq(a[0], b[0]) && a[0] != b[0]
    ensures Leq(RingText(a), RingText(b))
  {
    LesserStartOfBody(a, b);
    hide Body;
    assert RingText(a)[1..] == Body(a) && RingText(b)[1..] == Body(b);
  }

  // The search ------------------------------------------------------------------

  method LeastKey(points: Ring) returns (least: PointText)
    requires points != []
    ensures least in points && forall p :: p in points ==> Leq(least, p)
  {
    least := points[0];
    LeqReflexive(least);
    for i := 1 to |points|
      invariant least in points && forall j :: 0 <= j < i ==> Leq(least, points[j])
    {
      LeqTotal(least, points[i]);
      if !Leq(least, points[i]) {
        forall j | 0 <= j < i ensures Leq(points[i], points[j]) {
          LeqTransitive(points[i], least, points[j]);
        }
        least := points[i];
      }
      LeqReflexive(points[i]);
    }
  }

  method LeastText(candidates: seq<Ring>) returns (least: Ring)
    requires candidates != []
    ensures least in candidates && forall c :: c in candidates ==> Leq(RingText(least), RingText(c))
  {
    hide RingText;
    least := candidates[0];
    LeqReflexive(RingText(least));
    for i := 1 to |candidates|
      invariant least in candidates && forall j :: 0 <= j < i ==> Leq(RingText(least), RingText(candidates[j]))
    {
      LeqTotal(RingText(least), RingText(candidates[i]));
      if !Leq(RingText(least), RingText(candidates[i])) {
        forall j | 0 <= j < i ensures Leq(RingText(candidates[i]), RingText(candidates[j])) {
          LeqTransitive(RingText(candidates[i]), RingText(least), RingText(candidates[j]));
        }
        least := candidates[i];
      }
      LeqReflexive(RingText(candidates[i]));
    }
  }

  // The turns the search tries: those that start at the least point.
  ghost predicate Tried(points: Ring, key: PointText, candidates: seq<Ring>, reversed: bool, upTo: nat) {
    forall k :: 0 <= k < upTo && k < |points| && Directed(points, reversed)[k] == key ==>
      Rotate(Directed(points, reversed), k) in candidates
  }

  ghost predicate Proper(points: Ring, candidates: seq<Ring>) {
    forall c :: c in candidates ==> SameLoop(points, c)
  }

  method Candidates(points: Ring, key: PointText) returns (candidates: seq<Ring>)
    ensures Proper(points, candidates)
    ensures Tried(points, key, candidates, false, |points|) && Tried(points, key, candidates, true, |points|)
  {
    hide SameLoop;
    candidates := [];
    var directions := [points, Reverse(points)];
    for d := 0 to 2
      invariant Proper(points, candidates)
      invariant (d > 0 ==> Tried(points, key, candidates, false, |points|))
      invariant (d > 1 ==> Tried(points, key, candidates, true, |points|))
    {
      var sequence := directions[d];
      for offset := 0 to |sequence|
        invariant Proper(points, candidates)
        invariant d > 0 ==> Tried(points, key, candidates, false, |points|)
        invariant Tried(points, key, candidates, d == 1, offset)
      {
        if sequence[offset] == key {
          Turned(points, d == 1, offset);
          candidates := candidates + [Rotate(sequence, offset)];
        }
      }
    }
  }

  lemma Turned<T>(a: seq<T>, reversed: bool, k: nat)
    requires k <= |a|
    ensures SameLoop(a, Rotate(Directed(a, reversed), k))
  {
    assert IsTurn(a, Rotate(Directed(a, reversed), k), reversed, k);
  }

  lemma StartsAtKey(points: Ring, key: PointText, candidates: seq<Ring>) returns (start: Ring)
    requires key in points && Tried(points, key, candidates, false, |points|)
    ensures start in candidates && start != [] && start[0] == key
  {
    var at :| 0 <= at < |points| && points[at] == key;
    assert Directed(points, false)[at] == key;
    start := Rotate(points, at);
  }

  // Trying only the turns that start at the least point loses no lesser text.
  lemma PrunedSearchIsFull(points: Ring, key: PointText, candidates: seq<Ring>, least: Ring, c: Ring)
    requires |points| >= 2 && key in points && (forall p :: p in points ==> Leq(key, p))
    requires Proper(points, candidates) && Tried(points, key, candidates, false, |points|)
    requires Tried(points, key, candidates, true, |points|)
    requires least in candidates && (forall o :: o in candidates ==> Leq(RingText(least), RingText(o)))
    requires SameLoop(points, c)
    ensures Leq(RingText(least), RingText(c))
  {
    FirstIsAPoint(points, c);
    hide *;
    if c[0] != key {
      var start := StartsAtKey(points, key, candidates);
      LesserStart(start, c);
      LeqTransitive(RingText(least), RingText(start), RingText(c));
    } else {
      TurnIsTried(points, key, candidates, c);
    }
  }

  lemma FirstIsAPoint(points: Ring, c: Ring)
    requires points != [] && SameLoop(points, c)
    ensures c != [] && c[0] in points
  {
    var reversed, j := TurnOf(points, c);
    DirectedMembers(points, reversed, if j == |points| then 0 else j);
  }

  lemma TurnIsTried(points: Ring, key: PointText, candidates: seq<Ring>, c: Ring)
    requires points != [] && SameLoop(points, c) && c != [] && c[0] == key
    requires Tried(points, key, candidates, false, |points|) && Tried(points, key, candidates, true, |points|)
    ensures c in candidates
  {
    var reversed, j := TurnOf(points, c);
    var k := if j == |points| then 0 else j;
    assert c == Rotate(Directed(points, reversed), k);
  }

  lemma DirectedMembers<T>(a: seq<T>, reversed: bool, k: nat)
    requires k < |a|
    ensures Directed(a, reversed)[k] in a
  {
    if reversed {
      ReverseAt(a, k);
    }
  }

  lemma {:induction false} ReverseAt<T>(s: seq<T>, k: nat)
    requires k < |s|
    ensures Reverse(s)[k] == s[|s| - 1 - k]
  {
    if k < |s| - 1 {
      ReverseAt(s[1..], k);
    }
  }

  // Short rings have only the texts of themselves.
  lemma ShortRing(points: Ring)
    requires |points| < 2
    ensures IsCanonical(points, points)
  {
    hide RingText, Leq;
    SameLoopItself(points);
    LeqReflexive(RingText(points));
    forall c: Ring | SameLoop(points, c) ensures c == points {
      ShortTurn(points, c);
    }
    hide SameLoop;
  }

  lemma ShortTurn(points: Ring, c: Ring)
    requires |points| < 2 && SameLoop(points, c)
    ensures c == points
  {
    var reversed, k :| IsTurn(points, c, reversed, k);
    assert Directed(points, reversed) == points;
  }

  // Where the i-th point comes from when a ring of n points is read from the k-th on,
  // forwards or backwards all around.
  ghost function Source(n: nat, k: nat, backwards: bool, i: nat): (s: nat)
    requires k < n && i < n
    ensures s < n
  {
    if !backwards then if k + i < n then k + i else k + i - n
    else if i <= k then k - i
    else k + n - i
  }

  ghost predicate ReadsAs<T>(a: seq<T>, b: seq<T>, k: nat, backwards: bool) {
    |b| == |a| && (a == [] || (k < |a| && forall i :: 0 <= i < |a| ==> b[i] == a[Source(|a|, k, backwards, i)]))
  }

  // The turns of a ring are its readings.
  lemma TurnReads<T>(a: seq<T>, b: seq<T>, reversed: bool, j: nat) returns (k: nat)
    requires IsTurn(a, b, reversed, j)
    ensures ReadsAs(a, b, k, reversed)
  {
    if a == [] {
      k := 0;
    } else {
      var i := if j < |a| then j else 0;
      assert b == Rotate(Directed(a, reversed), i);
      k := if reversed then |a| - 1 - i else i;
      RotateReads(a, i, reversed);
    }
  }

  lemma RotateReads<T>(a: seq<T>, j: nat, reversed: bool)
    requires j < |a|
    ensures ReadsAs(a, Rotate(Directed(a, reversed), j), if reversed then |a| - 1 - j else j, reversed)
  {
    if reversed {
      forall i | 0 <= i < |a| ensures Reverse(a)[i] == a[|a| - 1 - i] {
        ReverseAt(a, i);
      }
    }
  }

  lemma ReadingTurns<T>(a: seq<T>, b: seq<T>, k: nat, backwards: bool)
    requires ReadsAs(a, b, k, backwards)
    ensures SameLoop(a, b)
  {
    if a == [] {
      SameLoopItself(a);
      assert b == a;
    } else {
      var j := if backwards then |a| - 1 - k else k;
      RotateReads(a, j, backwards);
      hide Rotate, Directed, Source;
      assert b == Rotate(Directed(a, backwards), j);
      IsSameLoop(a, b, backwards, j);
    }
  }

  // The form is a reading of the ring, and comes first of all of them by its text.
  ghost predicate IsLeastReading(points: Ring, ring: Ring) {
    && (exists k: nat, backwards: bool :: ReadsAs(points, ring, k, backwards))
    && forall c: Ring, k: nat, backwards: bool :: ReadsAs(points, c, k, backwards) ==>
      ComesFirst(RingText(ring), RingText(c))
  }

  lemma CanonicalIsLeast(points: Ring, ring: Ring)
    requires IsCanonical(points, ring)
    ensures IsLeastReading(points, ring)
  {
    var reversed, j := TurnOf(points, ring);
    var k0 := TurnReads(points, ring, reversed, j);
    hide RingText, ReadsAs, ComesFirst, SameLoop;
    forall c: Ring, k: nat, backwards: bool | ReadsAs(points, c, k, backwards)
      ensures ComesFirst(RingText(ring), RingText(c))
    {
      ReadingTurns(points, c, k, backwards);
      LeqMeans(RingText(ring), RingText(c));
    }
  }

  method RevisionCanonicalRing(points: Ring) returns (ring: Ring)
    ensures IsCanonical(points, ring) && IsLeastReading(points, ring)
  {
    ring := LeastTurn(points);
    hide *;
    CanonicalIsLeast(points, ring);
  }

  method LeastTurn(points: Ring) returns (ring: Ring)
    ensures IsCanonical(points, ring)
  {
    hide SameLoop, RingText, Tried;
    if |points| < 2 {
      ShortRing(points);
      return points;
    }
    var key := LeastKey(points);
    var candidates := Candidates(points, key);
    ghost var start := StartsAtKey(points, key, candidates);
    ring := LeastText(candidates);
    forall c: Ring | SameLoop(points, c) ensures Leq(RingText(ring), RingText(c)) {
      PrunedSearchIsFull(points, key, candidates, ring, c);
    }
  }

  // What the form is for --------------------------------------------------------

  // Two rings have the same form exactly when they are the same loop.
  lemma CompleteInvariant(a: Ring, b: Ring, formA: Ring, formB: Ring)
    requires IsCanonical(a, formA) && IsCanonical(b, formB)
    ensures formA == formB <==> SameLoop(a, b)
  {
    hide RingText;
    if formA == formB {
      SameLoopSymmetric(b, formB);
      SameLoopTransitive(a, formA, b);
    }
    if SameLoop(a, b) {
      SameLoopSymmetric(a, b);
      SameLoopTransitive(a, b, formB);
      SameLoopTransitive(b, a, formA);
      LeqAntisymmetric(RingText(formA), RingText(formB));
      TextInjective(formA, formB);
    }
  }

  // The form of a form is that form.
  lemma Idempotent(a: Ring, form: Ring, again: Ring)
    requires IsCanonical(a, form) && IsCanonical(form, again)
    ensures again == form
  {
    CompleteInvariant(a, form, form, again);
  }
}
