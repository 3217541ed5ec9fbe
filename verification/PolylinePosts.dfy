// Posts along a railing: one at the start of the path, and one whenever the spacing
// has been gone since the last one, around corners too.
module PolylinePosts {

  const NEGLIGIBLE := 0.000001

  // A post on a segment of the path, at the part t of its length.
  datatype Post = Post(segment: nat, t: real)

  // Where the n-th segment begins, along the path.
  ghost function Start(lengths: seq<real>, n: nat): real
    requires n <= |lengths|
  {
    if n == 0 then 0.0 else Start(lengths, n - 1) + lengths[n - 1]
  }

  ghost function Arc(lengths: seq<real>, p: Post): real
    requires p.segment < |lengths|
  {
    Start(lengths, p.segment) + p.t * lengths[p.segment]
  }

  ghost predicate LongEnough(lengths: seq<real>) {
    forall i :: 0 <= i < |lengths| ==> lengths[i] >= NEGLIGIBLE
  }

  ghost predicate OnPath(lengths: seq<real>, p: Post) {
    p.segment < |lengths| && 0.0 <= p.t < 1.0
  }

  ghost predicate IsPolyline(lengths: seq<real>) {
    forall i :: 0 <= i < |lengths| ==> lengths[i] >= 0.0
  }

  // The length of the negligible segments from one segment up to another.
  ghost function ShortBetween(lengths: seq<real>, from: nat, upTo: nat): (sum: real)
    requires upTo <= |lengths| && IsPolyline(lengths)
    ensures sum >= 0.0
  {
    if upTo <= from then 0.0
    else ShortBetween(lengths, from, upTo - 1) + if lengths[upTo - 1] < NEGLIGIBLE then lengths[upTo - 1] else 0.0
  }

  // What may be lost after the post p before the n-th segment begins: the rest of its
  // own segment, if that is negligible, and every negligible segment since.
  ghost function Slack(lengths: seq<real>, p: Post, n: nat): (slack: real)
    requires IsPolyline(lengths) && n <= |lengths|
    ensures slack >= NEGLIGIBLE
  {
    NEGLIGIBLE + ShortBetween(lengths, p.segment + 1, n)
  }

  // Neighboring posts are the spacing apart, but for what may be lost in between.
  ghost predicate Spaced(lengths: seq<real>, spacing: real, posts: seq<Post>)
    requires IsPolyline(lengths)
  {
    && (forall k :: 0 <= k < |posts| ==> OnPath(lengths, posts[k]))
    && forall k :: 0 <= k < |posts| - 1 ==> InStep(lengths, spacing, posts[k], posts[k + 1])
  }

  ghost predicate InStep(lengths: seq<real>, spacing: real, p: Post, q: Post)
    requires IsPolyline(lengths) && OnPath(lengths, p) && OnPath(lengths, q)
  {
    spacing <= Arc(lengths, q) - Arc(lengths, p) < spacing + Slack(lengths, p, q.segment)
  }

  // Without negligible segments on the path: but for a negligible distance.
  ghost predicate EvenlySpaced(lengths: seq<real>, spacing: real, posts: seq<Post>) {
    && (forall k :: 0 <= k < |posts| ==> OnPath(lengths, posts[k]))
    && forall k :: 0 <= k < |posts| - 1 ==>
      spacing <= Arc(lengths, posts[k + 1]) - Arc(lengths, posts[k]) < spacing + NEGLIGIBLE
  }

  lemma {:induction false} NothingShort(lengths: seq<real>, from: nat, upTo: nat)
    requires IsPolyline(lengths) && LongEnough(lengths) && upTo <= |lengths|
    ensures ShortBetween(lengths, from, upTo) == 0.0
  {
    if from < upTo {
      NothingShort(lengths, from, upTo - 1);
    }
  }

  lemma LongEnoughIsEven(lengths: seq<real>, spacing: real, posts: seq<Post>)
    requires IsPolyline(lengths) && LongEnough(lengths) && Spaced(lengths, spacing, posts)
    ensures EvenlySpaced(lengths, spacing, posts)
  {
    hide LongEnough, Arc, ShortBetween;
    forall k | 0 <= k < |posts| - 1
      ensures spacing <= Arc(lengths, posts[k + 1]) - Arc(lengths, posts[k]) < spacing + NEGLIGIBLE
    {
      assert InStep(lengths, spacing, posts[k], posts[k + 1]);
      NothingShort(lengths, posts[k].segment + 1, posts[k + 1].segment);
    }
  }

  // How often the spacing still fits.
  function Fits(left: real, spacing: real): int
    requires spacing > 0.0
  {
    (left / spacing).Floor
  }

  lemma FitsLess(left: real, spacing: real)
    requires spacing > 0.0
    ensures Fits(left - spacing, spacing) == Fits(left, spacing) - 1 && (left > 0.0 ==> Fits(left, spacing) >= 0)
  {
    var q := left / spacing;
    assert left == q * spacing;
    assert left - spacing == (q - 1.0) * spacing;
    Quotient(left - spacing, spacing, q - 1.0);
  }

  lemma Quotient(x: real, y: real, q: real)
    requires y > 0.0 && x == q * y
    ensures x / y == q
  {
  }

  lemma PartOfLength(cursor: real, length: real)
    requires 0.0 <= cursor < length
    ensures 0.0 <= cursor / length < 1.0 && cursor / length * length == cursor
  {
  }

  lemma OneMore(lengths: seq<real>, spacing: real, posts: seq<Post>, p: Post)
    requires IsPolyline(lengths) && Spaced(lengths, spacing, posts) && posts != [] && OnPath(lengths, p)
    requires InStep(lengths, spacing, posts[|posts| - 1], p)
    ensures Spaced(lengths, spacing, posts + [p])
  {
    hide InStep;
  }

  ghost predicate AllShort(lengths: seq<real>) {
    forall i :: 0 <= i < |lengths| ==> lengths[i] < NEGLIGIBLE
  }

  // Where the walk stands before the n-th segment. since is what it takes the distance
  // from the last post to be; it is less than the distance by what was neglected.
  ghost predicate Standing(lengths: seq<real>, spacing: real, n: nat, posts: seq<Post>, since: real, neglected: real)
    requires IsPolyline(lengths)
  {
    && n <= |lengths| && posts != [] && Spaced(lengths, spacing, posts)
    && var last := posts[|posts| - 1];
    && last.segment <= n && 0.0 <= since <= spacing && (since == 0.0 || since >= NEGLIGIBLE)
    && 0.0 <= neglected < Slack(lengths, last, n) && (last.segment == n ==> since == neglected == 0.0)
    && Start(lengths, n) - Arc(lengths, last) == since + neglected
  }

  // Inside the n-th segment, where the next post would be at the cursor.
  ghost predicate Within(lengths: seq<real>, spacing: real, n: nat, posts: seq<Post>, cursor: real, neglected: real)
    requires IsPolyline(lengths)
  {
    && n < |lengths| && posts != [] && Spaced(lengths, spacing, posts) && 0.0 <= cursor
    && var last := posts[|posts| - 1];
    && last.segment <= n && 0.0 <= neglected < Slack(lengths, last, n) && (last.segment == n ==> neglected == 0.0)
    && Start(lengths, n) + cursor - Arc(lengths, last) == spacing + neglected
  }

  lemma NextPost(lengths: seq<real>, spacing: real, n: nat, posts: seq<Post>, cursor: real, neglected: real)
    requires IsPolyline(lengths) && spacing > 0.0 && Within(lengths, spacing, n, posts, cursor, neglected)
             && cursor < lengths[n]
    ensures Within(lengths, spacing, n, posts + [Post(n, cursor / lengths[n])], cursor + spacing, 0.0)
  {
    var p := Post(n, cursor / lengths[n]);
    PartOfLength(cursor, lengths[n]);
    ArcAt(lengths, p, cursor);
    hide Spaced, Arc, Start;
    assert OnPath(lengths, posts[|posts| - 1]) by {
      LastIsOnPath(lengths, spacing, posts);
    }
    OneMore(lengths, spacing, posts, p);
  }

  lemma LastIsOnPath(lengths: seq<real>, spacing: real, posts: seq<Post>)
    requires IsPolyline(lengths) && Spaced(lengths, spacing, posts) && posts != []
    ensures OnPath(lengths, posts[|posts| - 1])
  {
  }

  // What the walk makes of the rest of a segment: nothing, if it is negligible.
  function Rest(left: real): real {
    if -NEGLIGIBLE < left < NEGLIGIBLE then 0.0 else left
  }

  lemma SegmentLeft(lengths: seq<real>, spacing: real, n: nat, posts: seq<Post>, cursor: real, neglected: real)
    requires IsPolyline(lengths) && spacing > 0.0 && Within(lengths, spacing, n, posts, cursor, neglected)
             && lengths[n] <= cursor
    requires posts[|posts| - 1].segment == n ==> cursor - spacing <= lengths[n]
    requires posts[|posts| - 1].segment < n ==> cursor == spacing || cursor <= spacing - NEGLIGIBLE
    ensures var left := lengths[n] - (cursor - spacing);
      Standing(lengths, spacing, n + 1, posts, Rest(left), neglected + left - Rest(left))
  {
    hide Spaced, Arc;
  }

  // The posts of one segment: as many as still fit.
  method PostsOfSegment(lengths: seq<real>, spacing: real, n: nat, since: real, posts: seq<Post>, ghost neglected: real)
    returns (more: seq<Post>, now: real, ghost neglectedNow: real)
    requires IsPolyline(lengths) && spacing > 0.0 && n < |lengths|
             && Standing(lengths, spacing, n, posts, since, neglected)
    ensures Standing(lengths, spacing, n + 1, more, now, neglectedNow) && posts <= more
    ensures since == 0.0 && lengths[n] < NEGLIGIBLE <= spacing ==> more == posts && now == 0.0
  {
    var length := lengths[n];
    more, neglectedNow := posts, neglected;
    var cursor := spacing - since;
    assert Within(lengths, spacing, n, more, cursor, neglectedNow);
    assert cursor == spacing || cursor <= spacing - NEGLIGIBLE;
    assert posts[|posts| - 1].segment == n ==> cursor == spacing;
    hide Within, Standing;
    while cursor < length
      invariant posts <= more && Within(lengths, spacing, n, more, cursor, neglectedNow)
      invariant more == posts ==> cursor == spacing - since
      invariant more != posts ==> more[|more| - 1].segment == n && cursor - spacing <= length
      invariant since == 0.0 && length < spacing ==> more == posts
      decreases Fits(length - cursor, spacing)
    {
      NextPost(lengths, spacing, n, more, cursor, neglectedNow);
      FitsLess(length - cursor, spacing);
      more, neglectedNow := more + [Post(n, cursor / length)], 0.0;
      cursor := cursor + spacing;
    }
    SegmentLeft(lengths, spacing, n, more, cursor, neglectedNow);
    var left := length - (cursor - spacing);
    now, neglectedNow := Rest(left), neglectedNow + left - Rest(left);
  }

  lemma ArcAt(lengths: seq<real>, p: Post, cursor: real)
    requires p.segment < |lengths| && p.t * lengths[p.segment] == cursor
    ensures Arc(lengths, p) == Start(lengths, p.segment) + cursor
  {
  }

  // The posts, before the end of the path gets one of its own. Between neighbors, and
  // after the last of them, no more is lost than a negligible distance and the
  // negligible segments in between; these cannot be left out of account, because a path
  // of nothing but such segments has no post after the first, however long it is.
  method PointsAlongPolyline(lengths: seq<real>, spacing: real) returns (posts: seq<Post>)
    requires spacing > 0.0 && lengths != [] && IsPolyline(lengths)
    ensures posts != [] && posts[0] == Post(0, 0.0) && Spaced(lengths, spacing, posts)
    ensures var last := posts[|posts| - 1];
      0.0 <= Start(lengths, |lengths|) - Arc(lengths, last) < spacing + Slack(lengths, last, |lengths|)
    ensures LongEnough(lengths) ==> EvenlySpaced(lengths, spacing, posts)
    ensures LongEnough(lengths) ==> Start(lengths, |lengths|) - Arc(lengths, posts[|posts| - 1]) < spacing + 0.000001
    ensures (forall i :: 0 <= i < |lengths| ==> lengths[i] < 0.000001) && spacing >= 0.000001 ==>
              posts == [Post(0, 0.0)]
  {
    posts := [Post(0, 0.0)];
    var since := 0.0;
    ghost var neglected := 0.0;
    assert Standing(lengths, spacing, 0, posts, since, neglected) by {
      assert Arc(lengths, posts[0]) == 0.0;
    }
    hide Standing, Spaced, Arc, Start;
    for n := 0 to |lengths|
      invariant Standing(lengths, spacing, n, posts, since, neglected) && posts != [] && posts[0] == Post(0, 0.0)
      invariant AllShort(lengths) && spacing >= NEGLIGIBLE ==> posts == [Post(0, 0.0)] && since == 0.0
    {
      posts, since, neglected := PostsOfSegment(lengths, spacing, n, since, posts, neglected);
    }
    Arrived(lengths, spacing, posts, since, neglected);
  }

  lemma Arrived(lengths: seq<real>, spacing: real, posts: seq<Post>, since: real, neglected: real)
    requires IsPolyline(lengths) && Standing(lengths, spacing, |lengths|, posts, since, neglected) && spacing > 0.0
    ensures posts != [] && Spaced(lengths, spacing, posts) && OnPath(lengths, posts[|posts| - 1])
    ensures var last := posts[|posts| - 1];
      0.0 <= Start(lengths, |lengths|) - Arc(lengths, last) < spacing + Slack(lengths, last, |lengths|)
    ensures LongEnough(lengths) ==> EvenlySpaced(lengths, spacing, posts)
    ensures LongEnough(lengths) ==> Start(lengths, |lengths|) - Arc(lengths, posts[|posts| - 1]) < spacing + NEGLIGIBLE
  {
    if LongEnough(lengths) {
      LongEnoughIsEven(lengths, spacing, posts);
      NothingShort(lengths, posts[|posts| - 1].segment + 1, |lengths|);
    }
  }

  // Negligible segments alone make paths longer than any bound, all of it without posts
  // after the first.
  lemma ShortPathPassesAnyBound(bound: nat) returns (lengths: seq<real>)
    ensures lengths != [] && IsPolyline(lengths) && AllShort(lengths) && Start(lengths, |lengths|) > bound as real
  {
    var parts := 2_000_000 * (bound + 1);
    lengths := seq(parts, i => NEGLIGIBLE / 2.0);
    PartsAddUp(lengths, parts);
    assert parts as real == 2_000_000.0 * (bound as real + 1.0);
  }

  lemma {:induction false} PartsAddUp(lengths: seq<real>, n: nat)
    requires n <= |lengths| && forall i :: 0 <= i < |lengths| ==> lengths[i] == NEGLIGIBLE / 2.0
    ensures Start(lengths, n) == n as real * (NEGLIGIBLE / 2.0)
  {
    if n > 0 {
      PartsAddUp(lengths, n - 1);
    }
  }
}
