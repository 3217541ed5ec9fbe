// Counting the shells of a body: the connected parts of its faces, where faces that
// share an edge are connected.
module ShellCount {

  type FaceId = nat
  type EdgeId = nat

  // Which edges bound a face, and which faces meet at an edge.
  datatype Mesh = Mesh(edgesOf: map<FaceId, seq<EdgeId>>, facesOf: map<EdgeId, seq<FaceId>>)

  function EdgesOf(m: Mesh, f: FaceId): seq<EdgeId> {
    if f in m.edgesOf then m.edgesOf[f] else []
  }

  function FacesOf(m: Mesh, e: EdgeId): seq<FaceId> {
    if e in m.facesOf then m.facesOf[e] else []
  }

  ghost predicate Bounds(m: Mesh, e: EdgeId, f: FaceId) {
    f in m.edgesOf && e in m.edgesOf[f]
  }

  ghost predicate MeetsAt(m: Mesh, f: FaceId, e: EdgeId) {
    e in m.facesOf && f in m.facesOf[e]
  }

  // A face is bounded by an edge exactly when it meets there.
  ghost predicate Consistent(m: Mesh) {
    forall f, e :: Bounds(m, e, f) <==> MeetsAt(m, f, e)
  }

  ghost predicate Adjacent(m: Mesh, f: FaceId, g: FaceId) {
    exists e :: Bounds(m, e, f) && MeetsAt(m, g, e)
  }

  // A walk from f to g over adjacent faces, all of them among the given ones.
  ghost predicate IsWalk(m: Mesh, faces: set<FaceId>, walk: seq<FaceId>, f: FaceId, g: FaceId) {
    && walk != [] && walk[0] == f && walk[|walk| - 1] == g
    && (forall i :: 0 <= i < |walk| ==> walk[i] in faces)
    && forall i :: 0 <= i < |walk| - 1 ==> Adjacent(m, walk[i], walk[i + 1])
  }

  ghost predicate Connected(m: Mesh, faces: set<FaceId>, f: FaceId, g: FaceId) {
    exists walk: seq<FaceId> :: IsWalk(m, faces, walk, f, g)
  }

  // The faces connected to f.
  ghost function Shell(m: Mesh, faces: set<FaceId>, f: FaceId): set<FaceId> {
    set g | g in faces && Connected(m, faces, f, g)
  }

  ghost function Shells(m: Mesh, faces: set<FaceId>): set<set<FaceId>> {
    set f | f in faces :: Shell(m, faces, f)
  }

  // Shells are the parts of a partition ----------------------------------------

  lemma ConnectedItself(m: Mesh, faces: set<FaceId>, f: FaceId)
    requires f in faces
    ensures Connected(m, faces, f, f)
  {
    assert IsWalk(m, faces, [f], f, f);
  }

  lemma ConnectedOn(m: Mesh, faces: set<FaceId>, f: FaceId, g: FaceId, h: FaceId)
    requires Connected(m, faces, f, g) && h in faces && Adjacent(m, g, h)
    ensures Connected(m, faces, f, h)
  {
    hide Adjacent;
    var walk :| IsWalk(m, faces, walk, f, g);
    assert IsWalk(m, faces, walk + [h], f, h);
  }

  lemma AdjacentBack(m: Mesh, f: FaceId, g: FaceId)
    requires Consistent(m) && Adjacent(m, f, g)
    ensures Adjacent(m, g, f)
  {
    var e :| Bounds(m, e, f) && MeetsAt(m, g, e);
    assert Bounds(m, e, g) && MeetsAt(m, f, e);
  }

  lemma {:induction false} ConnectedTo(m: Mesh, faces: set<FaceId>, closed: set<FaceId>, walk: seq<FaceId>,
                                       f: FaceId, g: FaceId)
    requires IsWalk(m, faces, walk, f, g) && f in closed
    requires forall x, y :: x in closed && y in faces && Adjacent(m, x, y) ==> y in closed
    ensures g in closed
  {
    hide Adjacent;
    if |walk| > 1 {
      assert Adjacent(m, walk[0], walk[0 + 1]);
      forall i | 0 <= i < |walk[1..]| - 1 ensures Adjacent(m, walk[1..][i], walk[1..][i + 1]) {
        assert Adjacent(m, walk[i + 1], walk[i + 1 + 1]);
      }
      ConnectedTo(m, faces, closed, walk[1..], walk[1], g);
    }
  }

  lemma {:induction false} WalkBack(m: Mesh, faces: set<FaceId>, walk: seq<FaceId>, f: FaceId, g: FaceId)
    requires Consistent(m) && IsWalk(m, faces, walk, f, g)
    ensures Connected(m, faces, g, f)
  {
    hide Adjacent, Consistent;
    if |walk| == 1 {
      ConnectedItself(m, faces, f);
    } else {
      var n := |walk| - 1;
      assert Adjacent(m, walk[n - 1], walk[n - 1 + 1]);
      AdjacentBack(m, walk[n - 1], g);
      WalkBack(m, faces, walk[..n], f, walk[n - 1]);
      ConnectedTogether(m, faces, [g, walk[n - 1]], g, walk[n - 1], f);
    }
  }

  lemma ConnectedTogether(m: Mesh, faces: set<FaceId>, walk: seq<FaceId>, f: FaceId, g: FaceId, h: FaceId)
    requires IsWalk(m, faces, walk, f, g) && Connected(m, faces, g, h)
    ensures Connected(m, faces, f, h)
  {
    hide Adjacent;
    var second :| IsWalk(m, faces, second, g, h);
    var joined := walk + second[1..];
    forall i | 0 <= i < |joined| - 1 ensures Adjacent(m, joined[i], joined[i + 1]) {
      if i < |walk| - 1 {
        assert Adjacent(m, walk[i], walk[i + 1]);
      } else {
        var k := i - (|walk| - 1);
        assert joined[i] == second[k] && joined[i + 1] == second[k + 1];
        assert Adjacent(m, second[k], second[k + 1]);
      }
    }
    assert IsWalk(m, faces, joined, f, h);
  }

  // Two shells that share a face are one: a face has the shell of every face in it.
  lemma SameShell(m: Mesh, faces: set<FaceId>, f: FaceId, g: FaceId)
    requires Consistent(m) && f in faces && g in Shell(m, faces, f)
    ensures Shell(m, faces, g) == Shell(m, faces, f)
  {
    hide Consistent, IsWalk;
    var walk :| IsWalk(m, faces, walk, f, g);
    WalkBack(m, faces, walk, f, g);
    var back :| IsWalk(m, faces, back, g, f);
    forall h | h in faces ensures Connected(m, faces, g, h) <==> Connected(m, faces, f, h) {
      if Connected(m, faces, g, h) {
        ConnectedTogether(m, faces, walk, f, g, h);
      }
      if Connected(m, faces, f, h) {
        ConnectedTogether(m, faces, back, g, f, h);
      }
    }
  }

  // The count -------------------------------------------------------------------

  // Nothing outside the set is adjacent to anything in it.
  ghost predicate Closed(m: Mesh, faces: set<FaceId>, part: set<FaceId>) {
    forall x, y :: x in part && y in faces && Adjacent(m, x, y) ==> y in part
  }

  // The flood has taken part of the shell of first; the rest of it hangs on the stack.
  ghost predicate Flooding(m: Mesh, faces: set<FaceId>, first: FaceId, taken: set<FaceId>, stack: seq<FaceId>) {
    && taken <= Shell(m, faces, first)
    && (forall i :: 0 <= i < |stack| ==> stack[i] in Shell(m, faces, first))
    && (first in taken || first in stack)
    && forall x, y :: x in taken && y in faces && Adjacent(m, x, y) ==> y in taken || y in stack
  }

  lemma FloodEnds(m: Mesh, faces: set<FaceId>, first: FaceId, taken: set<FaceId>)
    requires first in faces && Flooding(m, faces, first, taken, [])
    ensures taken == Shell(m, faces, first)
  {
    hide Adjacent;
    forall g | g in Shell(m, faces, first) ensures g in taken {
      var walk :| IsWalk(m, faces, walk, first, g);
      ConnectedTo(m, faces, taken, walk, first, g);
    }
  }

  // Puts the neighbors that are still pending on the stack.
  method PushNeighbors(m: Mesh, face: FaceId, pending: set<FaceId>, stack: seq<FaceId>) returns (pushed: seq<FaceId>)
    ensures stack <= pushed
    ensures forall g :: g in pushed[|stack|..] <==> g in pending && Adjacent(m, face, g)
  {
    pushed := stack;
    ghost var added: seq<FaceId> := [];
    var edges := EdgesOf(m, face);
    for i := 0 to |edges|
      invariant pushed == stack + added
      invariant forall g :: g in added <==> g in pending && exists k :: 0 <= k < i && g in FacesOf(m, edges[k])
    {
      var faces := FacesOf(m, edges[i]);
      ghost var before := added;
      for j := 0 to |faces|
        invariant pushed == stack + added
        invariant forall g :: g in added <==> g in before || (g in pending && g in faces[..j])
      {
        assert faces[..j + 1] == faces[..j] + [faces[j]];
        if faces[j] in pending {
          pushed, added := pushed + [faces[j]], added + [faces[j]];
        }
      }
      assert faces[..|faces|] == faces;
    }
    assert pushed[|stack|..] == added;
    assert forall g, e :: e in edges && g in FacesOf(m, e) <==> Bounds(m, e, face) && MeetsAt(m, g, e);
  }

  // Takes the whole shell of one face out of the pending faces.
  method FloodShell(m: Mesh, faces: set<FaceId>, unvisited: set<FaceId>, first: FaceId) returns (pending: set<FaceId>)
    requires first in unvisited && unvisited <= faces && Closed(m, faces, unvisited)
    ensures pending == unvisited - Shell(m, faces, first)
    ensures Shell(m, faces, first) <= unvisited
  {
    pending := unvisited;
    var stack := [first];
    ShellWithin(m, faces, unvisited, first);
    ConnectedItself(m, faces, first);
    hide Adjacent, Shell, Closed;
    assert Flooding(m, faces, first, unvisited - pending, stack);
    while stack != []
      invariant pending <= unvisited && Flooding(m, faces, first, unvisited - pending, stack)
      decreases |pending|, |stack|
    {
      var face, rest := stack[|stack| - 1], stack[..|stack| - 1];
      if face !in pending {
        Popped(m, faces, first, unvisited - pending, stack);
        stack := rest;
      } else {
        var left := pending - {face};
        var pushed := PushNeighbors(m, face, left, rest);
        Taken(m, faces, first, unvisited, pending, stack, pushed);
        pending, stack := left, pushed;
      }
    }
    FloodEnds(m, faces, first, unvisited - pending);
  }

  lemma ShellWithin(m: Mesh, faces: set<FaceId>, unvisited: set<FaceId>, first: FaceId)
    requires first in unvisited && unvisited <= faces && Closed(m, faces, unvisited)
    ensures Shell(m, faces, first) <= unvisited && first in Shell(m, faces, first)
  {
    ConnectedItself(m, faces, first);
    hide Adjacent;
    forall g | g in Shell(m, faces, first) ensures g in unvisited {
      var walk :| IsWalk(m, faces, walk, first, g);
      ConnectedTo(m, faces, unvisited, walk, first, g);
    }
  }

  lemma Popped(m: Mesh, faces: set<FaceId>, first: FaceId, taken: set<FaceId>, stack: seq<FaceId>)
    requires Flooding(m, faces, first, taken, stack) && stack != [] && stack[|stack| - 1] in taken
    ensures Flooding(m, faces, first, taken, stack[..|stack| - 1])
  {
    hide Adjacent, Shell;
    assert stack == stack[..|stack| - 1] + [stack[|stack| - 1]];
  }

  lemma Taken(m: Mesh, faces: set<FaceId>, first: FaceId, unvisited: set<FaceId>, pending: set<FaceId>,
              stack: seq<FaceId>, pushed: seq<FaceId>)
    requires unvisited <= faces && pending <= unvisited && Closed(m, faces, unvisited) && first in faces
    requires Flooding(m, faces, first, unvisited - pending, stack) && stack != []
    requires var face, rest := stack[|stack| - 1], stack[..|stack| - 1];
      && face in pending && rest <= pushed
      && forall g :: g in pushed[|rest|..] <==> g in pending - {face} && Adjacent(m, face, g)
    ensures Flooding(m, faces, first, unvisited - (pending - {stack[|stack| - 1]}), pushed)
  {
    var face, rest := stack[|stack| - 1], stack[..|stack| - 1];
    assert pushed == rest + pushed[|rest|..] && stack == rest + [face];
    assert face in Shell(m, faces, first);
    forall g | g in pushed[|rest|..] ensures g in Shell(m, faces, first) {
      ConnectedOn(m, faces, first, face, g);
    }
    hide Adjacent, Shell;
  }

  // The number of shells among the given faces.
  method DetailFaceShellCount(m: Mesh, faces: set<FaceId>) returns (count: nat)
    requires Consistent(m)
    ensures count == |Shells(m, faces)|
  {
    var pending := faces;
    count := 0;
    ghost var counted: set<set<FaceId>> := {};
    hide Consistent, Adjacent, Shell;
    while pending != {}
      invariant pending <= faces && Closed(m, faces, pending) && count == |counted|
      invariant forall s :: s in counted <==> exists f :: f in faces - pending && s == Shell(m, faces, f)
      decreases |pending|
    {
      var first: FaceId :| first in pending;
      var left := FloodShell(m, faces, pending, first);
      NewShell(m, faces, pending, first);
      counted := counted + {Shell(m, faces, first)};
      count := count + 1;
      pending := left;
    }
    assert counted == Shells(m, faces);
  }

  lemma NewShell(m: Mesh, faces: set<FaceId>, pending: set<FaceId>, first: FaceId)
    requires Consistent(m) && first in pending && pending <= faces && Closed(m, faces, pending)
    ensures first in Shell(m, faces, first) && Shell(m, faces, first) <= pending
    ensures Closed(m, faces, pending - Shell(m, faces, first))
    ensures forall f :: f in faces - pending ==> Shell(m, faces, f) != Shell(m, faces, first)
    ensures forall f :: f in Shell(m, faces, first) ==> Shell(m, faces, f) == Shell(m, faces, first)
  {
    ShellWithin(m, faces, pending, first);
    var shell := Shell(m, faces, first);
    forall f | f in shell ensures Shell(m, faces, f) == shell {
      SameShell(m, faces, first, f);
    }
    forall f | f in faces - pending ensures Shell(m, faces, f) != shell {
      ConnectedItself(m, faces, f);
    }
    forall x, y | x in pending - shell && y in faces && Adjacent(m, x, y) ensures y in pending - shell {
      if y in shell {
        AdjacentBack(m, x, y);
        ConnectedOn(m, faces, first, y, x);
      }
    }
  }
}
