// The bridge's side of the queue, as it is run: every call of the timer takes steps
// of the protocol and no others, whatever the disk and the operations do.
module QueueProcessing {
  import opened TextOrder
  import opened QueueProtocol

  datatype Claim = Got(request: nat) | Missing | Raised

  // The names in a directory, in order.
  method SortedNames(directory: map<string, nat>) returns (names: seq<string>)
    ensures Listing(names, directory)
  {
    names := [];
    var rest := directory.Keys;
    while rest != {}
      invariant rest <= directory.Keys && Ascending(names)
      invariant forall n :: n in directory ==> n in rest || n in names
      invariant forall n :: n in names ==> n in directory && n !in rest
      invariant forall m, n :: m in names && n in rest ==> Leq(m, n)
      decreases |rest|
    {
      var least := LeastName(rest);
      forall n | n in names ensures ComesFirst(n, least) {
        LeqMeans(n, least);
      }
      names := names + [least];
      rest := rest - {least};
    }
  }

  method LeastName(names: set<string>) returns (least: string)
    requires names != {}
    ensures least in names && forall n :: n in names ==> Leq(least, n)
  {
    least :| least in names;
    LeqReflexive(least);
    var rest := names - {least};
    while rest != {}
      invariant rest <= names && least in names
      invariant forall n :: n in names && n !in rest ==> Leq(least, n)
      decreases |rest|
    {
      var n :| n in rest;
      LeqTotal(least, n);
      LeqReflexive(n);
      if !Leq(least, n) {
        forall m | m in names && m !in rest ensures Leq(n, m) {
          LeqTransitive(n, least, m);
        }
        least := n;
      }
      rest := rest - {n};
    }
  }

  class Bridge {
    // The queue, processing and response directories, and what the request files hold.
    var queued: map<string, nat>
    var claimed: map<string, nat>
    var responses: map<string, Response>
    var requests: seq<Request>
    // What the protocol records beside them, and the run so far.
    ghost var place: Place
    ghost var log: seq<nat>
    ghost var outcomes: map<nat, Outcome>
    ghost var released: set<nat>
    ghost var withdrawn: set<nat>
    ghost var discarded: set<nat>
    ghost var run: seq<State>
    // How many file operations have failed.
    ghost var troubles: nat

    ghost function Now(): State
      reads this
    {
      State(queued, claimed, responses, place, requests, log, outcomes, released, withdrawn, discarded)
    }

    ghost predicate Valid()
      reads this
    {
      IsRun(run) && run[|run| - 1] == Now()
    }

    constructor ()
      ensures Valid() && Now() == EMPTY
    {
      queued, claimed, responses, requests := map[], map[], map[], [];
      place, log, outcomes, released, withdrawn, discarded := Down, [], map[], {}, {}, {};
      run, troubles := [EMPTY], 0;
    }

    // A rename, a write or a deletion, which may fail.
    method FileOperation() returns (fails: bool)
      modifies `troubles
      ensures troubles == old(troubles) + if fails then 1 else 0
    {
      fails := *;
      troubles := troubles + if fails then 1 else 0;
    }

    // Records a step that has just been taken.
    ghost method Step(a: Action)
      requires IsRun(run) && Enabled(run[|run| - 1], a) && Now() == Apply(run[|run| - 1], a)
      modifies `run
      ensures Valid() && run == old(run) + [Now()] && Later(old(run)[|old(run)| - 1], Now())
    {
      ghost var before := run[|run| - 1];
      assert Next(before, Now());
      RunKeepsInv(run, |run| - 1);
      hide Inv, IsRun, Next;
      StepIsLater(before, a);
      RunExtends(run, Now());
      run := run + [Now()];
    }

    // The callback stops at a file operation that failed; what was claimed stays so.
    ghost method Stop(a: Action)
      requires Valid() && (a.ClaimFails? || a.PersistenceFails? || a.ReleaseFails?) && Enabled(Now(), a)
      modifies `place, `run
      ensures Valid() && old(run) <= run && Later(old(Now()), Now()) && Now() == old(Now()).(place := Idle)
    {
      hide Later, IsRun, Listing;
      place := Idle;
      Step(a);
    }

    // Agents put requests into the queue and take them back at any time.
    method Elsewhere()
      requires Valid()
      modifies this
      ensures Valid() && old(run) <= run
      ensures Later(old(Now()), Now()) && SameWork(old(Now()), Now()) && troubles == old(troubles)
    {
      hide Later, IsRun;
      Arrives();
      label Arrived:
      Leaves();
      LaterTransitive(old(Now()), old@Arrived(Now()), Now());
    }

    method Arrives()
      requires Valid()
      modifies this
      ensures Valid() && old(run) <= run
      ensures Later(old(Now()), Now()) && SameWork(old(Now()), Now()) && troubles == old(troubles)
    {
      hide Later, IsRun;
      LaterItself(Now());
      var arrives: bool := *;
      var request: Request := *;
      if arrives && request.name !in queued {
        queued, requests := queued[request.name := |requests|], requests + [request];
        Step(Enqueue(request));
      }
    }

    method Leaves()
      requires Valid()
      modifies this
      ensures Valid() && old(run) <= run
      ensures Later(old(Now()), Now()) && SameWork(old(Now()), Now()) && troubles == old(troubles)
    {
      hide Later, IsRun;
      LaterItself(Now());
      var leaves: bool := *;
      var name: string := *;
      if leaves && name in queued {
        withdrawn := withdrawn + {queued[name]};
        queued := queued - {name};
        Step(Withdraw(name));
      }
    }

    method ClaimRequest(name: string, ghost rest: seq<string>) returns (claim: Claim)
      requires Valid() && place == Scanning([name] + rest)
      modifies this
      ensures Valid() && old(run) <= run && Later(old(Now()), Now())
      ensures troubles >= old(troubles) && (claim.Raised? <==> troubles > old(troubles))
      ensures claim.Raised? ==> name in old(queued) && Now() == old(Now()).(place := Idle)
      ensures claim.Missing? ==> name !in old(queued) && Now() == old(Now()).(place := Scanning(rest))
      ensures claim.Got? ==> name in old(queued) && claim.request == old(queued)[name]
      ensures claim.Got? ==> claim.request < |requests| && requests[claim.request].name == name
      ensures claim.Got? ==> Now() == old(Now()).(queued := old(queued) - {name}, claimed := map[name := claim.request],
                                                   place := Claimed(claim.request, rest))
    {
      hide Later, IsRun;
      ghost var names := [name] + rest;
      assert names[0] == name && names[1..] == rest;
      LaterItself(Now());
      NothingIsClaimed(run);
      var fails := false;
      if name in queued {
        fails := FileOperation();
      }
      if name in claimed || fails {
        Stop(ClaimFails);
        return Raised;
      }
      if name !in queued {
        place := Scanning(rest);
        Step(ClaimNext);
        return Missing;
      }
      RequestsInRange(run, name);
      var request := queued[name];
      Take(name, request, rest);
      claim := Got(request);
    }

    // The rename out of the queue.
    method Take(name: string, request: nat, ghost rest: seq<string>)
      requires Valid() && place == Scanning([name] + rest) && claimed == map[]
      requires name in queued && queued[name] == request
      modifies `queued, `claimed, `place, `run
      ensures Valid() && old(run) <= run && Later(old(Now()), Now())
      ensures Now() == old(Now()).(queued := old(queued) - {name}, claimed := map[name := request],
                                   place := Claimed(request, rest))
    {
      hide Later, IsRun, Listing;
      ghost var names := [name] + rest;
      assert names[0] == name && names[1..] == rest;
      queued, claimed, place := queued - {name}, claimed[name := request], Claimed(request, rest);
      Step(ClaimNext);
    }

    method Begin(request: nat, ghost rest: seq<string>)
      requires Valid() && place == Claimed(request, rest) && request < |requests| && requests[request].readable
      modifies `log, `place, `run
      ensures Valid() && old(run) <= run && Later(old(Now()), Now())
      ensures place == Dispatching(request, rest) && log == old(log) + [request]
    {
      hide Later, IsRun, Listing;
      log, place := log + [request], Dispatching(request, rest);
      Step(BeginDispatch);
    }

    method End(request: nat, ghost rest: seq<string>) returns (body: Outcome)
      requires Valid() && place == Dispatching(request, rest)
      modifies `outcomes, `place, `run
      ensures Valid() && old(run) <= run && Later(old(Now()), Now())
      ensures place == Dispatched(request, rest) && outcomes == old(outcomes)[request := body]
    {
      hide Later, IsRun, Listing;
      body := *;
      outcomes, place := outcomes[request := body], Dispatched(request, rest);
      Step(EndDispatch(body));
    }

    method Dispatch(request: nat, ghost rest: seq<string>) returns (body: Outcome)
      requires Valid() && place == Claimed(request, rest) && request < |requests| && requests[request].readable
      modifies this
      ensures Valid() && old(run) <= run && Later(old(Now()), Now()) && SameClaim(old(Now()), Now())
      ensures troubles == old(troubles)
      ensures place == Dispatched(request, rest) && request in outcomes && outcomes[request] == body
      ensures log == old(log) + [request]
    {
      hide Later, IsRun;
      Begin(request, rest);
      label Begun:
      Elsewhere();
      LaterTransitive(old(Now()), old@Begun(Now()), Now());
      label Ran:
      body := End(request, rest);
      LaterTransitive(old(Now()), old@Ran(Now()), Now());
    }

    // Reads the claimed request and runs it; both may fail.
    method Answer(request: nat, ghost rest: seq<string>) returns (body: Outcome)
      requires Valid() && place == Claimed(request, rest) && request < |requests|
      modifies this
      ensures Valid() && old(run) <= run && Later(old(Now()), Now()) && SameClaim(old(Now()), Now())
      ensures troubles == old(troubles)
      ensures place == Dispatched(request, rest) && request in outcomes && outcomes[request] == body
      ensures log == old(log) + if old(requests)[request].readable then [request] else []
    {
      if requests[request].readable {
        body := Dispatch(request, rest);
      } else {
        hide Later, IsRun, Listing;
        var message: string := *;
        body := Failure(message);
        outcomes, place := outcomes[request := body], Dispatched(request, rest);
        Step(Unreadable(body));
      }
    }

    // The temporary file is complete.
    ghost method WriteDown(request: nat, rest: seq<string>)
      requires Valid() && place == Dispatched(request, rest) && request < |requests|
      requires IsToken(ResponseId(requests[request]))
      modifies `place, `run
      ensures Valid() && old(run) <= run && Later(old(Now()), Now())
      ensures Now() == old(Now()).(place := Written(request, rest))
    {
      hide Later, IsRun, IsToken, Listing;
      place := Written(request, rest);
      Step(WriteTemporary);
    }

    // The temporary file becomes the response.
    method PutInPlace(id: string, request: nat, body: Outcome, ghost rest: seq<string>)
      requires Valid() && place == Written(request, rest) && request < |requests| && request in outcomes
      requires outcomes[request] == body && id == ResponseId(requests[request])
      modifies `responses, `place, `run
      ensures Valid() && old(run) <= run && Later(old(Now()), Now())
      ensures Now() == old(Now()).(place := Responded(request, rest),
                                   responses := old(responses)[id := Response(request, body)])
    {
      hide Later, IsRun, IsToken, Listing;
      responses, place := responses[id := Response(request, body)], Responded(request, rest);
      Step(Publish);
    }

    method WriteResponse(request: nat, body: Outcome, ghost rest: seq<string>) returns (persisted: bool)
      requires Valid() && place == Dispatched(request, rest) && request < |requests| && request in outcomes
      requires outcomes[request] == body
      modifies this
      ensures Valid() && old(run) <= run && Later(old(Now()), Now())
      ensures var r := old(requests)[request];
        var id := if r.readable && r.id.Named? then r.id.id else r.name;
        persisted ==>
          IsToken(id)
          && Now() == old(Now()).(place := Responded(request, rest),
                                  responses := old(responses)[id := Response(request, body)])
      ensures !persisted ==> Now() == old(Now()).(place := Idle)
      ensures troubles >= old(troubles)
      ensures persisted <==> CanBeFiled(old(requests)[request]) && troubles == old(troubles)
    {
      hide Later, IsRun, IsToken;
      var id := ResponseId(requests[request]);
      var fails := FileOperation();
      if fails || !IsToken(id) {
        Stop(PersistenceFails);
        return false;
      }
      WriteDown(request, rest);
      label Wrote:
      var renameFails := FileOperation();
      if renameFails {
        Stop(PersistenceFails);
        LaterTransitive(old(Now()), old@Wrote(Now()), Now());
        return false;
      }
      PutInPlace(id, request, body, rest);
      LaterTransitive(old(Now()), old@Wrote(Now()), Now());
      persisted := true;
    }

    method ReleaseClaim(request: nat, ghost rest: seq<string>) returns (freed: bool)
      requires Valid() && place == Responded(request, rest) && request < |requests|
      modifies this
      ensures Valid() && old(run) <= run && Later(old(Now()), Now())
      ensures freed ==> Now() == old(Now()).(claimed := old(claimed) - {old(requests)[request].name},
                                             released := old(released) + {request}, place := Scanning(rest))
      ensures !freed ==> Now() == old(Now()).(place := Idle)
      ensures troubles >= old(troubles) && (freed <==> troubles == old(troubles))
    {
      hide Later, IsRun;
      var fails := FileOperation();
      if fails {
        Stop(ReleaseFails);
        return false;
      }
      claimed := claimed - {requests[request].name};
      released, place := released + {request}, Scanning(rest);
      Step(Release);
      freed := true;
    }

    method Handle(request: nat, name: string, ghost rest: seq<string>) returns (goesOn: bool)
      requires Valid() && place == Claimed(request, rest) && request < |requests| && requests[request].name == name
      requires claimed == map[name := request]
      modifies this
      ensures Valid() && old(run) <= run && Later(old(Now()), Now()) && discarded == old(discarded)
      ensures goesOn ==> place == Scanning(rest)
      ensures !goesOn ==> place.Idle? && claimed == map[name := request]
      ensures troubles >= old(troubles)
      ensures goesOn <==> CanBeFiled(old(requests)[request]) && troubles == old(troubles)
      ensures log == old(log) + if old(requests)[request].readable then [request] else []
    {
      hide Later, IsRun, CanBeFiled;
      var body := Answer(request, rest);
      label Answered:
      assert name in claimed && requests[request].name == name by {
        LaterRequests(old(Now()), Now());
      }
      var persisted := WriteResponse(request, body, rest);
      LaterTransitive(old(Now()), old@Answered(Now()), Now());
      goesOn := false;
      if persisted {
        label Persisted:
        goesOn := ReleaseClaim(request, rest);
        LaterTransitive(old(Now()), old@Persisted(Now()), Now());
      }
    }

    // One request of the listing: claimed, answered, written, released. The callback
    // goes on to the next one only when nothing of this one is left to do.
    method ProcessOne(name: string, ghost rest: seq<string>) returns (goesOn: bool, raised: bool)
      requires Valid() && place == Scanning([name] + rest)
      modifies this
      ensures Valid() && old(run) <= run && Later(old(Now()), Now()) && discarded == old(discarded)
      ensures goesOn ==> place == Scanning(rest)
      ensures goesOn ==> NoneQueued(old(Now()), Now(), [name])
      ensures AddsOf(old(Now()), Now(), name)
      ensures !goesOn ==> place.Idle? && (raised || claimed != map[])
      ensures troubles >= old(troubles) && (raised ==> troubles > old(troubles))
      ensures !goesOn && troubles == old(troubles) ==> IsBlocked(Now())
    {
      hide Later, IsRun, CanBeFiled;
      Elsewhere();
      label Waited:
      var claim := ClaimRequest(name, rest);
      LaterTransitive(old(Now()), old@Waited(Now()), Now());
      if claim.Raised? {
        return false, true;
      }
      if claim.Missing? {
        LaterItself(Now());
        StaysOut(old(Now()), Now(), Now(), name);
        return true, false;
      }
      label Taken:
      goesOn := Handle(claim.request, name, rest);
      LaterTransitive(old(Now()), old@Taken(Now()), Now());
      LaterRequests(old@Taken(Now()), Now());
      StaysOut(old(Now()), old@Taken(Now()), Now(), name);
      assert !goesOn ==> name in claimed;
      raised := false;
    }

    ghost method BeginScan(names: seq<string>)
      requires Valid() && place.Idle? && claimed.Keys == {} && Listing(names, queued)
      modifies `place, `run
      ensures Valid() && run == old(run) + [Now()] && Later(old(Now()), Now()) && place == Scanning(names)
    {
      hide Later, IsRun, Listing;
      place := Scanning(names);
      Step(Tick(names));
    }

    ghost method EndScan()
      requires Valid() && place == Scanning([])
      modifies `place, `run
      ensures Valid() && old(run) <= run && Later(old(Now()), Now()) && place == Idle
    {
      hide Later, IsRun, Listing;
      place := Idle;
      Step(FinishScan);
    }

    // Goes through the listing, stopping where a claim is retained or a rename raises.
    method ProcessListing(names: seq<string>) returns (finished: bool, raised: bool)
      requires Valid() && place == Scanning(names)
      modifies this
      ensures Valid() && old(run) <= run && Later(old(Now()), Now()) && discarded == old(discarded)
      ensures finished ==> place == Scanning([]) && NoneQueued(old(Now()), Now(), names)
      ensures Ascending(names) ==> InOrder(Now(), |old(log)|, names)
      ensures !finished ==> place.Idle? && (raised || claimed != map[])
      ensures troubles >= old(troubles) && (raised ==> troubles > old(troubles))
      ensures !finished && troubles == old(troubles) ==> IsBlocked(Now())
    {
      hide Later, IsRun, NoneQueued, InOrder, Ascending, AddsOf, IsBlocked;
      LaterItself(Now());
      OrderBegins(Now(), names);
      NoneYet(old(Now()), Now());
      var i := 0;
      while i < |names|
        invariant 0 <= i <= |names| && Valid() && old(run) <= run && Later(old(Now()), Now())
        invariant place == Scanning(names[i..]) && discarded == old(discarded)
        invariant NoneQueued(old(Now()), Now(), names[..i]) && troubles >= old(troubles)
        invariant Ascending(names) ==> InOrder(Now(), |old(log)|, names[..i])
      {
        assert names[i..] == [names[i]] + names[i + 1..] && names[..i + 1] == names[..i] + [names[i]];
        label Before:
        var goesOn;
        goesOn, raised := ProcessOne(names[i], names[i + 1..]);
        LaterTransitive(old(Now()), old@Before(Now()), Now());
        OrderGoesOn(old@Before(Now()), Now(), |old(log)|, names, i);
        if !goesOn {
          return false, raised;
        }
        NoneOfOneMore(old(Now()), old@Before(Now()), Now(), names[..i], names[i]);
        i := i + 1;
      }
      assert names[..i] == names;
      finished, raised := true, false;
    }

    // The timer's callback. Unless a claim stands or a rename raises, every request
    // there was when it began has been released when it ends, or was taken back.
    method ProcessPendingRequests() returns (raised: bool)
      requires Valid() && place.Idle?
      modifies this
      ensures Valid() && old(run) <= run && place.Idle? && Later(old(Now()), Now())
      ensures old(claimed) != map[] ==> Now() == old(Now())
      ensures forall k, l :: |old(log)| <= k < l < |log| ==> NamesInOrder(requests, log[k], log[l])
      ensures forall f :: f in released ==> Answered(Now(), f)
      ensures !raised && claimed == map[] ==> forall f: nat :: f < |old(requests)| && IsQueued(old(Now()), f) ==>
              f in released || f in withdrawn
      ensures raised ==> troubles > old(troubles)
      ensures claimed != map[] ==> old(claimed) != map[] || troubles > old(troubles) || IsBlocked(Now())
    {
      hide Later, IsRun, NoneQueued, IsQueued, IsBlocked, Listing, Enabled, Apply, ComesFirst, Answered, InOrder, Ascending;
      LaterItself(Now());
      if claimed.Keys != {} {
        ReleasedAreAnswered(run, Now());
        return false;
      }
      var names := SortedNames(queued);
      ListingAscends(names, queued);
      BeginScan(names);
      label Listed:
      var finished;
      finished, raised := ProcessListing(names);
      LaterTransitive(old(Now()), old@Listed(Now()), Now());
      if finished {
        NothingIsClaimed(run);
        AllHandled(run, |old@Listed(run)| - 1, names);
        SameQueue(old(Now()), old@Listed(Now()));
        label Done:
        EndScan();
        OrderStays(old@Done(Now()), Now(), |old(log)|, names);
        LaterTransitive(old(Now()), old@Done(Now()), Now());
      }
      ReleasedAreAnswered(run, Now());
      OrderMeans(Now(), |old(log)|, names);
    }
  }

  // A response can be filed under the id of the request, or under the name of its file.
  ghost predicate CanBeFiled(r: Request) {
    IsToken(if r.readable && r.id.Named? then r.id.id else r.name)
  }

  // The claim that stands is of a request whose response cannot be filed.
  ghost predicate IsBlocked(s: State) {
    && s.claimed != map[]
    && forall n :: n in s.claimed ==> s.claimed[n] < |s.requests| && !CanBeFiled(s.requests[s.claimed[n]])
  }

  lemma ReleasedAreAnswered(run: seq<State>, s: State)
    requires IsRun(run) && s == run[|run| - 1]
    ensures forall f :: f in s.released ==> Answered(s, f)
  {
    RunKeepsInv(run, |run| - 1);
    hide IsRun, IsToken;
  }

  lemma ListingAscends(names: seq<string>, directory: map<string, nat>)
    requires Listing(names, directory)
    ensures Ascending(names)
  {
  }

  lemma OrderMeans(s: State, n: nat, names: seq<string>)
    requires InOrder(s, n, names)
    ensures forall k, l :: n <= k < l < |s.log| ==> NamesInOrder(s.requests, s.log[k], s.log[l])
  {
  }

  lemma OrderStays(s: State, t: State, n: nat, names: seq<string>)
    requires InOrder(s, n, names) && s.log == t.log && s.requests == t.requests
    ensures InOrder(t, n, names)
  {
  }

  // From s to t at most one request was dispatched, and that is of the name.
  ghost predicate AddsOf(s: State, t: State, name: string) {
    t.log == s.log || (|t.log| == |s.log| + 1 && s.log <= t.log && IsOf(t, t.log[|s.log|], name))
  }

  ghost predicate NamesInOrder(requests: seq<Request>, f: nat, g: nat) {
    f < |requests| && g < |requests| && ComesFirst(requests[f].name, requests[g].name)
  }

  ghost predicate IsOf(s: State, f: nat, name: string) {
    f < |s.requests| && s.requests[f].name == name
  }

  // The requests dispatched from the n-th dispatch on bear names of the list, in order.
  ghost predicate InOrder(s: State, n: nat, names: seq<string>) {
    && n <= |s.log|
    && (forall k :: n <= k < |s.log| ==> s.log[k] < |s.requests| && s.requests[s.log[k]].name in names)
    && forall k, l :: n <= k < l < |s.log| ==> NamesInOrder(s.requests, s.log[k], s.log[l])
  }

  lemma OrderBegins(s: State, names: seq<string>)
    ensures InOrder(s, |s.log|, names[..0])
  {
  }

  lemma OrderGoesOn(s: State, t: State, n: nat, names: seq<string>, i: nat)
    requires i < |names| && Later(s, t) && AddsOf(s, t, names[i])
    ensures Ascending(names) && InOrder(s, n, names[..i]) ==> InOrder(t, n, names[..i + 1]) && InOrder(t, n, names)
  {
    hide ComesFirst;
    if Ascending(names) && InOrder(s, n, names[..i]) {
      assert s.requests <= t.requests && s.log <= t.log;
      forall k | n <= k < |t.log| ensures t.log[k] < |t.requests| && t.requests[t.log[k]].name in names[..i + 1] {
        if k < |s.log| {
          assert t.log[k] == s.log[k] && s.requests[s.log[k]].name in names[..i];
        }
      }
      forall k, l | n <= k < l < |t.log| ensures NamesInOrder(t.requests, t.log[k], t.log[l]) {
        assert t.log[k] == s.log[k] && s.requests[s.log[k]].name in names[..i];
      }
    }
  }

  // What no step undoes, and what no step brings back into the queue.
  ghost predicate Later(s: State, t: State) {
    && s.requests <= t.requests && s.log <= t.log
    && s.released <= t.released && s.withdrawn <= t.withdrawn && s.discarded <= t.discarded
    && forall f: nat :: f < |s.requests| && IsQueued(t, f) ==> IsQueued(s, f)
  }

  lemma LaterItself(s: State)
    ensures Later(s, s)
  {
  }

  lemma LaterTransitive(s: State, t: State, u: State)
    requires Later(s, t) && Later(t, u)
    ensures Later(s, u)
  {
  }

  lemma LaterRequests(s: State, t: State)
    requires Later(s, t)
    ensures s.requests <= t.requests
  {
  }

  lemma SameQueue(s: State, t: State)
    requires s.queued == t.queued && s.requests == t.requests
    ensures forall f: nat :: f < |s.requests| ==> (IsQueued(s, f) <==> IsQueued(t, f))
  {
  }

  // Of the requests there were at s, none that bears one of the names is queued at t.
  ghost predicate NoneQueued(s: State, t: State, names: seq<string>) {
    forall f: nat :: f < |s.requests| && s.requests[f].name in names ==> f < |t.requests| && !IsQueued(t, f)
  }

  lemma StaysOut(s: State, t: State, u: State, name: string)
    requires Later(s, t) && Later(t, u) && name !in t.queued
    ensures NoneQueued(s, u, [name])
  {
  }

  lemma NoneYet(s: State, t: State)
    ensures NoneQueued(s, t, [])
  {
  }

  lemma NoneOfOneMore(s: State, t: State, u: State, names: seq<string>, name: string)
    requires NoneQueued(s, t, names) && Later(s, t) && Later(t, u) && NoneQueued(t, u, [name])
    ensures NoneQueued(s, u, names + [name])
  {
  }

  // Nothing that was listed is left over once the whole listing has been gone through.
  lemma AllHandled(run: seq<State>, k: nat, names: seq<string>)
    requires IsRun(run) && k < |run| && Listing(names, run[k].queued)
    requires var s, t := run[k], run[|run| - 1];
      NoneQueued(s, t, names) && Later(s, t) && t.claimed == map[] && t.discarded == s.discarded
    ensures var s, t := run[k], run[|run| - 1];
      forall f: nat :: f < |s.requests| && IsQueued(s, f) ==> f in t.released || f in t.withdrawn
  {
    var s, t := run[k], run[|run| - 1];
    RunKeepsInv(run, |run| - 1);
    RunKeepsInv(run, k);
    hide IsRun;
    forall f: nat | f < |s.requests| && IsQueued(s, f) ensures f in t.released || f in t.withdrawn {
      assert Fates(s, f) == 1 && Fates(t, f) == 1;
    }
  }

  lemma StepIsLater(s: State, a: Action)
    requires Inv(s) && Enabled(s, a)
    ensures Later(s, Apply(s, a))
  {
    hide LogIsSound, OutcomesAreSound, ResponsesAreSound, Listing, OneFate, OneClaim;
  }

  ghost predicate SameWork(s: State, t: State) {
    && t.claimed == s.claimed && t.responses == s.responses && t.place == s.place && t.log == s.log
    && t.outcomes == s.outcomes && t.released == s.released && t.discarded == s.discarded
  }

  ghost predicate SameClaim(s: State, t: State) {
    t.claimed == s.claimed && t.responses == s.responses && t.released == s.released && t.discarded == s.discarded
  }

  lemma NothingIsClaimed(run: seq<State>)
    requires IsRun(run) && run[|run| - 1].place.Scanning?
    ensures run[|run| - 1].claimed == map[]
  {
    RunKeepsInv(run, |run| - 1);
  }

  lemma RequestsInRange(run: seq<State>, name: string)
    requires IsRun(run) && name in run[|run| - 1].queued
    ensures run[|run| - 1].queued[name] < |run[|run| - 1].requests|
    ensures run[|run| - 1].requests[run[|run| - 1].queued[name]].name == name
  {
    RunKeepsInv(run, |run| - 1);
  }
}
