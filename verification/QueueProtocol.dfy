// The file queue between an agent and the bridge, one step at a time: requests are
// claimed, dispatched, answered and released by renames and deletions, and the
// process may stop between any two of them.
module QueueProtocol {
  import opened TextOrder

  // A request file; id is what the request calls itself, if it can be read at all.
  datatype Request = Request(name: string, readable: bool, id: Id)

  datatype Id = Named(id: string) | Unnamed

  // The body of a response: what dispatching gave, or the error instead of it.
  datatype Outcome = Result(value: string) | Failure(message: string)

  datatype Response = Response(request: nat, body: Outcome)

  // Where the one callback of the timer stands. The list is what is left of the
  // names it found in the queue.
  datatype Place =
    | Down
    | Idle
    | Scanning(rest: seq<string>)
    | Claimed(request: nat, rest: seq<string>)
    | Dispatching(request: nat, rest: seq<string>)
    | Dispatched(request: nat, rest: seq<string>)
    | Written(request: nat, rest: seq<string>)
    | Responded(request: nat, rest: seq<string>)

  // The three directories, the place of the callback, and a record of what has
  // happened: a request is known by the position at which it arrived.
  datatype State = State(
    queued: map<string, nat>,
    claimed: map<string, nat>,
    responses: map<string, Response>,
    place: Place,
    requests: seq<Request>,
    log: seq<nat>,
    outcomes: map<nat, Outcome>,
    released: set<nat>,
    withdrawn: set<nat>,
    discarded: set<nat>)

  datatype Action =
    // the bridge
    | Start
    | Tick(names: seq<string>)
    | FinishScan
    | ClaimNext
    | ClaimFails
    | BeginDispatch
    | Unreadable(error: Outcome)
    | EndDispatch(outcome: Outcome)
    | WriteTemporary
    | PersistenceFails
    | Publish
    | Release
    | ReleaseFails
    | Crash
    // the agent and the operator
    | Enqueue(request: Request)
    | Withdraw(name: string)
    | Discard(name: string)

  const EMPTY := State(map[], map[], map[], Down, [], [], map[], {}, {}, {})

  // A response is filed under the id of the request, or under the name of its file.
  function ResponseId(r: Request): string {
    if r.readable && r.id.Named? then r.id.id else r.name
  }

  // Names that a response file may bear: a letter or digit, and then up to 200 letters,
  // digits, dots, dashes and underscores.
  predicate IsToken(t: string) {
    1 <= |t| <= 201 && IsAlphanumeric(t[0]) && forall i :: 0 <= i < |t| ==> IsAlphanumeric(t[i]) || t[i] in "._-"
  }

  predicate IsAlphanumeric(c: char) {
    '0' <= c <= '9' || 'A' <= c <= 'Z' || 'a' <= c <= 'z'
  }

  // A letter or digit in front, at most two hundred more characters behind it, each a
  // letter, a digit, a dot, a hyphen or an underscore. No token leaves its directory.
  lemma TokenMeans(t: string)
    ensures IsToken(t) <==>
            && 0 < |t| < 202 && t[0] != '.' && t[0] != '-' && t[0] != '_'
            && forall c :: c in t ==> var n := c as int;
               48 <= n < 58 || 65 <= n < 91 || 97 <= n < 123 || c == '.' || c == '-' || c == '_'
    ensures IsToken(t) ==> '/' !in t && '\\' !in t
  {
    assert "._-"[0] == '.' && "._-"[1] == '_' && "._-"[2] == '-';
    assert forall i :: 0 <= i < |t| ==> t[i] in t;
  }

  // What listing the queue directory gives: every name in it once, in order.
  ghost predicate Listing(names: seq<string>, queued: map<string, nat>) {
    && (forall n :: n in queued ==> n in names) && (forall n :: n in names ==> n in queued)
    && Ascending(names)
  }

  ghost predicate Ascending(names: seq<string>) {
    forall i, j :: 0 <= i < j < |names| ==> names[i] != names[j] && ComesFirst(names[i], names[j])
  }

  ghost predicate AtRest(p: Place) {
    p.Down? || p.Idle?
  }

  // The places at which a request is in hand.
  ghost predicate InHand(p: Place) {
    p.Claimed? || p.Dispatching? || p.Dispatched? || p.Written? || p.Responded?
  }

  ghost predicate Enabled(s: State, a: Action) {
    match a
    case Start => s.place.Down?
    case Tick(names) => (s.place.Idle? || s.place.Dispatching?) && Listing(names, s.queued)
    case FinishScan => s.place.Scanning? && s.place.rest == []
    case ClaimNext => s.place.Scanning? && s.place.rest != []
    case ClaimFails => s.place.Scanning? && s.place.rest != []
    case BeginDispatch => s.place.Claimed? && s.place.request < |s.requests| && s.requests[s.place.request].readable
    case Unreadable(error) => s.place.Claimed? && error.Failure? && s.place.request < |s.requests|
      && !s.requests[s.place.request].readable
    case EndDispatch(_) => s.place.Dispatching?
    case WriteTemporary =>
      s.place.Dispatched? && s.place.request < |s.requests| && IsToken(ResponseId(s.requests[s.place.request]))
    case PersistenceFails => s.place.Dispatched? || s.place.Written?
    case Publish => s.place.Written? && s.place.request < |s.requests| && s.place.request in s.outcomes
    case Release => s.place.Responded? && s.place.request < |s.requests|
    case ReleaseFails => s.place.Responded?
    case Crash => true
    case Enqueue(r) => r.name !in s.queued
    case Withdraw(n) => n in s.queued
    case Discard(n) => AtRest(s.place) && n in s.claimed
  }

  ghost function Apply(s: State, a: Action): State
    requires Enabled(s, a)
  {
    match a
    case Start => s.(place := Idle)
    case Tick(names) => if s.claimed.Keys != {} then s else s.(place := Scanning(names))
    case FinishScan => s.(place := Idle)
    case ClaimNext =>
      var name, rest := s.place.rest[0], s.place.rest[1..];
      if name in s.claimed then s.(place := Idle)
      else if name in s.queued then
        s.(queued := s.queued - {name}, claimed := s.claimed[name := s.queued[name]],
          place := Claimed(s.queued[name], rest))
      else s.(place := Scanning(rest))
    case ClaimFails => s.(place := Idle)
    case BeginDispatch => s.(log := s.log + [s.place.request], place := Dispatching(s.place.request, s.place.rest))
    case Unreadable(error) =>
      s.(outcomes := s.outcomes[s.place.request := error], place := Dispatched(s.place.request, s.place.rest))
    case EndDispatch(outcome) =>
      s.(outcomes := s.outcomes[s.place.request := outcome], place := Dispatched(s.place.request, s.place.rest))
    case WriteTemporary => s.(place := Written(s.place.request, s.place.rest))
    case PersistenceFails => s.(place := Idle)
    case Publish =>
      var f := s.place.request;
      s.(responses := s.responses[ResponseId(s.requests[f]) := Response(f, s.outcomes[f])],
        place := Responded(f, s.place.rest))
    case Release =>
      var f := s.place.request;
      s.(claimed := s.claimed - {s.requests[f].name}, released := s.released + {f}, place := Scanning(s.place.rest))
    case ReleaseFails => s.(place := Idle)
    case Crash => s.(place := Down)
    case Enqueue(r) => s.(queued := s.queued[r.name := |s.requests|], requests := s.requests + [r])
    case Withdraw(n) => s.(queued := s.queued - {n}, withdrawn := s.withdrawn + {s.queued[n]})
    case Discard(n) => s.(claimed := s.claimed - {n}, discarded := s.discarded + {s.claimed[n]})
  }

  ghost predicate Next(s: State, t: State) {
    exists a :: Enabled(s, a) && t == Apply(s, a)
  }

  ghost predicate StepsAt(run: seq<State>, i: nat)
    requires i + 1 < |run|
  {
    Next(run[i], run[i + 1])
  }

  // Any number of steps from the empty directories, the process not running.
  ghost predicate IsRun(run: seq<State>) {
    run != [] && run[0] == EMPTY && forall i {:trigger StepsAt(run, i)} :: 0 <= i < |run| - 1 ==> StepsAt(run, i)
  }

  // The invariant ---------------------------------------------------------------

  ghost predicate IsQueued(s: State, f: nat) requires f < |s.requests| {
    s.requests[f].name in s.queued && s.queued[s.requests[f].name] == f
  }

  ghost predicate IsClaimed(s: State, f: nat) requires f < |s.requests| {
    s.requests[f].name in s.claimed && s.claimed[s.requests[f].name] == f
  }

  ghost function Fates(s: State, f: nat): nat requires f < |s.requests| {
    (if IsQueued(s, f) then 1 else 0) + (if IsClaimed(s, f) then 1 else 0) + (if f in s.released then 1 else 0)
    + (if f in s.withdrawn then 1 else 0) + (if f in s.discarded then 1 else 0)
  }

  // Files in the directories are requests, filed under their names.
  ghost predicate FilesAreRequests(s: State) {
    && (forall n :: n in s.queued ==> s.queued[n] < |s.requests| && s.requests[s.queued[n]].name == n)
    && (forall n :: n in s.claimed ==> s.claimed[n] < |s.requests| && s.requests[s.claimed[n]].name == n)
  }

  // Every request is in exactly one place.
  ghost predicate OneFate(s: State) {
    forall f: nat :: f < |s.requests| ==> Fates(s, f) == 1
  }

  // At most one claim, and it is of the request in hand whenever there is one.
  ghost predicate OneClaim(s: State) {
    && (forall m, n :: m in s.claimed && n in s.claimed ==> m == n)
    && (s.place.Scanning? ==> s.claimed == map[])
    && (InHand(s.place) ==> s.place.request < |s.requests| && IsClaimed(s, s.place.request))
  }

  // What has been dispatched was claimed first, once, and was readable.
  ghost predicate LogIsSound(s: State) {
    && (forall i :: 0 <= i < |s.log| ==>
          && s.log[i] < |s.requests| && s.requests[s.log[i]].readable
          && !IsQueued(s, s.log[i]) && s.log[i] !in s.withdrawn)
    && (forall i, j :: 0 <= i < j < |s.log| ==> s.log[i] != s.log[j])
    && (s.place.Claimed? ==> s.place.request !in s.log)
    && (s.place.Dispatching? ==> s.place.request in s.log)
  }

  ghost predicate OutcomesAreSound(s: State) {
    && (forall f :: f in s.outcomes ==>
          && f < |s.requests| && !IsQueued(s, f) && f !in s.withdrawn
          && (s.requests[f].readable ==> f in s.log))
    && (s.place.Claimed? || s.place.Dispatching? ==> s.place.request !in s.outcomes)
    && (s.place.Dispatched? || s.place.Written? || s.place.Responded? ==> s.place.request in s.outcomes)
  }

  ghost predicate Reports(s: State, id: string, r: Response) {
    && r.request < |s.requests| && ResponseId(s.requests[r.request]) == id && IsToken(id)
    && r.request in s.outcomes && s.outcomes[r.request] == r.body
  }

  // Responses say what became of the request they answer.
  ghost predicate ResponsesAreSound(s: State) {
    && (forall id :: id in s.responses ==> Reports(s, id, s.responses[id]))
    && (forall f :: f in s.released ==> f < |s.requests| && f in s.outcomes && ResponseId(s.requests[f]) in s.responses)
    && (s.place.Responded? ==> s.place.request < |s.requests| && ResponseId(s.requests[s.place.request]) in s.responses)
    && (s.place.Written? ==> s.place.request < |s.requests| && IsToken(ResponseId(s.requests[s.place.request])))
    && (forall f :: f in s.withdrawn ==> f < |s.requests|) && (forall f :: f in s.discarded ==> f < |s.requests|)
  }

  ghost predicate Inv(s: State) {
    FilesAreRequests(s) && OneFate(s) && OneClaim(s) && LogIsSound(s) && OutcomesAreSound(s) && ResponsesAreSound(s)
  }

  // The callback moves on without touching a file.
  ghost predicate MovesOn(p: Place, q: Place) {
    AtRest(q) || (p.Scanning? && q.Scanning?)
  }

  ghost predicate SameFiles(s: State, t: State) {
    && t.queued == s.queued && t.claimed == s.claimed && t.requests == s.requests
    && t.released == s.released && t.withdrawn == s.withdrawn && t.discarded == s.discarded
  }

  lemma FilesStay(s: State, t: State)
    requires FilesAreRequests(s) && OneFate(s) && SameFiles(s, t)
    ensures FilesAreRequests(t) && OneFate(t)
  {
    forall f: nat | f < |s.requests| ensures Fates(t, f) == 1 {
      assert Fates(s, f) == 1;
    }
  }

  lemma MovingOn(s: State, q: Place)
    requires Inv(s)
    requires MovesOn(s.place, q) || (q.Scanning? && s.claimed == map[])
             || (Enabled(s, WriteTemporary) && q == Written(s.place.request, s.place.rest))
    ensures Inv(s.(place := q))
  {
    FilesStay(s, s.(place := q));
    hide FilesAreRequests, OneFate;
  }

  lemma Claiming(s: State)
    requires Inv(s) && s.place.Scanning? && s.place.rest != [] && s.place.rest[0] !in s.claimed
    requires s.place.rest[0] in s.queued
    ensures Inv(Apply(s, ClaimNext))
  {
    var t, c := Apply(s, ClaimNext), s.queued[s.place.rest[0]];
    assert IsQueued(s, c);
    forall f: nat | f < |s.requests| ensures Fates(t, f) == 1 && (IsQueued(t, f) ==> IsQueued(s, f)) {
      assert Fates(s, f) == 1;
    }
  }

  lemma WorkingResponses(s: State, a: Action)
    requires ResponsesAreSound(s) && OutcomesAreSound(s) && Enabled(s, a)
    requires (a.BeginDispatch? || a.Unreadable? || a.EndDispatch?)
    ensures ResponsesAreSound(Apply(s, a))
  {
  }

  lemma WorkingLog(s: State, a: Action)
    requires OneClaim(s) && LogIsSound(s) && OutcomesAreSound(s) && Enabled(s, a)
    requires (a.BeginDispatch? || a.Unreadable? || a.EndDispatch?)
    requires !IsQueued(s, s.place.request) && s.place.request !in s.withdrawn
    ensures LogIsSound(Apply(s, a)) && OutcomesAreSound(Apply(s, a)) && OneClaim(Apply(s, a))
  {
  }

  lemma Working(s: State, a: Action)
    requires Inv(s) && Enabled(s, a) && (a.BeginDispatch? || a.Unreadable? || a.EndDispatch?)
    ensures Inv(Apply(s, a))
  {
    FilesStay(s, Apply(s, a));
    assert Fates(s, s.place.request) == 1;
    WorkingResponses(s, a);
    WorkingLog(s, a);
    hide FilesAreRequests, OneFate, Fates, ResponsesAreSound, OutcomesAreSound, LogIsSound, OneClaim;
  }

  lemma PublishingResponses(s: State)
    requires ResponsesAreSound(s) && OutcomesAreSound(s) && Enabled(s, Publish)
    ensures ResponsesAreSound(Apply(s, Publish))
  {
  }

  lemma Publishing(s: State)
    requires Inv(s) && Enabled(s, Publish)
    ensures Inv(Apply(s, Publish))
  {
    FilesStay(s, Apply(s, Publish));
    PublishingResponses(s);
    hide FilesAreRequests, OneFate, Fates, ResponsesAreSound, ResponseId;
  }

  lemma ReleasingFates(s: State)
    requires FilesAreRequests(s) && OneFate(s) && OneClaim(s) && Enabled(s, Release)
    ensures OneFate(Apply(s, Release)) && OneClaim(Apply(s, Release)) && FilesAreRequests(Apply(s, Release))
  {
    var t := Apply(s, Release);
    forall f: nat | f < |s.requests| ensures Fates(t, f) == 1 {
      assert Fates(s, f) == 1;
    }
  }

  lemma ReleasingResponses(s: State)
    requires ResponsesAreSound(s) && OutcomesAreSound(s) && Enabled(s, Release)
    ensures ResponsesAreSound(Apply(s, Release))
  {
    hide ResponseId, IsToken, IsQueued;
  }

  lemma Releasing(s: State)
    requires Inv(s) && Enabled(s, Release)
    ensures Inv(Apply(s, Release))
  {
    hide FilesAreRequests, OneFate, OneClaim, ResponsesAreSound;
    ReleasingFates(s);
    ReleasingResponses(s);
  }

  lemma ArrivingFates(s: State, r: Request, t: State)
    requires FilesAreRequests(s) && OneFate(s) && OneClaim(s) && ResponsesAreSound(s) && r.name !in s.queued
    requires t == s.(queued := s.queued[r.name := |s.requests|], requests := s.requests + [r])
    ensures OneFate(t) && FilesAreRequests(t) && OneClaim(t)
    ensures forall f: nat :: f < |s.requests| && IsQueued(t, f) ==> IsQueued(s, f)
  {
    var n := |s.requests|;
    forall f: nat | f < n ensures Fates(t, f) == 1 {
      assert Fates(s, f) == 1;
    }
    assert n !in s.released && n !in s.withdrawn && n !in s.discarded;
    hide ResponsesAreSound;
    assert Fates(t, n) == 1;
  }

  lemma ArrivingResponses(s: State, r: Request, t: State)
    requires ResponsesAreSound(s) && t == s.(queued := s.queued[r.name := |s.requests|], requests := s.requests + [r])
    ensures ResponsesAreSound(t)
  {
  }

  lemma Arriving(s: State, r: Request)
    requires Inv(s) && Enabled(s, Enqueue(r))
    ensures Inv(Apply(s, Enqueue(r)))
  {
    var t := s.(queued := s.queued[r.name := |s.requests|], requests := s.requests + [r]);
    assert t == Apply(s, Enqueue(r));
    hide Apply, Enabled;
    ArrivingFates(s, r, t);
    ArrivingResponses(s, r, t);
    hide FilesAreRequests, OneFate, OneClaim, ResponsesAreSound, IsQueued;
  }

  lemma Withdrawing(s: State, n: string)
    requires Inv(s) && Enabled(s, Withdraw(n))
    ensures Inv(Apply(s, Withdraw(n)))
  {
    var t := Apply(s, Withdraw(n));
    forall f: nat | f < |s.requests| ensures Fates(t, f) == 1 && (IsQueued(t, f) ==> IsQueued(s, f)) {
      assert Fates(s, f) == 1;
    }
    assert IsQueued(s, s.queued[n]);
  }

  lemma Discarding(s: State, n: string)
    requires Inv(s) && Enabled(s, Discard(n))
    ensures Inv(Apply(s, Discard(n)))
  {
    var t := Apply(s, Discard(n));
    forall f: nat | f < |s.requests| ensures Fates(t, f) == 1 {
      assert Fates(s, f) == 1;
    }
  }

  lemma StepKeepsInv(s: State, a: Action)
    requires Inv(s) && Enabled(s, a)
    ensures Inv(Apply(s, a))
  {
    var t := Apply(s, a);
    match a
    case BeginDispatch => Working(s, a);
    case Unreadable(_) => Working(s, a);
    case EndDispatch(_) => Working(s, a);
    case Publish => Publishing(s);
    case Release => Releasing(s);
    case Enqueue(r) => Arriving(s, r);
    case Withdraw(n) => Withdrawing(s, n);
    case Discard(n) => Discarding(s, n);
    case ClaimNext =>
      if s.place.rest[0] !in s.claimed && s.place.rest[0] in s.queued {
        Claiming(s);
      } else {
        MovingOn(s, t.place);
      }
    case Tick(_) =>
      if s.claimed.Keys == {} {
        MovingOn(s, t.place);
      }
    case _ => MovingOn(s, t.place);
  }

  lemma PartOfRun(run: seq<State>, k: nat)
    requires IsRun(run) && 0 < k <= |run|
    ensures IsRun(run[..k])
  {
    forall i | 0 <= i < k - 1 ensures StepsAt(run[..k], i) {
      assert StepsAt(run, i);
    }
  }

  lemma NextAt(run: seq<State>, i: nat)
    requires IsRun(run) && i + 1 < |run|
    ensures Next(run[i], run[i + 1])
  {
    assert StepsAt(run, i);
  }

  lemma {:induction false} RunKeepsInv(run: seq<State>, i: nat)
    requires IsRun(run) && i < |run|
    ensures Inv(run[i])
  {
    hide Enabled, Apply;
    if i == 0 {
      InvInitially();
    } else {
      RunKeepsInv(run, i - 1);
      NextAt(run, i - 1);
      hide Inv, IsRun;
      var a :| Enabled(run[i - 1], a) && run[i] == Apply(run[i - 1], a);
      StepKeepsInv(run[i - 1], a);
    }
  }

  lemma InvInitially()
    ensures Inv(EMPTY)
  {
  }

  // What every run keeps --------------------------------------------------------

  // Each request is queued or claimed under its name, answered and released, withdrawn
  // or discarded: always exactly one of these.
  lemma ExactlyOneFate(run: seq<State>, i: nat, f: nat)
    requires IsRun(run) && i < |run| && f < |run[i].requests|
    ensures var s, name := run[i], run[i].requests[f].name;
      var queued, claimed := (name, f) in s.queued.Items, (name, f) in s.claimed.Items;
      var released, withdrawn, discarded := f in s.released, f in s.withdrawn, f in s.discarded;
      && (queued || claimed || released || withdrawn || discarded)
      && (queued ==> !claimed && !released && !withdrawn && !discarded)
      && (claimed ==> !released && !withdrawn && !discarded)
      && (released ==> !withdrawn && !discarded) && (withdrawn ==> !discarded)
  {
    RunKeepsInv(run, i);
    assert Fates(run[i], f) == 1;
    hide IsRun;
  }

  lemma DispatchedAtMostOnce(run: seq<State>, i: nat, f: nat)
    requires IsRun(run) && i < |run|
    ensures multiset(run[i].log)[f] <= 1
  {
    RunKeepsInv(run, i);
    hide IsRun;
    CountDistinct(run[i].log, f);
  }

  lemma {:induction false} CountDistinct(log: seq<nat>, f: nat)
    requires forall i, j :: 0 <= i < j < |log| ==> log[i] != log[j]
    ensures multiset(log)[f] <= 1
  {
    if log != [] {
      var n := |log| - 1;
      assert log == log[..n] + [log[n]];
      CountDistinct(log[..n], f);
    }
  }

  lemma AtMostOneClaim(run: seq<State>, i: nat)
    requires IsRun(run) && i < |run|
    ensures |run[i].claimed| <= 1
  {
    RunKeepsInv(run, i);
    hide IsRun;
    var claimed := run[i].claimed;
    if claimed.Keys != {} {
      var n :| n in claimed.Keys;
      assert claimed.Keys == {n};
    }
  }

  lemma StepAt(run: seq<State>, i: nat) returns (a: Action)
    requires IsRun(run) && i + 1 < |run|
    ensures Inv(run[i]) && Enabled(run[i], a) && run[i + 1] == Apply(run[i], a)
  {
    RunKeepsInv(run, i);
    NextAt(run, i);
    hide Enabled, Apply, Inv, IsRun;
    a :| Enabled(run[i], a) && run[i + 1] == Apply(run[i], a);
  }

  lemma ClaimStep(s: State, a: Action, f: nat)
    requires FilesAreRequests(s) && OneClaim(s) && OutcomesAreSound(s) && ResponsesAreSound(s) && Enabled(s, a)
    requires f < |s.requests| && IsClaimed(s, f)
    ensures f < |Apply(s, a).requests| && Apply(s, a).requests[f] == s.requests[f]
    ensures IsClaimed(Apply(s, a), f) || (a.Discard? && f in Apply(s, a).discarded)
            || (a.Release? && s.place.request == f && f in Apply(s, a).released)
    ensures a.Release? && s.place.request == f ==> f in s.outcomes && ResponseId(s.requests[f]) in s.responses
  {
    hide ResponseId, IsToken;
  }

  // A claim goes away only when its response is in place, or by the operator's hand.
  lemma ClaimOutlastsTheResponse(run: seq<State>, i: nat, f: nat)
    requires IsRun(run) && i + 1 < |run| && f < |run[i].requests| && IsClaimed(run[i], f)
    ensures f < |run[i + 1].requests|
    ensures IsClaimed(run[i + 1], f) || f in run[i + 1].discarded || (f in run[i + 1].released && Answered(run[i], f))
  {
    var a := StepAt(run, i);
    hide IsRun, OneFate, LogIsSound, Apply, Enabled;
    ClaimStep(run[i], a, f);
  }

  ghost predicate IsNamed(r: Request) {
    r.readable && r.id.Named?
  }

  // There is a response under the id that a readable request gave itself, or under the
  // name of the file of a request that gave none or could not be read.
  ghost predicate Answered(s: State, f: nat) {
    && f < |s.requests| && f in s.outcomes
    && (s.requests[f].readable && s.requests[f].id.Named? ==> s.requests[f].id.id in s.responses)
    && (!s.requests[f].readable || s.requests[f].id.Unnamed? ==> s.requests[f].name in s.responses)
  }

  lemma DispatchStep(s: State, a: Action)
    requires OneClaim(s) && LogIsSound(s) && Enabled(s, a) && Apply(s, a).log != s.log
    ensures InHand(s.place) && s.place.request < |s.requests|
    ensures s.claimed == map[s.requests[s.place.request].name := s.place.request]
    ensures s.place.request !in s.log && Apply(s, a).log == s.log + [s.place.request]
  {
  }

  // A request is dispatched while it is the only claim there is, for the first time.
  lemma DispatchIsOfTheOnlyClaim(run: seq<State>, i: nat)
    requires IsRun(run) && i + 1 < |run| && run[i + 1].log != run[i].log
    ensures exists f: nat :: f < |run[i].requests| && run[i].claimed == map[run[i].requests[f].name := f]
                             && f !in run[i].log && run[i + 1].log == run[i].log + [f]
  {
    var a := StepAt(run, i);
    hide IsRun, OneFate, OutcomesAreSound, ResponsesAreSound, Apply, Enabled;
    DispatchStep(run[i], a);
  }

  // The claim of f is retained and nobody works on it.
  ghost predicate Retained(s: State, f: nat) {
    AtRest(s.place) && f < |s.requests| && IsClaimed(s, f)
  }

  lemma DiscardedStays(s: State, a: Action, f: nat)
    requires Enabled(s, a) && f in s.discarded
    ensures f in Apply(s, a).discarded
  {
  }

  lemma ResponsesRest(s: State, a: Action)
    requires Enabled(s, a) && AtRest(s.place)
    ensures Apply(s, a).log == s.log && Apply(s, a).responses == s.responses && Apply(s, a).released == s.released
    ensures AtRest(Apply(s, a).place) || s.claimed.Keys == {}
  {
  }

  lemma ClaimRests(s: State, a: Action, f: nat)
    requires Enabled(s, a) && AtRest(s.place) && f < |s.requests| && IsClaimed(s, f) && f !in Apply(s, a).discarded
    ensures f < |Apply(s, a).requests| && IsClaimed(Apply(s, a), f)
  {
  }

  lemma RestingStep(run: seq<State>, k: nat, f: nat)
    requires IsRun(run) && k + 1 < |run| && f !in run[k + 1].discarded
    ensures f !in run[k].discarded
    ensures Retained(run[k], f) ==>
      Retained(run[k + 1], f) && run[k + 1].log == run[k].log && run[k + 1].responses == run[k].responses
        && run[k + 1].released == run[k].released
  {
    var s := run[k];
    var a := StepAt(run, k);
    hide IsRun, Inv, Enabled, Apply;
    if f in s.discarded {
      DiscardedStays(s, a, f);
    }
    if Retained(s, f) {
      assert s.requests[f].name in s.claimed.Keys;
      ResponsesRest(s, a);
      ClaimRests(s, a, f);
    }
  }

  // A claim nobody works on stops the queue: nothing is dispatched and nothing is
  // answered until the operator has discarded it.
  lemma {:induction false} RetainedClaimStopsTheQueue(run: seq<State>, i: nat, j: nat, f: nat)
    requires IsRun(run) && i <= j < |run| && Retained(run[i], f) && f !in run[j].discarded
    ensures Retained(run[j], f)
    ensures run[j].log == run[i].log && run[j].responses == run[i].responses && run[j].released == run[i].released
    decreases j - i
  {
    hide IsRun, Retained;
    if i < j {
      RestingStep(run, j - 1, f);
      RetainedClaimStopsTheQueue(run, i, j - 1, f);
    }
  }

  // No two requests are answered under the same name: not by the ids they gave, nor by
  // the names of the files of those that gave none.
  ghost predicate DistinctIds(requests: seq<Request>) {
    forall f, g :: 0 <= f < |requests| && 0 <= g < |requests| && f != g ==> Apart(requests[f], requests[g])
  }

  ghost predicate Apart(r: Request, q: Request) {
    if IsNamed(r) then r.id.id != (if IsNamed(q) then q.id.id else q.name)
    else IsNamed(q) || r.name != q.name
  }

  lemma DistinctResponses(requests: seq<Request>, f: nat, g: nat)
    requires DistinctIds(requests) && f < |requests| && g < |requests|
    ensures ResponseId(requests[f]) == ResponseId(requests[g]) ==> f == g
  {
  }

  // A released request is answered by the response that bears its id: it says what
  // became of the one dispatch of that request, or that it could not be read.
  lemma ReleasedIsAnswered(run: seq<State>, i: nat, f: nat)
    requires IsRun(run) && i < |run| && DistinctIds(run[i].requests) && f in run[i].released
    ensures f < |run[i].requests| && f in run[i].outcomes
    ensures var r, responses := run[i].requests[f], run[i].responses;
      && (r.readable && r.id.Named? ==>
            r.id.id in responses && responses[r.id.id] == Response(f, run[i].outcomes[f]) && IsToken(r.id.id))
      && (!r.readable || r.id.Unnamed? ==>
            r.name in responses && responses[r.name] == Response(f, run[i].outcomes[f]) && IsToken(r.name))
    ensures multiset(run[i].log)[f] == if run[i].requests[f].readable then 1 else 0
  {
    RunKeepsInv(run, i);
    DispatchedAtMostOnce(run, i, f);
    hide IsRun, OneFate, FilesAreRequests, OneClaim;
    var s := run[i];
    var r := s.responses[ResponseId(s.requests[f])];
    assert Reports(s, ResponseId(s.requests[f]), r);
    hide IsToken;
    DistinctResponses(s.requests, f, r.request);
  }

  // The claim never meets a file of its name: what would refuse a replay is not reached.
  lemma ReplayIsNeverMet(run: seq<State>, i: nat)
    requires IsRun(run) && i < |run| && run[i].place.Scanning? && run[i].place.rest != []
    ensures run[i].place.rest[0] !in run[i].claimed
  {
    RunKeepsInv(run, i);
  }

  // A timer that fires while a request is being dispatched does nothing.
  lemma NestedTickDoesNothing(run: seq<State>, i: nat, names: seq<string>)
    requires IsRun(run) && i < |run| && run[i].place.Dispatching? && Listing(names, run[i].queued)
    ensures Apply(run[i], Tick(names)) == run[i]
  {
    RunKeepsInv(run, i);
  }

  // The bridge may stop after any step and be started again; a claim that stood is then
  // retained, so that nothing of it is dispatched a second time.
  lemma StoppingIsARun(run: seq<State>, k: nat)
    requires IsRun(run) && 0 < k <= |run|
    ensures var s := run[k - 1];
      && IsRun(run[..k] + [s.(place := Down)])
      && IsRun(run[..k] + [s.(place := Down)] + [s.(place := Idle)])
      && forall f: nat :: f < |s.requests| && IsClaimed(s, f) ==> Retained(s.(place := Idle), f)
  {
    var s := run[k - 1];
    PartOfRun(run, k);
    assert run[..k][k - 1] == s;
    CrashIsAStep(s);
    StartIsAStep(s.(place := Down));
    assert forall f: nat :: f < |s.requests| && IsClaimed(s, f) ==> Retained(s.(place := Idle), f);
    hide *;
    RunExtends(run[..k], s.(place := Down));
    RunExtends(run[..k] + [s.(place := Down)], s.(place := Idle));
  }

  lemma StartIsAStep(s: State)
    requires s.place.Down?
    ensures Next(s, s.(place := Idle))
  {
    assert Enabled(s, Start) && s.(place := Idle) == Apply(s, Start);
  }

  lemma CrashIsAStep(s: State)
    ensures Next(s, s.(place := Down))
  {
    assert Enabled(s, Crash) && Apply(s, Crash) == s.(place := Down);
  }

  lemma RunExtends(run: seq<State>, t: State)
    requires IsRun(run) && Next(run[|run| - 1], t)
    ensures IsRun(run + [t])
  {
    hide Next;
    var longer := run + [t];
    forall i | 0 <= i < |longer| - 1 ensures StepsAt(longer, i) {
      if i < |run| - 1 {
        assert StepsAt(run, i);
      }
    }
  }
}
