/** Control writes to the border router (internal/otbr/network.go), by any number of callers at once. */
module Control {
  // Each call is a script of requests sent under one mutex, and any request may fail,
  // with or without having taken effect. The machine here interleaves any number of
  // calls; its runs are proved to be the calls one after another, in lock order.
  // A request is taken to act before its reply or error, never later.

  import opened Wrappers
  import opened LittleEndian

  /** A committed operational dataset, as its bytes. */
  type Dataset = seq<byte>

  /** What the requests change at the router: the Thread interface and the active dataset. */
  datatype Router = Router(enabled: bool, dataset: Option<Dataset>)

  datatype Request = SetState(enable: bool) | PutDataset(dataset: Dataset) | DeleteDataset

  /** How a request ended for its sender, and whether the router acted on it. */
  datatype Outcome = Done | Failed(applied: bool)

  datatype Event = Event(caller: nat, request: Request, outcome: Outcome)

  /** Forming, joining and joining by TLV all commit a dataset. */
  datatype Call = Commit(dataset: Dataset) | Leave | SetEnabled(enable: bool)

  function Script(call: Call): seq<Request> {
    match call
    case Commit(d) => [SetState(false), PutDataset(d), SetState(true)]
    case Leave => [SetState(false), DeleteDataset]
    case SetEnabled(b) => [SetState(b)]
  }

  predicate IsDatasetWrite(r: Request) { r.PutDataset? || r.DeleteDataset? }

  function Act(router: Router, request: Request): Router {
    match request
    case SetState(b) => router.(enabled := b)
    case PutDataset(d) => router.(dataset := Some(d))
    case DeleteDataset => router.(dataset := None)
  }

  function Effect(router: Router, request: Request, outcome: Outcome): Router {
    if outcome == Failed(false) then router else Act(router, request)
  }

  /** What the router is after a sequence of requests. */
  function After(router: Router, events: seq<Event>): Router {
    if events == [] then router
    else
      var e := events[|events| - 1];
      Effect(After(router, events[..|events| - 1]), e.request, e.outcome)
  }

  /** Every dataset write among the requests arrived while the interface was down. */
  predicate WritesArriveDisabled(router: Router, events: seq<Event>) {
    forall i :: 0 <= i < |events| && IsDatasetWrite(events[i].request) ==> !After(router, events[..i]).enabled
  }

  // ---------------------------------------------------------------- one call on its own

  /** The replies of one call so far: it goes no further than its script and stops at the first failure. */
  predicate Attempt(script: seq<Request>, outcomes: seq<Outcome>) {
    && |outcomes| <= |script|
    && forall i :: 0 <= i < |outcomes| - 1 ==> outcomes[i] == Done
  }

  /** Nothing is left to send: a request failed, or the script is through. */
  predicate Over(script: seq<Request>, outcomes: seq<Outcome>) {
    |outcomes| == |script| || (outcomes != [] && outcomes[|outcomes| - 1] != Done)
  }

  /** Every request was sent and answered well: the call returns no error. */
  predicate Succeeded(script: seq<Request>, outcomes: seq<Outcome>) {
    |outcomes| == |script| && forall i :: 0 <= i < |outcomes| ==> outcomes[i] == Done
  }

  /** The consecutive requests of one call. */
  function Block(caller: nat, script: seq<Request>, outcomes: seq<Outcome>): (events: seq<Event>)
    requires |outcomes| <= |script|
    ensures |events| == |outcomes|
    ensures forall i :: 0 <= i < |events| ==> events[i] == Event(caller, script[i], outcomes[i])
  {
    seq(|outcomes|, i requires 0 <= i < |outcomes| => Event(caller, script[i], outcomes[i]))
  }

  /** One call with nobody else around. */
  function RunAlone(router: Router, script: seq<Request>, outcomes: seq<Outcome>): Router
    requires |outcomes| <= |script|
  {
    if outcomes == [] then router
    else
      var n := |outcomes| - 1;
      Effect(RunAlone(router, script, outcomes[..n]), script[n], outcomes[n])
  }

  // ---------------------------------------------------------------- the concurrent machine

  /** Where a caller stands. `Running` means past the lock; what it holds are the replies so far. */
  datatype Progress = Waiting | Running(outcomes: seq<Outcome>) | Finished(outcomes: seq<Outcome>)

  /** `order` is the order in which the lock was taken; `log` is what the router saw. */
  datatype State = State(router: Router, locked: bool, order: seq<nat>, progress: seq<Progress>, log: seq<Event>)

  predicate Init(s: State, calls: seq<Call>, router: Router) {
    && s.router == router && !s.locked && s.order == [] && s.log == []
    && |s.progress| == |calls| && forall p :: 0 <= p < |calls| ==> s.progress[p] == Waiting
  }

  predicate Acquire(s: State, t: State, calls: seq<Call>, p: nat) {
    && p < |calls| == |s.progress|
    && s.progress[p] == Waiting && !s.locked
    && t == s.(locked := true, order := s.order + [p], progress := s.progress[p := Running([])])
  }

  predicate Send(s: State, t: State, calls: seq<Call>, p: nat, outcome: Outcome) {
    && p < |calls| == |s.progress|
    && s.progress[p].Running?
    && var script, sent := Script(calls[p]), s.progress[p].outcomes;
       && |sent| < |script| && !Over(script, sent)
       && t == s.(router := Effect(s.router, script[|sent|], outcome),
                  progress := s.progress[p := Running(sent + [outcome])],
                  log := s.log + [Event(p, script[|sent|], outcome)])
  }

  predicate Release(s: State, t: State, calls: seq<Call>, p: nat) {
    && p < |calls| == |s.progress|
    && s.progress[p].Running? && Over(Script(calls[p]), s.progress[p].outcomes)
    && t == s.(locked := false, progress := s.progress[p := Finished(s.progress[p].outcomes)])
  }

  datatype Action = Acquiring(p: nat) | Sending(p: nat, outcome: Outcome) | Releasing(p: nat)

  predicate Takes(s: State, t: State, calls: seq<Call>, action: Action) {
    match action
    case Acquiring(p) => Acquire(s, t, calls, p)
    case Sending(p, outcome) => Send(s, t, calls, p, outcome)
    case Releasing(p) => Release(s, t, calls, p)
  }

  /** One step of any caller; the scheduler and the network choose which. */
  ghost predicate Step(s: State, t: State, calls: seq<Call>) {
    exists action: Action :: Takes(s, t, calls, action)
  }

  ghost predicate Behaviour(run: seq<State>, calls: seq<Call>, router: Router) {
    && run != [] && Init(run[0], calls, router)
    && forall i :: 0 <= i < |run| - 1 ==> Step(run[i], run[i + 1], calls)
  }

  // ---------------------------------------------------------------- the serial account of a state

  function Replies(s: State, p: nat): seq<Outcome>
    requires p < |s.progress|
  {
    if s.progress[p].Waiting? then [] else s.progress[p].outcomes
  }

  predicate Shaped(s: State, calls: seq<Call>) {
    && |s.progress| == |calls|
    && (forall k :: 0 <= k < |s.order| ==> s.order[k] < |calls|)
    && (forall p :: 0 <= p < |calls| ==> Attempt(Script(calls[p]), Replies(s, p)))
  }

  /** The blocks of the first `k` callers in lock order, one after another. */
  function Blocks(s: State, calls: seq<Call>, k: nat): seq<Event>
    requires Shaped(s, calls) && k <= |s.order|
  {
    if k == 0 then []
    else Blocks(s, calls, k - 1) + Block(s.order[k - 1], Script(calls[s.order[k - 1]]), Replies(s, s.order[k - 1]))
  }

  /** The first `k` calls in lock order run one by one. */
  function Serial(s: State, calls: seq<Call>, router: Router, k: nat): Router
    requires Shaped(s, calls) && k <= |s.order|
  {
    if k == 0 then router
    else RunAlone(Serial(s, calls, router, k - 1), Script(calls[s.order[k - 1]]), Replies(s, s.order[k - 1]))
  }

  /**
   The lock's order names each caller past it once; only the last one can still be running,
   and then the lock is held.
   */
  predicate LockOrder(s: State) {
    && (forall i, j :: 0 <= i < j < |s.order| ==> s.order[i] != s.order[j])
    && (forall p :: 0 <= p < |s.progress| ==> (s.progress[p].Waiting? <==> p !in s.order))
    && (forall p :: 0 <= p < |s.progress| && s.progress[p].Running? ==> s.locked && s.order[|s.order| - 1] == p)
    && (s.locked ==>
          s.order != [] && s.order[|s.order| - 1] < |s.progress| && s.progress[s.order[|s.order| - 1]].Running?)
  }

  predicate FinishedAreOver(s: State, calls: seq<Call>)
    requires |s.progress| == |calls|
  {
    forall p :: 0 <= p < |calls| && s.progress[p].Finished? ==> Over(Script(calls[p]), s.progress[p].outcomes)
  }

  predicate Structured(s: State, calls: seq<Call>) {
    Shaped(s, calls) && LockOrder(s) && FinishedAreOver(s, calls)
  }

  /** The log is the blocks in lock order, and the router is what the calls one by one leave. */
  predicate Accounted(s: State, calls: seq<Call>, router: Router)
    requires Shaped(s, calls)
  {
    && s.log == Blocks(s, calls, |s.order|)
    && s.router == Serial(s, calls, router, |s.order|)
    && s.router == After(router, s.log)
  }

  /** Everything the machine keeps. */
  predicate Serialized(s: State, calls: seq<Call>, router: Router) {
    && Structured(s, calls)
    && Accounted(s, calls, router)
    && WritesArriveDisabled(router, s.log)
  }

  // ---------------------------------------------------------------- proofs

  lemma AfterOne(router: Router, events: seq<Event>, e: Event)
    ensures After(router, events + [e]) == Effect(After(router, events), e.request, e.outcome)
  {
    assert (events + [e])[..|events|] == events;
  }

  lemma WritesOne(router: Router, events: seq<Event>, e: Event)
    requires WritesArriveDisabled(router, events)
    requires IsDatasetWrite(e.request) ==> !After(router, events).enabled
    ensures WritesArriveDisabled(router, events + [e])
  {
    forall i | 0 <= i < |events + [e]| && IsDatasetWrite((events + [e])[i].request)
      ensures !After(router, (events + [e])[..i]).enabled
    {
      assert (events + [e])[..i] == events[..i];
      assert i == |events| ==> events[..i] == events;
    }
  }

  /** The blocks and the serial run of the first `k` callers depend on those callers' replies only. */
  predicate AgreeOn(s: State, t: State, k: nat)
    requires k <= |s.order| && k <= |t.order|
    requires |s.progress| == |t.progress| && forall i :: 0 <= i < k ==> s.order[i] < |s.progress|
  {
    forall i :: 0 <= i < k ==> s.order[i] == t.order[i] && Replies(s, s.order[i]) == Replies(t, s.order[i])
  }

  lemma OneMoreBlock(s: State, t: State, calls: seq<Call>, k: nat)
    requires Shaped(s, calls) && Shaped(t, calls) && k < |s.order| && k < |t.order|
    requires s.order[k] == t.order[k] && Replies(s, s.order[k]) == Replies(t, t.order[k])
    requires Blocks(s, calls, k) == Blocks(t, calls, k)
    ensures Blocks(s, calls, k + 1) == Blocks(t, calls, k + 1)
  {
  }

  lemma OneMoreSerial(s: State, t: State, calls: seq<Call>, router: Router, k: nat)
    requires Shaped(s, calls) && Shaped(t, calls) && k < |s.order| && k < |t.order|
    requires s.order[k] == t.order[k] && Replies(s, s.order[k]) == Replies(t, t.order[k])
    requires Serial(s, calls, router, k) == Serial(t, calls, router, k)
    ensures Serial(s, calls, router, k + 1) == Serial(t, calls, router, k + 1)
  {
  }

  lemma {:induction false} SameBlocks(s: State, t: State, calls: seq<Call>, k: nat)
    requires Shaped(s, calls) && Shaped(t, calls) && k <= |s.order| && k <= |t.order|
    requires AgreeOn(s, t, k)
    ensures Blocks(s, calls, k) == Blocks(t, calls, k)
  {
    if k > 0 {
      SameBlocks(s, t, calls, k - 1);
      OneMoreBlock(s, t, calls, k - 1);
    }
  }

  lemma {:induction false} SameSerial(s: State, t: State, calls: seq<Call>, router: Router, k: nat)
    requires Shaped(s, calls) && Shaped(t, calls) && k <= |s.order| && k <= |t.order|
    requires AgreeOn(s, t, k)
    ensures Serial(s, calls, router, k) == Serial(t, calls, router, k)
  {
    if k > 0 {
      SameSerial(s, t, calls, router, k - 1);
      OneMoreSerial(s, t, calls, router, k - 1);
    }
  }

  lemma SamePrefix(s: State, t: State, calls: seq<Call>, router: Router, k: nat)
    requires Shaped(s, calls) && Shaped(t, calls) && k <= |s.order| && k <= |t.order|
    requires AgreeOn(s, t, k)
    ensures Blocks(s, calls, k) == Blocks(t, calls, k) && Serial(s, calls, router, k) == Serial(t, calls, router, k)
  {
    SameBlocks(s, t, calls, k);
    SameSerial(s, t, calls, router, k);
  }

  lemma InitSerialized(s: State, calls: seq<Call>, router: Router)
    requires Init(s, calls, router)
    ensures Serialized(s, calls, router)
  {
  }

  lemma AcquireStructured(s: State, t: State, calls: seq<Call>, p: nat)
    requires Structured(s, calls) && Acquire(s, t, calls, p)
    ensures Structured(t, calls)
  {
    assert p !in s.order;
    assert forall q :: q in t.order <==> q in s.order || q == p;
    assert forall q :: 0 <= q < |calls| ==> Replies(t, q) == Replies(s, q);
  }

  lemma AcquireSerialized(s: State, t: State, calls: seq<Call>, router: Router, p: nat)
    requires Serialized(s, calls, router) && Acquire(s, t, calls, p)
    ensures Serialized(t, calls, router)
  {
    var n := |s.order|;
    AcquireStructured(s, t, calls, p);
    assert forall q :: 0 <= q < |calls| ==> Replies(t, q) == Replies(s, q);
    SamePrefix(s, t, calls, router, n);
    assert Blocks(t, calls, n + 1) == Blocks(t, calls, n) + [];
  }

  lemma ReleaseStructured(s: State, t: State, calls: seq<Call>, p: nat)
    requires Structured(s, calls) && Release(s, t, calls, p)
    ensures Structured(t, calls)
  {
    assert forall q :: 0 <= q < |calls| ==> Replies(t, q) == Replies(s, q);
    assert forall q :: 0 <= q < |calls| && q != p ==> t.progress[q] == s.progress[q];
  }

  lemma ReleaseSerialized(s: State, t: State, calls: seq<Call>, router: Router, p: nat)
    requires Serialized(s, calls, router) && Release(s, t, calls, p)
    ensures Serialized(t, calls, router)
  {
    assert forall q :: 0 <= q < |calls| ==> Replies(t, q) == Replies(s, q);
    ReleaseStructured(s, t, calls, p);
    SamePrefix(s, t, calls, router, |s.order|);
  }

  /** The only request that writes the dataset is the second of its script, right after disabling the interface. */
  lemma WritesFollowDisable(call: Call, k: nat)
    requires k < |Script(call)| && IsDatasetWrite(Script(call)[k])
    ensures k == 1 && Script(call)[0] == SetState(false)
  {
  }

  lemma SendShaped(s: State, t: State, calls: seq<Call>, p: nat, outcome: Outcome)
    requires Shaped(s, calls) && Send(s, t, calls, p, outcome)
    ensures Shaped(t, calls)
  {
    var sent := s.progress[p].outcomes;
    assert Replies(s, p) == sent && Replies(t, p) == sent + [outcome];
    assert Attempt(Script(calls[p]), sent + [outcome]);
    assert forall q :: 0 <= q < |calls| && q != p ==> Replies(t, q) == Replies(s, q);
  }

  lemma SendKeepsLock(s: State, t: State, calls: seq<Call>, p: nat, outcome: Outcome)
    requires LockOrder(s) && Send(s, t, calls, p, outcome)
    ensures LockOrder(t) && s.order != [] && s.order[|s.order| - 1] == p
  {
    assert forall q :: 0 <= q < |s.progress| && q != p ==> t.progress[q] == s.progress[q];
  }

  lemma SendStructured(s: State, t: State, calls: seq<Call>, p: nat, outcome: Outcome)
    requires Structured(s, calls) && Send(s, t, calls, p, outcome)
    ensures Structured(t, calls) && t.order == s.order
    ensures s.order != [] && s.order[|s.order| - 1] == p
    ensures forall q :: 0 <= q < |calls| && q != p ==> Replies(t, q) == Replies(s, q)
  {
    SendShaped(s, t, calls, p, outcome);
    SendKeepsLock(s, t, calls, p, outcome);
    assert forall q :: 0 <= q < |calls| && q != p ==> t.progress[q] == s.progress[q];
  }

  lemma BlockGrows(caller: nat, script: seq<Request>, sent: seq<Outcome>, outcome: Outcome)
    requires |sent| < |script|
    ensures Block(caller, script, sent + [outcome]) ==
            Block(caller, script, sent) + [Event(caller, script[|sent|], outcome)]
  {
  }

  lemma AloneGrows(router: Router, script: seq<Request>, sent: seq<Outcome>, outcome: Outcome)
    requires |sent| < |script|
    ensures RunAlone(router, script, sent + [outcome]) ==
            Effect(RunAlone(router, script, sent), script[|sent|], outcome)
  {
    assert (sent + [outcome])[..|sent|] == sent;
  }

  lemma SendLogged(s: State, t: State, calls: seq<Call>, p: nat, outcome: Outcome)
    requires Structured(s, calls) && Structured(t, calls) && Send(s, t, calls, p, outcome)
    requires t.order == s.order != [] && s.order[|s.order| - 1] == p
    requires Blocks(s, calls, |s.order| - 1) == Blocks(t, calls, |s.order| - 1)
    ensures Blocks(t, calls, |s.order|) ==
            Blocks(s, calls, |s.order|) + [Event(p, Script(calls[p])[|s.progress[p].outcomes|], outcome)]
  {
    var script, sent := Script(calls[p]), s.progress[p].outcomes;
    var before, e := Blocks(s, calls, |s.order| - 1), Event(p, script[|sent|], outcome);
    BlockGrows(p, script, sent, outcome);
    assert before + (Block(p, script, sent) + [e]) == before + Block(p, script, sent) + [e];
  }

  lemma SendAccounted(s: State, t: State, calls: seq<Call>, router: Router, p: nat, outcome: Outcome)
    requires Structured(s, calls) && Accounted(s, calls, router) && Send(s, t, calls, p, outcome)
    ensures Structured(t, calls) && Accounted(t, calls, router)
  {
    SendStructured(s, t, calls, p, outcome);
    var script, sent, n := Script(calls[p]), s.progress[p].outcomes, |s.order| - 1;
    SamePrefix(s, t, calls, router, n);
    SendLogged(s, t, calls, p, outcome);
    AloneGrows(Serial(s, calls, router, n), script, sent, outcome);
    AfterOne(router, s.log, Event(p, script[|sent|], outcome));
  }

  /** When a caller is about to write the dataset, its own disable request was the last thing the router did. */
  lemma DisabledBeforeWrite(s: State, calls: seq<Call>, router: Router, p: nat)
    requires Structured(s, calls) && Accounted(s, calls, router)
    requires p < |calls| && s.progress[p].Running?
    requires var script, sent := Script(calls[p]), s.progress[p].outcomes;
             |sent| < |script| && !Over(script, sent) && IsDatasetWrite(script[|sent|])
    ensures !s.router.enabled
  {
    var sent := s.progress[p].outcomes;
    WritesFollowDisable(calls[p], |sent|);
    UnfoldAlone(Serial(s, calls, router, |s.order| - 1), Script(calls[p]), sent);
  }

  lemma SendSerialized(s: State, t: State, calls: seq<Call>, router: Router, p: nat, outcome: Outcome)
    requires Serialized(s, calls, router) && Send(s, t, calls, p, outcome)
    ensures Serialized(t, calls, router)
  {
    SendAccounted(s, t, calls, router, p, outcome);
    var request := Script(calls[p])[|s.progress[p].outcomes|];
    if IsDatasetWrite(request) {
      DisabledBeforeWrite(s, calls, router, p);
    }
    WritesOne(router, s.log, Event(p, request, outcome));
  }

  lemma StepSerialized(s: State, t: State, calls: seq<Call>, router: Router)
    requires Serialized(s, calls, router) && Step(s, t, calls)
    ensures Serialized(t, calls, router)
  {
    var action: Action :| Takes(s, t, calls, action);
    match action
    case Acquiring(p) => AcquireSerialized(s, t, calls, router, p);
    case Sending(p, outcome) => SendSerialized(s, t, calls, router, p, outcome);
    case Releasing(p) => ReleaseSerialized(s, t, calls, router, p);
  }

  /**
   Control writes are serializable. In every state of every run, however the callers
   are scheduled and whichever requests fail, what the router saw is the callers'
   blocks one after another in lock order, every dataset write arrived while the
   interface was down, and the router is what running those calls one by one leaves.
   */
  lemma {:induction false} RunsAreSerialized(run: seq<State>, calls: seq<Call>, router: Router, i: nat)
    requires Behaviour(run, calls, router) && i < |run|
    ensures Serialized(run[i], calls, router)
  {
    if i == 0 {
      InitSerialized(run[0], calls, router);
    } else {
      RunsAreSerialized(run, calls, router, i - 1);
      StepSerialized(run[i - 1], run[i], calls, router);
    }
  }

  lemma HolderCanMove(s: State, calls: seq<Call>, p: nat)
    requires Structured(s, calls) && p < |calls| && s.progress[p].Running?
    ensures exists t: State :: Step(s, t, calls)
  {
    var script, sent := Script(calls[p]), s.progress[p].outcomes;
    if Over(script, sent) {
      var t := s.(locked := false, progress := s.progress[p := Finished(sent)]);
      assert Takes(s, t, calls, Releasing(p));
      assert Step(s, t, calls);
    } else {
      var t := s.(router := Effect(s.router, script[|sent|], Done), progress := s.progress[p := Running(sent + [Done])],
                  log := s.log + [Event(p, script[|sent|], Done)]);
      assert Takes(s, t, calls, Sending(p, Done));
      assert Step(s, t, calls);
    }
  }

  /** No deadlock: until every call has finished, some caller can move. */
  lemma NoDeadlock(s: State, calls: seq<Call>)
    requires Structured(s, calls)
    requires exists p :: 0 <= p < |calls| && !s.progress[p].Finished?
    ensures exists t: State :: Step(s, t, calls)
  {
    if s.locked {
      HolderCanMove(s, calls, s.order[|s.order| - 1]);
    } else {
      var p :| 0 <= p < |calls| && !s.progress[p].Finished?;
      assert s.progress[p].Waiting?;
      var t := s.(locked := true, order := s.order + [p], progress := s.progress[p := Running([])]);
      assert Takes(s, t, calls, Acquiring(p));
      assert Step(s, t, calls);
    }
  }

  /**
   What a finished commit leaves, for every way it can end. After a failure the
   interface is up exactly when the enable took effect and only its answer was lost,
   or when the disable never reached a router that was up.
   */
  lemma CommitAlone(router: Router, d: Dataset, outcomes: seq<Outcome>)
    requires Attempt(Script(Commit(d)), outcomes) && Over(Script(Commit(d)), outcomes)
    ensures var after := RunAlone(router, Script(Commit(d)), outcomes);
            && (Succeeded(Script(Commit(d)), outcomes) ==> after == Router(true, Some(d)))
            && (!Succeeded(Script(Commit(d)), outcomes) ==>
                  (after.enabled <==> outcomes == [Done, Done, Failed(true)]
                                      || (outcomes == [Failed(false)] && router.enabled)))
            && after.dataset == if |outcomes| >= 2 && outcomes[1] != Failed(false) then Some(d) else router.dataset
  {
    UnfoldAlone(router, Script(Commit(d)), outcomes);
  }

  /** The same for leaving. */
  lemma LeaveAlone(router: Router, outcomes: seq<Outcome>)
    requires Attempt(Script(Leave), outcomes) && Over(Script(Leave), outcomes)
    ensures var after := RunAlone(router, Script(Leave), outcomes);
            && (Succeeded(Script(Leave), outcomes) ==> after == Router(false, None))
            && (after.enabled <==> outcomes == [Failed(false)] && router.enabled)
            && after.dataset == if |outcomes| == 2 && outcomes[1] != Failed(false) then None else router.dataset
  {
    UnfoldAlone(router, Script(Leave), outcomes);
  }

  lemma UnfoldAlone(router: Router, script: seq<Request>, outcomes: seq<Outcome>)
    requires |outcomes| <= |script|
    ensures |outcomes| == 1 ==> RunAlone(router, script, outcomes) == Effect(router, script[0], outcomes[0])
    ensures |outcomes| == 2 ==> RunAlone(router, script, outcomes)
                                == Effect(Effect(router, script[0], outcomes[0]), script[1], outcomes[1])
    ensures |outcomes| == 3 ==> RunAlone(router, script, outcomes)
                                == Effect(Effect(Effect(router, script[0], outcomes[0]), script[1], outcomes[1]),
                                          script[2], outcomes[2])
  {
    if 1 <= |outcomes| <= 3 {
      assert outcomes[..0] == [];
      assert |outcomes| > 1 ==> outcomes[..|outcomes| - 1][..|outcomes| - 2] == outcomes[..|outcomes| - 2];
      assert |outcomes| > 2 ==> outcomes[..|outcomes| - 2][..|outcomes| - 3] == outcomes[..|outcomes| - 3];
    }
  }

  /** The last call to take the lock and succeed decides: a commit leaves its dataset up, a leave leaves none. */
  lemma LastSuccessDecides(s: State, calls: seq<Call>, router: Router)
    requires Serialized(s, calls, router) && s.order != []
    requires var p := s.order[|s.order| - 1];
             s.progress[p].Finished? && Succeeded(Script(calls[p]), s.progress[p].outcomes)
    ensures match calls[s.order[|s.order| - 1]]
            case Commit(d) => s.router == Router(true, Some(d))
            case Leave => s.router == Router(false, None)
            case SetEnabled(b) => s.router.enabled == b
  {
    var p, n := s.order[|s.order| - 1], |s.order| - 1;
    UnfoldAlone(Serial(s, calls, router, n), Script(calls[p]), s.progress[p].outcomes);
  }

  // ---------------------------------------------------------------- the calls as the client makes them

  /** The router at the other end. The network decides how each request ends. */
  class Otbr {
    var router: Router
    var log: seq<Event>

    constructor (router: Router)
      ensures this.router == router && log == []
    {
      this.router, log := router, [];
    }

    method Write(caller: nat, request: Request) returns (ok: bool, ghost outcome: Outcome)
      modifies this
      ensures ok == (outcome == Done)
      ensures router == Effect(old(router), request, outcome)
      ensures log == old(log) + [Event(caller, request, outcome)]
    {
      var answered: bool, applied: bool := *, *;
      var fate := if answered then Done else Failed(applied);
      outcome := fate;
      if answered || applied {
        router := Act(router, request);
      }
      log := log + [Event(caller, request, fate)];
      ok := answered;
    }
  }

  /** One whole call made while holding the lock: its block reaches the router and it runs alone. */
  twostate predicate Ran(otbr: Otbr, caller: nat, call: Call, ok: bool, outcomes: seq<Outcome>)
    reads otbr
  {
    var script := Script(call);
    && Attempt(script, outcomes) && Over(script, outcomes)
    && ok == Succeeded(script, outcomes)
    && otbr.log == old(otbr.log) + Block(caller, script, outcomes)
    && otbr.router == RunAlone(old(otbr.router), script, outcomes)
  }

  /** A commit: three requests, of which a failure leaves the later ones unsent. */
  method ApplyDatasetRaw(otbr: Otbr, caller: nat, d: Dataset) returns (ok: bool, ghost outcomes: seq<Outcome>)
    modifies otbr
    ensures Ran(otbr, caller, Commit(d), ok, outcomes)
  {
    ghost var script := Script(Commit(d));
    ghost var o0, o1, o2;
    ok, o0 := otbr.Write(caller, SetState(false));
    outcomes := [o0];
    UnfoldAlone(old(otbr.router), script, outcomes);
    if !ok {
      return;
    }
    ok, o1 := otbr.Write(caller, PutDataset(d));
    outcomes := [o0, o1];
    UnfoldAlone(old(otbr.router), script, outcomes);
    if !ok {
      return;
    }
    ok, o2 := otbr.Write(caller, SetState(true));
    outcomes := [o0, o1, o2];
    UnfoldAlone(old(otbr.router), script, outcomes);
  }

  /** A leave: two requests, the second only after the first has worked. */
  method LeaveNetwork(otbr: Otbr, caller: nat) returns (ok: bool, ghost outcomes: seq<Outcome>)
    modifies otbr
    ensures Ran(otbr, caller, Leave, ok, outcomes)
  {
    ghost var script := Script(Leave);
    ghost var o0, o1;
    ok, o0 := otbr.Write(caller, SetState(false));
    outcomes := [o0];
    UnfoldAlone(old(otbr.router), script, outcomes);
    if !ok {
      return;
    }
    ok, o1 := otbr.Write(caller, DeleteDataset);
    outcomes := [o0, o1];
    UnfoldAlone(old(otbr.router), script, outcomes);
  }

  method SetInterface(otbr: Otbr, caller: nat, enable: bool) returns (ok: bool, ghost outcomes: seq<Outcome>)
    modifies otbr
    ensures Ran(otbr, caller, SetEnabled(enable), ok, outcomes)
  {
    ghost var o0;
    ok, o0 := otbr.Write(caller, SetState(enable));
    outcomes := [o0];
    UnfoldAlone(old(otbr.router), Script(SetEnabled(enable)), outcomes);
  }
}
