/** Control writes when a failed request may still act long after its caller has gone on. */
module Late {
  // The machine of Control with one more choice: a request whose reply is an error may
  // stay on its way and land at any later moment, whoever holds the lock by then.

  import opened Wrappers
  import opened Control

  /** A request on its way, and who sent it. */
  datatype Stray = Stray(caller: nat, request: Request)

  /**
   `landed` are the strays that have landed since the last answer; the rest of `base` is as
   in Control, except that its log does not have the strays.
   */
  datatype Net = Net(base: State, pending: seq<Stray>, landed: seq<Stray>)

  datatype Move = Ordinary(action: Action) | Losing(p: nat) | Landing(k: nat)

  function NextRequest(s: State, calls: seq<Call>, p: nat): Request
    requires p < |calls| == |s.progress| && s.progress[p].Running?
    requires |s.progress[p].outcomes| < |Script(calls[p])|
  {
    Script(calls[p])[|s.progress[p].outcomes|]
  }

  /** The request fails without effect, for now. */
  predicate Lose(s: Net, t: Net, calls: seq<Call>, p: nat) {
    && Send(s.base, t.base, calls, p, Failed(false))
    && t.pending == s.pending + [Stray(p, NextRequest(s.base, calls, p))] && t.landed == []
  }

  predicate Land(s: Net, t: Net, k: nat) {
    && k < |s.pending|
    && t.base == s.base.(router := Act(s.base.router, s.pending[k].request))
    && t.pending == s.pending[..k] + s.pending[k + 1..] && t.landed == s.landed + [s.pending[k]]
  }

  predicate Moves(s: Net, t: Net, calls: seq<Call>, move: Move) {
    match move
    case Ordinary(action) =>
      Takes(s.base, t.base, calls, action) && t.pending == s.pending
      && t.landed == if action.Sending? then [] else s.landed
    case Losing(p) => Lose(s, t, calls, p)
    case Landing(k) => Land(s, t, k)
  }

  ghost predicate NetStep(s: Net, t: Net, calls: seq<Call>) {
    exists move: Move :: Moves(s, t, calls, move)
  }

  ghost predicate NetRun(run: seq<Net>, calls: seq<Call>, router: Router) {
    && run != [] && Init(run[0].base, calls, router) && run[0].pending == run[0].landed == []
    && forall i :: 0 <= i < |run| - 1 ==> NetStep(run[i], run[i + 1], calls)
  }

  ghost predicate Reachable(s: Net, calls: seq<Call>, router: Router) {
    exists run: seq<Net> :: NetRun(run, calls, router) && run[|run| - 1] == s
  }

  // ---------------------------------------------------------------- what decides

  /** Where the strays leave the interface. */
  function Switched(landed: seq<Stray>, enabled: bool): bool {
    if landed == [] then enabled
    else
      match landed[|landed| - 1].request
      case SetState(b) => b
      case _ => Switched(landed[..|landed| - 1], enabled)
  }

  /** The caller is about to write or delete the dataset. */
  predicate AboutToWrite(s: State, calls: seq<Call>, p: nat) {
    && p < |calls| == |s.progress| && s.progress[p].Running?
    && !Over(Script(calls[p]), s.progress[p].outcomes)
    && |s.progress[p].outcomes| < |Script(calls[p])| && IsDatasetWrite(NextRequest(s, calls, p))
  }

  /** The caller has disabled the interface and sent nothing since. */
  predicate HasDisabled(s: State, calls: seq<Call>, p: nat) {
    && p < |calls| == |s.progress|
    && s.progress[p] == Running([Done]) && Script(calls[p])[0] == SetState(false)
  }

  /** A stray is a request of a caller whose call it ended. */
  predicate IsStray(s: State, calls: seq<Call>, stray: Stray) {
    && stray.caller < |calls| == |s.progress|
    && !s.progress[stray.caller].Waiting?
    && Over(Script(calls[stray.caller]), s.progress[stray.caller].outcomes)
    && stray.request in Script(calls[stray.caller])
  }

  predicate AllStray(s: State, calls: seq<Call>, strays: seq<Stray>) {
    forall i :: 0 <= i < |strays| ==> IsStray(s, calls, strays[i])
  }

  predicate Kept(s: Net, calls: seq<Call>) {
    && Structured(s.base, calls)
    && (forall p :: 0 <= p < |calls| && HasDisabled(s.base, calls, p) ==>
          s.base.router.enabled == Switched(s.landed, false))
    && AllStray(s.base, calls, s.pending) && AllStray(s.base, calls, s.landed)
  }

  lemma StraysStay(s: State, t: State, calls: seq<Call>, action: Action, strays: seq<Stray>)
    requires Structured(s, calls) && Takes(s, t, calls, action) && AllStray(s, calls, strays)
    ensures AllStray(t, calls, strays)
  {
    forall i | 0 <= i < |strays|
      ensures IsStray(t, calls, strays[i])
    {
      assert IsStray(s, calls, strays[i]);
    }
  }

  lemma TakesStructured(s: State, t: State, calls: seq<Call>, action: Action)
    requires Structured(s, calls) && Takes(s, t, calls, action)
    ensures Structured(t, calls)
  {
    match action
    case Acquiring(p) => AcquireStructured(s, t, calls, p);
    case Sending(p, outcome) => SendStructured(s, t, calls, p, outcome);
    case Releasing(p) => ReleaseStructured(s, t, calls, p);
  }

  /** Only the holder of the lock is past its disable request. */
  lemma OrdinaryKeeps(s: Net, t: Net, calls: seq<Call>, action: Action)
    requires Kept(s, calls) && Moves(s, t, calls, Ordinary(action))
    ensures Kept(t, calls)
  {
    TakesStructured(s.base, t.base, calls, action);
    StraysStay(s.base, t.base, calls, action, s.pending);
    StraysStay(s.base, t.base, calls, action, s.landed);
    forall p | HasDisabled(t.base, calls, p)
      ensures t.base.router.enabled == Switched(t.landed, false)
    {
      DisableIsLast(s.base, t.base, calls, action, p);
    }
  }

  lemma DisableIsLast(s: State, t: State, calls: seq<Call>, action: Action, p: nat)
    requires Structured(s, calls) && Structured(t, calls) && Takes(s, t, calls, action) && HasDisabled(t, calls, p)
    ensures if action.Sending? then !t.router.enabled else HasDisabled(s, calls, p) && t.router == s.router
  {
    assert t.locked && t.order[|t.order| - 1] == p;
    match action
    case Sending(q, outcome) =>
      assert t.progress[q].Running? && q == p;
      assert |s.progress[p].outcomes + [outcome]| == |[Done]|;
      assert (s.progress[p].outcomes + [outcome])[0] == outcome;
    case Acquiring(_) =>
    case Releasing(_) =>
  }

  lemma LosingKeeps(s: Net, t: Net, calls: seq<Call>, p: nat)
    requires Kept(s, calls) && Lose(s, t, calls, p)
    ensures Kept(t, calls)
  {
    var action := Sending(p, Failed(false));
    TakesStructured(s.base, t.base, calls, action);
    StraysStay(s.base, t.base, calls, action, s.pending);
    assert t.base.progress[p].outcomes[|t.base.progress[p].outcomes| - 1] == Failed(false);
    assert IsStray(t.base, calls, Stray(p, NextRequest(s.base, calls, p)));
    assert forall q :: 0 <= q < |calls| && q != p ==> !t.base.progress[q].Running?;
  }

  /** What the router is matters neither to the lock nor to the strays. */
  lemma OtherRouter(s: State, calls: seq<Call>, router: Router, strays: seq<Stray>)
    requires Structured(s, calls) && AllStray(s, calls, strays)
    ensures Structured(s.(router := router), calls) && AllStray(s.(router := router), calls, strays)
  {
    var t := s.(router := router);
    assert forall p :: 0 <= p < |calls| ==> Replies(t, p) == Replies(s, p);
    assert forall i :: 0 <= i < |strays| ==> IsStray(t, calls, strays[i]) == IsStray(s, calls, strays[i]);
  }

  lemma StraysMove(s: State, calls: seq<Call>, pending: seq<Stray>, landed: seq<Stray>, k: nat)
    requires AllStray(s, calls, pending) && AllStray(s, calls, landed) && k < |pending|
    ensures AllStray(s, calls, pending[..k] + pending[k + 1..]) && AllStray(s, calls, landed + [pending[k]])
  {
    var rest := pending[..k] + pending[k + 1..];
    assert forall i :: 0 <= i < |rest| ==> rest[i] == pending[if i < k then i else i + 1];
  }

  lemma SwitchedGrows(landed: seq<Stray>, stray: Stray, router: Router)
    requires router.enabled == Switched(landed, false)
    ensures Act(router, stray.request).enabled == Switched(landed + [stray], false)
  {
    assert (landed + [stray])[..|landed|] == landed;
  }

  lemma LandingKeeps(s: Net, t: Net, calls: seq<Call>, k: nat)
    requires Kept(s, calls) && Land(s, t, k)
    ensures Kept(t, calls)
  {
    StraysMove(s.base, calls, s.pending, s.landed, k);
    OtherRouter(s.base, calls, t.base.router, t.pending);
    OtherRouter(s.base, calls, t.base.router, t.landed);
    if s.base.router.enabled == Switched(s.landed, false) {
      SwitchedGrows(s.landed, s.pending[k], s.base.router);
    }
    assert forall p :: 0 <= p < |calls| && HasDisabled(t.base, calls, p) ==> HasDisabled(s.base, calls, p);
  }

  lemma {:induction false} RunsKeep(run: seq<Net>, calls: seq<Call>, router: Router, i: nat)
    requires NetRun(run, calls, router) && i < |run|
    ensures Kept(run[i], calls)
  {
    if i > 0 {
      RunsKeep(run, calls, router, i - 1);
      var move: Move :| Moves(run[i - 1], run[i], calls, move);
      match move
      case Ordinary(action) => OrdinaryKeeps(run[i - 1], run[i], calls, action);
      case Losing(p) => LosingKeeps(run[i - 1], run[i], calls, p);
      case Landing(k) => LandingKeeps(run[i - 1], run[i], calls, k);
    } else {
      InitSerialized(run[0].base, calls, router);
    }
  }

  lemma ReachableKept(s: Net, calls: seq<Call>, router: Router)
    requires Reachable(s, calls, router)
    ensures Kept(s, calls)
  {
    var run: seq<Net> :| NetRun(run, calls, router) && run[|run| - 1] == s;
    RunsKeep(run, calls, router, |run| - 1);
  }

  lemma WriterHasDisabled(s: State, calls: seq<Call>, p: nat)
    requires Structured(s, calls) && AboutToWrite(s, calls, p)
    ensures HasDisabled(s, calls, p)
  {
    var sent := s.progress[p].outcomes;
    WritesFollowDisable(calls[p], |sent|);
    assert sent == [sent[0]];
  }

  /**
   The dataset is about to be written while the interface is up if and only if the last of
   the late requests to switch it, since the caller's own disable, was an enable.
   */
  lemma EnabledBeforeWriteIff(s: Net, calls: seq<Call>, router: Router, p: nat)
    requires Reachable(s, calls, router) && AboutToWrite(s.base, calls, p)
    ensures s.base.router.enabled <==> Switched(s.landed, false)
  {
    ReachableKept(s, calls, router);
    WriterHasDisabled(s.base, calls, p);
  }

  // ---------------------------------------------------------------- which calls are safe together

  predicate Enables(call: Call) { call.Commit? || call == SetEnabled(true) }

  predicate Writes(call: Call) { !call.SetEnabled? }

  /** One call enables the interface and another one writes the dataset. */
  predicate Rivals(calls: seq<Call>) {
    exists p, q :: 0 <= p < |calls| && 0 <= q < |calls| && p != q && Enables(calls[p]) && Writes(calls[q])
  }

  /** No dataset is ever about to be written while the interface is up. */
  ghost predicate AlwaysDown(calls: seq<Call>, router: Router) {
    forall s: Net, p: nat :: Reachable(s, calls, router) && AboutToWrite(s.base, calls, p) ==> !s.base.router.enabled
  }

  lemma {:induction false} NoEnableLanded(landed: seq<Stray>)
    requires forall i :: 0 <= i < |landed| ==> landed[i].request != SetState(true)
    ensures !Switched(landed, false)
  {
    if landed != [] {
      NoEnableLanded(landed[..|landed| - 1]);
    }
  }

  lemma StrayIsNoEnable(s: State, calls: seq<Call>, stray: Stray, p: nat)
    requires !Rivals(calls) && IsStray(s, calls, stray) && AboutToWrite(s, calls, p)
    ensures stray.request != SetState(true)
  {
    assert Writes(calls[p]);
    assert stray.request == SetState(true) ==> Enables(calls[stray.caller]);
  }

  lemma WithoutRivals(calls: seq<Call>, s: Net, router: Router, p: nat)
    requires !Rivals(calls) && Reachable(s, calls, router) && AboutToWrite(s.base, calls, p)
    ensures !s.base.router.enabled
  {
    ReachableKept(s, calls, router);
    EnabledBeforeWriteIff(s, calls, router, p);
    forall i | 0 <= i < |s.landed|
      ensures s.landed[i].request != SetState(true)
    {
      StrayIsNoEnable(s.base, calls, s.landed[i], p);
    }
    NoEnableLanded(s.landed);
  }

  lemma OneMoreStep(s: Net, t: Net, calls: seq<Call>, router: Router, move: Move)
    requires Reachable(s, calls, router) && Moves(s, t, calls, move)
    ensures Reachable(t, calls, router)
  {
    var run: seq<Net> :| NetRun(run, calls, router) && run[|run| - 1] == s;
    var longer := run + [t];
    forall i | 0 <= i < |longer| - 1
      ensures NetStep(longer[i], longer[i + 1], calls)
    {
      assert i < |run| - 1 ==> NetStep(run[i], run[i + 1], calls);
      assert i == |run| - 1 ==> longer[i] == s && longer[i + 1] == t;
    }
    assert NetRun(longer, calls, router) && longer[|longer| - 1] == t;
  }

  /** The holder's next request is answered well. */
  function Answered(s: Net, calls: seq<Call>, p: nat): Net
    requires p < |calls| == |s.base.progress| && s.base.progress[p].Running?
    requires |s.base.progress[p].outcomes| < |Script(calls[p])|
  {
    var request, sent := NextRequest(s.base, calls, p), s.base.progress[p].outcomes;
    Net(s.base.(router := Effect(s.base.router, request, Done),
                progress := s.base.progress[p := Running(sent + [Done])],
                log := s.base.log + [Event(p, request, Done)]), s.pending, [])
  }

  lemma AnsweredStep(s: Net, calls: seq<Call>, router: Router, p: nat)
    requires Reachable(s, calls, router)
    requires p < |calls| == |s.base.progress| && s.base.progress[p].Running?
    requires |s.base.progress[p].outcomes| < |Script(calls[p])|
    requires !Over(Script(calls[p]), s.base.progress[p].outcomes)
    ensures Reachable(Answered(s, calls, p), calls, router)
  {
    OneMoreStep(s, Answered(s, calls, p), calls, router, Ordinary(Sending(p, Done)));
  }

  /** The lock is free and the others have not started. */
  predicate IdleBut(s: Net, calls: seq<Call>, p: nat) {
    && !s.base.locked && |s.base.progress| == |calls|
    && forall q :: 0 <= q < |calls| && q != p ==> s.base.progress[q] == Waiting
  }

  lemma Acquired(s: Net, calls: seq<Call>, router: Router, p: nat) returns (t: Net)
    requires Reachable(s, calls, router)
    requires p < |calls| == |s.base.progress| && s.base.progress[p] == Waiting && !s.base.locked
    ensures Reachable(t, calls, router)
    ensures t == s.(base := s.base.(locked := true, order := s.base.order + [p],
                                    progress := s.base.progress[p := Running([])]))
  {
    t := s.(base := s.base.(locked := true, order := s.base.order + [p],
                            progress := s.base.progress[p := Running([])]));
    OneMoreStep(s, t, calls, router, Ordinary(Acquiring(p)));
  }

  /** The caller holds the lock and the others have not started. */
  predicate OnlyRuns(s: Net, calls: seq<Call>, p: nat, sent: seq<Outcome>) {
    && p < |calls| == |s.base.progress| && s.base.progress[p] == Running(sent) && s.pending == []
    && forall q :: 0 <= q < |calls| && q != p ==> s.base.progress[q] == Waiting
  }

  lemma FirstRuns(calls: seq<Call>, router: Router, p: nat) returns (s: Net)
    requires p < |calls|
    ensures Reachable(s, calls, router) && OnlyRuns(s, calls, p, [])
  {
    s := Net(State(router, false, [], seq(|calls|, _ => Waiting), []), [], []);
    assert NetRun([s], calls, router) && [s][|[s]| - 1] == s;
    s := Acquired(s, calls, router, p);
  }

  lemma RunsOn(s: Net, calls: seq<Call>, router: Router, p: nat, sent: seq<Outcome>) returns (t: Net)
    requires Reachable(s, calls, router) && OnlyRuns(s, calls, p, sent)
    requires |sent| < |Script(calls[p])| && !Over(Script(calls[p]), sent)
    ensures Reachable(t, calls, router) && OnlyRuns(t, calls, p, sent + [Done])
  {
    AnsweredStep(s, calls, router, p);
    t := Answered(s, calls, p);
  }

  /** Its next request is its last, to enable the interface. */
  lemma UpToEnable(calls: seq<Call>, router: Router, p: nat) returns (s: Net, sent: seq<Outcome>)
    requires p < |calls| && Enables(calls[p])
    ensures Reachable(s, calls, router) && OnlyRuns(s, calls, p, sent)
    ensures var script := Script(calls[p]);
            |sent| == |script| - 1 && !Over(script, sent) && script[|sent|] == SetState(true)
  {
    s := FirstRuns(calls, router, p);
    sent := [];
    if calls[p].Commit? {
      s := RunsOn(s, calls, router, p, []);
      s := RunsOn(s, calls, router, p, [] + [Done]);
      sent := [] + [Done] + [Done];
    }
  }

  lemma EnableIsLost(calls: seq<Call>, router: Router, p: nat) returns (s: Net)
    requires p < |calls| && Enables(calls[p])
    ensures Reachable(s, calls, router) && IdleBut(s, calls, p) && s.pending == [Stray(p, SetState(true))]
  {
    var sent;
    s, sent := UpToEnable(calls, router, p);
    var t := Net(s.base.(progress := s.base.progress[p := Running(sent + [Failed(false)])],
                         log := s.base.log + [Event(p, SetState(true), Failed(false))]),
                 [Stray(p, SetState(true))], []);
    assert [] + [Stray(p, SetState(true))] == [Stray(p, SetState(true))];
    OneMoreStep(s, t, calls, router, Losing(p));
    s := t.(base := t.base.(locked := false, progress := t.base.progress[p := Finished(sent + [Failed(false)])]));
    OneMoreStep(t, s, calls, router, Ordinary(Releasing(p)));
  }

  lemma RivalsMeet(calls: seq<Call>, router: Router, p: nat, q: nat) returns (s: Net)
    requires p < |calls| && q < |calls| && p != q && Enables(calls[p]) && Writes(calls[q])
    ensures Reachable(s, calls, router) && AboutToWrite(s.base, calls, q) && s.base.router.enabled
  {
    s := EnableIsLost(calls, router, p);
    s := Acquired(s, calls, router, q);
    AnsweredStep(s, calls, router, q);
    s := Answered(s, calls, q);
    var t := Net(s.base.(router := Act(s.base.router, SetState(true))), s.pending[..0] + s.pending[1..],
                 s.landed + [s.pending[0]]);
    OneMoreStep(s, t, calls, router, Landing(0));
    s := t;
  }

  /**
   Whatever lands when, datasets are written with the interface down in all runs of some calls
   if and only if no call enables the interface while another one writes.
   */
  lemma AlwaysDownIff(calls: seq<Call>, router: Router)
    ensures AlwaysDown(calls, router) <==> !Rivals(calls)
  {
    if p, q :| 0 <= p < |calls| && 0 <= q < |calls| && p != q && Enables(calls[p]) && Writes(calls[q]) {
      var s := RivalsMeet(calls, router, p, q);
      assert !AlwaysDown(calls, router);
    } else {
      forall s: Net, p: nat | Reachable(s, calls, router) && AboutToWrite(s.base, calls, p)
        ensures !s.base.router.enabled
      {
        WithoutRivals(calls, s, router, p);
      }
    }
  }
}
