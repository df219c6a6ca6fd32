/**
 Concurrent calls of the status endpoint on one request.

 Each call runs several database statements with no transaction around them: it marks its step, opens
 the next stage, reads the steps back, writes the derived status, and issues the grant if that status is
 "approved". Here any number of calls interleave statement by statement.
 */
module ApprovalRaces {
  import opened Options
  import opened Approvals

  datatype Kind = Approve(stepId: nat) | AskInfo(stepId: nat) | Cancel

  /** The statement a call executes next. */
  datatype Pc = Acting | Activating | Reading | Writing(status: string, reviewer: nat) | Granting | Done

  datatype Caller = Caller(kind: Kind, pc: Pc)

  datatype State = State(request: Request, callers: seq<Caller>)

  datatype Event = Arrive(kind: Kind) | Advance(caller: nat)

  function SetPc(s: State, p: nat, pc: Pc): State
    requires p < |s.callers|
  {
    s.(callers := s.callers[p := s.callers[p].(pc := pc)])
  }

  function SetSteps(s: State, steps: seq<Step>): State {
    s.(request := s.request.(steps := steps))
  }

  /** The next statement of one call. */
  function AdvanceCaller(s: State, p: nat): State
    requires p < |s.callers|
  {
    var steps, c := s.request.steps, s.callers[p];
    match c.pc
    case Acting =>
      (match c.kind
       case Approve(id) =>
         if Marks(steps, id) then SetPc(SetSteps(s, MarkStep(steps, id, Approved)), p, Activating)
         else SetPc(s, p, Done)
       case AskInfo(id) =>
         if Marks(steps, id) then SetPc(SetSteps(s, MarkStep(steps, id, NeedsInfo)), p, Reading) else SetPc(s, p, Done)
       case Cancel => SetPc(SetSteps(s, CancelOpenSteps(steps)), p, Reading))
    case Activating => SetPc(SetSteps(s, ActivateNextStage(steps)), p, Reading)
    case Reading =>
      var derived := DeriveState(steps, s.request.fallback);
      SetPc(s, p, Writing(derived.0, derived.1))
    case Writing(status, reviewer) =>
      SetPc(s.(request := s.request.(status := status, reviewer := reviewer)), p,
            if status == "approved" && c.kind.Approve? then Granting else Done)
    case Granting => SetPc(s.(request := s.request.(grants := s.request.grants + 1)), p, Done)
    case Done => s
  }

  function Step(s: State, e: Event): State {
    match e
    case Arrive(kind) => s.(callers := s.callers + [Caller(kind, Acting)])
    case Advance(p) => if p < |s.callers| then AdvanceCaller(s, p) else s
  }

  function Run(s: State, schedule: seq<Event>): State
    decreases |schedule|
  {
    if schedule == [] then s else Run(Step(s, schedule[0]), schedule[1..])
  }

  predicate WritesApproved(pc: Pc) {
    pc.Writing? && pc.status == "approved"
  }

  predicate AllDone(s: State) {
    forall p :: 0 <= p < |s.callers| ==> s.callers[p].pc == Done
  }

  /** A call that will issue the grant, if it has read or will read a fully approved chain. */
  predicate WillGrant(c: Caller) {
    c.kind.Approve? && (c.pc in {Activating, Reading, Granting} || WritesApproved(c.pc))
  }

  predicate Inv(s: State) {
    var steps := s.request.steps;
    && steps != []
    && (forall p :: 0 <= p < |s.callers| && (WritesApproved(s.callers[p].pc) || s.callers[p].pc == Granting) ==>
      AllHave(steps, Approved))
    && (s.request.grants > 0 ==> AllHave(steps, Approved))
    && (AllHave(steps, Approved) ==>
          s.request.grants > 0 || exists p :: 0 <= p < |s.callers| && WillGrant(s.callers[p]))
  }

  /** No statement of any call takes an approval back, and only a mark can complete the approvals. */
  lemma StatementsKeepApprovals(s: State, p: nat)
    requires p < |s.callers| && s.request.steps != []
    ensures var s' := AdvanceCaller(s, p);
      && s'.request.steps != []
      && (AllHave(s.request.steps, Approved) ==> AllHave(s'.request.steps, Approved))
      && (AllHave(s'.request.steps, Approved) && !AllHave(s.request.steps, Approved)
          ==> s'.callers[p].pc == Activating)
  {
    var steps, s' := s.request.steps, AdvanceCaller(s, p);
    ActivationKeepsApprovals(steps);
    if AllHave(s'.request.steps, Approved) && !AllHave(steps, Approved) {
      var i :| 0 <= i < |steps| && steps[i].status != Approved;
      assert s'.request.steps[i].status == Approved;
    }
  }

  lemma AdvanceKeepsSafety(s: State, p: nat)
    requires Inv(s) && p < |s.callers|
    ensures var s' := AdvanceCaller(s, p); var steps := s'.request.steps;
      && steps != []
      && (forall q :: 0 <= q < |s'.callers| && (WritesApproved(s'.callers[q].pc) || s'.callers[q].pc == Granting) ==>
        AllHave(steps, Approved))
      && (s'.request.grants > 0 ==> AllHave(steps, Approved))
  {
    StatementsKeepApprovals(s, p);
    DerivedApproval(s.request.steps, s.request.fallback);
  }

  lemma AdvanceKeepsPromise(s: State, p: nat)
    requires Inv(s) && p < |s.callers|
    ensures var s' := AdvanceCaller(s, p);
      AllHave(s'.request.steps, Approved) ==>
        s'.request.grants > 0 || exists q :: 0 <= q < |s'.callers| && WillGrant(s'.callers[q])
  {
    var s' := AdvanceCaller(s, p);
    StatementsKeepApprovals(s, p);
    DerivedApproval(s.request.steps, s.request.fallback);
    if AllHave(s'.request.steps, Approved) && s.request.grants == 0 {
      if AllHave(s.request.steps, Approved) {
        var q :| 0 <= q < |s.callers| && WillGrant(s.callers[q]);
        assert WillGrant(s'.callers[q]) || s'.request.grants > 0;
      } else {
        assert WillGrant(s'.callers[p]);
      }
    }
  }

  lemma StepKeepsInv(s: State, e: Event)
    requires Inv(s)
    ensures Inv(Step(s, e))
  {
    if e.Arrive? {
      if p :| 0 <= p < |s.callers| && WillGrant(s.callers[p]) {
        assert WillGrant(Step(s, e).callers[p]);
      }
    } else if e.caller < |s.callers| {
      AdvanceKeepsSafety(s, e.caller);
      AdvanceKeepsPromise(s, e.caller);
    }
  }

  lemma {:induction false} RunKeepsInv(s: State, schedule: seq<Event>)
    requires Inv(s)
    ensures Inv(Run(s, schedule))
    decreases |schedule|
  {
    if schedule != [] {
      StepKeepsInv(s, schedule[0]);
      RunKeepsInv(Step(s, schedule[0]), schedule[1..]);
    }
  }

  /**
   For every interleaving of any number of calls on a new request with a chain: a grant has been issued
   only if every step is approved, and once all calls are done it has been issued if every step is.
   */
  lemma RacingCallsGrantIffApproved(
    chain: seq<ChainStep>, ownerId: nat, fallback: nat, schedule: seq<Event>)
    requires chain != []
    requires forall i :: 0 <= i < |chain| ==> chain[i].stage > 0
    ensures var s := Run(State(Create(chain, ownerId, fallback), []), schedule);
      && (s.request.grants > 0 ==> AllHave(s.request.steps, Approved))
      && (AllDone(s) && AllHave(s.request.steps, Approved) ==> s.request.grants > 0)
  {
    CreateEstablishesInv(chain, ownerId, fallback);
    RunKeepsInv(State(Create(chain, ownerId, fallback), []), schedule);
  }

  lemma {:induction false} RunConcat(s: State, a: seq<Event>, b: seq<Event>)
    ensures Run(s, a + b) == Run(Run(s, a), b)
    decreases |a|
  {
    if a == [] {
      assert a + b == b;
    } else {
      assert (a + b)[1..] == a[1..] + b;
      RunConcat(Step(s, a[0]), a[1..], b);
    }
  }

  /** The next `n` statements of one call, with nothing in between. */
  function Alone(p: nat, n: nat): seq<Event> {
    if n == 0 then [] else [Advance(p)] + Alone(p, n - 1)
  }

  lemma RunAlone(s: State, p: nat, n: nat)
    requires p < |s.callers| && n > 0
    ensures Run(s, Alone(p, n)) == Run(AdvanceCaller(s, p), Alone(p, n - 1))
  {
    assert Alone(p, n)[1..] == Alone(p, n - 1);
  }

  // ----- how many grants are issued -----

  /** The calls that will issue a grant once every step is approved. */
  function Owing(callers: seq<Caller>, n: nat): nat
    requires n <= |callers|
  {
    if n == 0 then 0 else Owing(callers, n - 1) + if WillGrant(callers[n - 1]) then 1 else 0
  }

  function Owed(s: State): nat {
    s.request.grants + Owing(s.callers, |s.callers|)
  }

  lemma {:induction false} OwingExtends(callers: seq<Caller>, more: seq<Caller>, n: nat)
    requires n <= |callers| <= |more| && forall p :: 0 <= p < n ==> more[p] == callers[p]
    ensures Owing(more, n) == Owing(callers, n)
  {
    if n > 0 {
      OwingExtends(callers, more, n - 1);
    }
  }

  lemma {:induction false} OwingUpdate(callers: seq<Caller>, p: nat, c: Caller, n: nat)
    requires p < |callers| && n <= |callers|
    ensures Owing(callers[p := c], n) + (if p < n && WillGrant(callers[p]) then 1 else 0)
      == Owing(callers, n) + (if p < n && WillGrant(c) then 1 else 0)
  {
    if n > 0 {
      OwingUpdate(callers, p, c, n - 1);
    }
  }

  lemma {:induction false} NobodyOwes(callers: seq<Caller>, n: nat)
    requires n <= |callers| && forall p :: 0 <= p < |callers| ==> callers[p].pc == Done
    ensures Owing(callers, n) == 0
  {
    if n > 0 {
      NobodyOwes(callers, n - 1);
    }
  }

  /** Only approving calls reach the grant. */
  predicate GrantersApprove(s: State) {
    forall p :: 0 <= p < |s.callers| && s.callers[p].pc == Granting ==> s.callers[p].kind.Approve?
  }

  lemma {:induction false} RunKeepsGranters(s: State, schedule: seq<Event>)
    requires GrantersApprove(s)
    ensures GrantersApprove(Run(s, schedule))
    decreases |schedule|
  {
    if schedule != [] {
      RunKeepsGranters(Step(s, schedule[0]), schedule[1..]);
    }
  }

  predicate AllApproved(s: State) {
    s.request.steps != [] && AllHave(s.request.steps, Approved) && GrantersApprove(s)
  }

  /** Once all is approved, a call keeps its debt until it issues its grant, and no other call gets one. */
  lemma AdvanceWhenApproved(s: State, p: nat)
    requires AllApproved(s) && p < |s.callers|
    ensures var s' := AdvanceCaller(s, p);
      && AllApproved(s')
      && s'.callers == s.callers[p := s'.callers[p]]
      && s'.request.grants + (if WillGrant(s'.callers[p]) then 1 else 0)
        == s.request.grants + (if WillGrant(s.callers[p]) then 1 else 0)
  {
    DerivedApproval(s.request.steps, s.request.fallback);
    ActivationKeepsApprovals(s.request.steps);
    assert forall id :: !Marks(s.request.steps, id);
    assert CancelOpenSteps(s.request.steps) == s.request.steps;
  }

  lemma StepKeepsDebt(s: State, e: Event)
    requires AllApproved(s)
    ensures AllApproved(Step(s, e)) && Owed(Step(s, e)) == Owed(s)
  {
    var s', n := Step(s, e), |s.callers|;
    if e.Arrive? {
      OwingExtends(s.callers, s'.callers, n);
      assert !WillGrant(s'.callers[n]);
    } else if e.caller < n {
      AdvanceWhenApproved(s, e.caller);
      OwingUpdate(s.callers, e.caller, s'.callers[e.caller], n);
    }
  }

  lemma {:induction false} RunKeepsDebt(s: State, schedule: seq<Event>)
    requires AllApproved(s)
    ensures AllApproved(Run(s, schedule)) && Owed(Run(s, schedule)) == Owed(s)
    decreases |schedule|
  {
    if schedule != [] {
      StepKeepsDebt(s, schedule[0]);
      RunKeepsDebt(Step(s, schedule[0]), schedule[1..]);
    }
  }

  /**
   From the moment the chain is complete, in every interleaving, each approving call that had not derived the status
   before issues a grant of its own, and no later call does: this is how many grants there are in the end.
   */
  lemma LateReadersGrantEach(r: Request, before: seq<Event>, after: seq<Event>)
    requires var s := Run(State(r, []), before);
      s.request.steps != [] && AllHave(s.request.steps, Approved) && AllDone(Run(s, after))
    ensures var s := Run(State(r, []), before);
      Run(s, after).request.grants == s.request.grants + Owing(s.callers, |s.callers|)
  {
    var s := Run(State(r, []), before);
    RunKeepsGranters(State(r, []), before);
    RunKeepsDebt(s, after);
    var s' := Run(s, after);
    NobodyOwes(s'.callers, |s'.callers|);
  }

  // ----- when at most one grant is issued -----

  /** No schedule of any calls on the new request issues more than one grant. */
  ghost predicate GrantsAtMostOnce(r: Request) {
    forall schedule: seq<Event> :: Run(State(r, []), schedule).request.grants <= 1
  }

  predicate DistinctIds(chain: seq<ChainStep>) {
    forall i, j :: 0 <= i < j < |chain| ==> chain[i].id != chain[j].id
  }

  /** Nobody is asked, and no call is past a mark. */
  predicate Frozen(s: State) {
    && s.request.steps != [] && s.request.grants == 0
    && (forall i :: 0 <= i < |s.request.steps| ==> s.request.steps[i].status in {Waiting, Cancelled})
    && (forall p :: 0 <= p < |s.callers| ==>
      s.callers[p].pc !in {Activating, Granting} && !WritesApproved(s.callers[p].pc))
  }

  lemma FrozenSteps(s: State, p: nat)
    requires Frozen(s) && p < |s.callers|
    ensures var r := AdvanceCaller(s, p).request;
      && r.steps != [] && r.grants == 0
      && forall i :: 0 <= i < |r.steps| ==> r.steps[i].status in {Waiting, Cancelled}
  {
  }

  lemma FrozenCaller(s: State, p: nat)
    requires Frozen(s) && p < |s.callers|
    ensures var s' := AdvanceCaller(s, p);
      && s'.callers == s.callers[p := s'.callers[p]]
      && s'.callers[p].pc !in {Activating, Granting} && !WritesApproved(s'.callers[p].pc)
  {
    DerivedApproval(s.request.steps, s.request.fallback);
    assert s.request.steps[0].status != Approved;
  }

  lemma StepKeepsFrozen(s: State, e: Event)
    requires Frozen(s)
    ensures Frozen(Step(s, e))
  {
    if e.Advance? && e.caller < |s.callers| {
      FrozenSteps(s, e.caller);
      FrozenCaller(s, e.caller);
    }
  }

  lemma {:induction false} RunKeepsFrozen(s: State, schedule: seq<Event>)
    requires Frozen(s)
    ensures Frozen(Run(s, schedule))
    decreases |schedule|
  {
    if schedule != [] {
      StepKeepsFrozen(s, schedule[0]);
      RunKeepsFrozen(Step(s, schedule[0]), schedule[1..]);
    }
  }

  /** A call that has marked its step and may still issue a grant. */
  predicate Underway(c: Caller) {
    c.kind.Approve? && c.pc !in {Acting, Done}
  }

  /** The only step is marked by one call, and only that call can issue a grant. */
  predicate OneGranter(s: State) {
    && |s.request.steps| == 1 && s.request.grants <= 1
    && (forall p :: 0 <= p < |s.callers| && s.callers[p].pc == Granting ==> Underway(s.callers[p]))
    && (forall p :: 0 <= p < |s.callers| && Underway(s.callers[p]) ==>
      s.request.grants == 0 && s.request.steps[0].status == Approved)
    && (forall p, q :: 0 <= p < q < |s.callers| ==> !(Underway(s.callers[p]) && Underway(s.callers[q])))
    && (s.request.grants == 1 ==> s.request.steps[0].status == Approved)
  }

  lemma MarkKeepsOneGranter(s: State, p: nat)
    requires OneGranter(s) && p < |s.callers| && s.callers[p].pc == Acting
    ensures OneGranter(AdvanceCaller(s, p))
  {
    var steps, s' := s.request.steps, AdvanceCaller(s, p);
    assert s'.callers == s.callers[p := s'.callers[p]];
    if Underway(s'.callers[p]) {
      assert steps[0].status == Pending;
    }
  }

  lemma LaterKeepsOneGranter(s: State, p: nat)
    requires OneGranter(s) && p < |s.callers| && s.callers[p].pc != Acting
    ensures OneGranter(AdvanceCaller(s, p))
  {
    var s' := AdvanceCaller(s, p);
    assert s'.callers == s.callers[p := s'.callers[p]];
    assert Underway(s'.callers[p]) ==> Underway(s.callers[p]);
  }

  lemma StepKeepsOneGranter(s: State, e: Event)
    requires OneGranter(s)
    ensures OneGranter(Step(s, e))
  {
    if e.Advance? && e.caller < |s.callers| {
      if s.callers[e.caller].pc == Acting {
        MarkKeepsOneGranter(s, e.caller);
      } else {
        LaterKeepsOneGranter(s, e.caller);
      }
    }
  }

  lemma {:induction false} RunKeepsOneGranter(s: State, schedule: seq<Event>)
    requires OneGranter(s)
    ensures OneGranter(Run(s, schedule))
    decreases |schedule|
  {
    if schedule != [] {
      StepKeepsOneGranter(s, schedule[0]);
      RunKeepsOneGranter(Step(s, schedule[0]), schedule[1..]);
    }
  }

  /** Approving calls that have opened the next stage and not read yet; each approved step is one of theirs. */
  predicate Gathered(s: State) {
    && (forall p :: 0 <= p < |s.callers| ==> s.callers[p].kind.Approve? && s.callers[p].pc == Reading)
    && forall i :: 0 <= i < |s.request.steps| && s.request.steps[i].status == Approved ==>
      MarkedBySome(s.callers, s.request.steps[i].id)
  }

  predicate MarkedBySome(callers: seq<Caller>, id: nat) {
    exists p :: 0 <= p < |callers| && callers[p].kind == Approve(id)
  }

  predicate SameIds(steps: seq<Step>, steps': seq<Step>) {
    |steps| == |steps'| && forall i :: 0 <= i < |steps| ==> steps[i].id == steps'[i].id
  }

  /** One more call arrives, marks a pending step and opens the next stage. */
  lemma GatherOne(s: State, id: nat) returns (schedule: seq<Event>)
    requires Marks(s.request.steps, id)
    ensures Run(s, schedule) == State(
      s.request.(steps := ActivateNextStage(MarkStep(s.request.steps, id, Approved))),
      s.callers + [Caller(Approve(id), Reading)])
  {
    var n := |s.callers|;
    var s1 := Step(s, Arrive(Approve(id)));
    var s2 := AdvanceCaller(s1, n);
    assert s2.callers == s.callers + [Caller(Approve(id), Activating)];
    var s3 := AdvanceCaller(s2, n);
    assert s3.callers == s.callers + [Caller(Approve(id), Reading)];
    schedule := [Arrive(Approve(id))] + Alone(n, 2);
    assert schedule[1..] == Alone(n, 2);
    RunAlone(s1, n, 2);
    RunAlone(s2, n, 1);
  }

  lemma MarkedStaysGathered(s: State, s': State, id: nat)
    requires Gathered(s) && s'.callers == s.callers + [Caller(Approve(id), Reading)]
    requires s'.request.steps == ActivateNextStage(MarkStep(s.request.steps, id, Approved))
    ensures Gathered(s') && SameIds(s.request.steps, s'.request.steps)
  {
    forall i | 0 <= i < |s'.request.steps| && s'.request.steps[i].status == Approved
      ensures MarkedBySome(s'.callers, s'.request.steps[i].id)
    {
      if s.request.steps[i].status == Approved {
        var p :| 0 <= p < |s.callers| && s.callers[p].kind == Approve(s.request.steps[i].id);
        assert s'.callers[p] == s.callers[p];
      } else {
        assert s'.callers[|s.callers|].kind == Approve(id);
      }
    }
  }

  /** Approving calls can complete the chain without any of them having read it. */
  lemma {:induction false} GatherAll(s: State) returns (schedule: seq<Event>)
    requires s.request.steps != [] && Undisturbed(s.request.steps) && NotStuck(s.request.steps) && Gathered(s)
    ensures var s' := Run(s, schedule);
      && AllApproved(s') && Gathered(s') && SameIds(s.request.steps, s'.request.steps)
      && s'.request.grants == s.request.grants
    decreases Unapproved(s.request.steps)
  {
    if AllHave(s.request.steps, Approved) {
      return [];
    }
    var p :| 0 <= p < |s.request.steps| && s.request.steps[p].status == Pending;
    var id := s.request.steps[p].id;
    assert Marks(s.request.steps, id);
    var first := GatherOne(s, id);
    var s1 := Run(s, first);
    MarkedStaysGathered(s, s1, id);
    MarkingProgresses(s.request.steps, p);
    var rest := GatherAll(s1);
    RunConcat(s, first, rest);
    schedule := first + rest;
  }

  /** A call that reads a complete chain and goes on alone issues a grant. */
  lemma ReaderGrants(s: State, p: nat)
    requires AllApproved(s) && p < |s.callers| && s.callers[p].kind.Approve? && s.callers[p].pc == Reading
    ensures var s' := Run(s, Alone(p, 3));
      && s'.request.steps == s.request.steps && s'.request.grants == s.request.grants + 1
      && s'.request.status == "approved"
      && s'.callers == SetPc(s, p, Done).callers
  {
    DerivedApproval(s.request.steps, s.request.fallback);
    RunAlone(s, p, 3);
    var s1 := AdvanceCaller(s, p);
    assert WritesApproved(s1.callers[p].pc);
    RunAlone(s1, p, 2);
    var s2 := AdvanceCaller(s1, p);
    assert s2.callers == SetPc(s, p, Granting).callers;
    RunAlone(s2, p, 1);
    assert AdvanceCaller(s2, p).callers == SetPc(s, p, Done).callers;
  }

  /** Two gathered calls both issue a grant. */
  lemma TwoReadersGrant(s: State, p: nat, q: nat)
    requires AllApproved(s) && Gathered(s) && p < |s.callers| && q < |s.callers| && p != q
    ensures Run(s, Alone(p, 3) + Alone(q, 3)).request.grants == s.request.grants + 2
  {
    ReaderGrants(s, p);
    ReaderGrants(Run(s, Alone(p, 3)), q);
    RunConcat(s, Alone(p, 3), Alone(q, 3));
  }

  /** A chain of two steps or more, of which one can be approved, can be granted twice. */
  lemma RacingReviewersGrantTwice(chain: seq<ChainStep>, ownerId: nat, fallback: nat) returns (schedule: seq<Event>)
    requires |chain| > 1 && DistinctIds(chain) && HasStage1(chain)
    ensures Run(State(Create(chain, ownerId, fallback), []), schedule).request.grants == 2
  {
    var s := State(Create(chain, ownerId, fallback), []);
    NewRequest(chain, ownerId, fallback);
    var gathering := GatherAll(s);
    var s' := Run(s, gathering);
    assert s'.request.steps[0].id == chain[0].id && s'.request.steps[1].id == chain[1].id;
    var p :| 0 <= p < |s'.callers| && s'.callers[p].kind == Approve(s'.request.steps[0].id);
    var q :| 0 <= q < |s'.callers| && s'.callers[q].kind == Approve(s'.request.steps[1].id);
    TwoReadersGrant(s', p, q);
    RunConcat(s, gathering, Alone(p, 3) + Alone(q, 3));
    schedule := gathering + (Alone(p, 3) + Alone(q, 3));
  }

  lemma NewRequest(chain: seq<ChainStep>, ownerId: nat, fallback: nat)
    requires chain != []
    ensures var r := Create(chain, ownerId, fallback);
      r.steps == InitialSteps(chain) && r.grants == 0 && (HasStage1(chain) <==> SomebodyCanAct(r.steps))
  {
    var steps := InitialSteps(chain);
    DerivedApproval(steps, fallback);
    assert steps[0].status != Approved;
    if HasStage1(chain) {
      var i :| 0 <= i < |chain| && chain[i].stage == 1;
      assert steps[i].status == Pending;
    }
  }

  /**
   For every chain with distinct step ids: no interleaving of any calls on the new request issues its grant twice if
   and only if the chain has a single step, or no stage numbered 1, so that the calls cannot approve anything.
   */
  lemma GrantsAtMostOnceIff(chain: seq<ChainStep>, ownerId: nat, fallback: nat)
    requires chain != [] && DistinctIds(chain)
    ensures GrantsAtMostOnce(Create(chain, ownerId, fallback)) <==> |chain| == 1 || !HasStage1(chain)
  {
    var s := State(Create(chain, ownerId, fallback), []);
    NewRequest(chain, ownerId, fallback);
    if |chain| == 1 || !HasStage1(chain) {
      forall schedule: seq<Event> ensures Run(s, schedule).request.grants <= 1 {
        if |chain| == 1 {
          RunKeepsOneGranter(s, schedule);
        } else {
          RunKeepsFrozen(s, schedule);
        }
      }
    } else {
      var schedule := RacingReviewersGrantTwice(chain, ownerId, fallback);
      assert Run(s, schedule).request.grants == 2;
    }
  }

  // ----- a call on its own -----

  /** What the service does when the call runs without interruption; a refused call leaves the request alone. */
  function Served(r: Request, kind: Kind): Request {
    var answer :=
      match kind
      case Approve(id) => UpdateStatus(r, "approved", Some(id))
      case AskInfo(id) => UpdateStatus(r, "needs-info", Some(id))
      case Cancel => UpdateStatus(r, "cancelled", None);
    if answer.Some? then answer.value else r
  }

  lemma SoloApproval(s: State, p: nat, id: nat) returns (n: nat)
    requires p < |s.callers| && s.callers[p] == Caller(Approve(id), Acting) && Marks(s.request.steps, id)
    ensures var s' := Run(s, Alone(p, n));
      && s'.request == Served(s.request, Approve(id))
      && s'.callers == SetPc(s, p, Done).callers
  {
    var s1 := AdvanceCaller(s, p);
    var s2 := AdvanceCaller(s1, p);
    var rest := ReadAndWrite(s2, p);
    n := rest + 2;
    RunAlone(s, p, n);
    RunAlone(s1, p, n - 1);
  }

  lemma SoloOther(s: State, p: nat, s1: State) returns (n: nat)
    requires p < |s.callers| && s.callers[p].pc == Acting && s.request.steps != []
    requires s1 == AdvanceCaller(s, p) && s1.callers[p].pc == Reading
    ensures var s' := Run(s, Alone(p, n));
      && s'.request == Served(s.request, s.callers[p].kind)
      && s'.callers == SetPc(s, p, Done).callers
  {
    var rest := ReadAndWrite(s1, p);
    n := rest + 1;
    RunAlone(s, p, n);
    NoApprovalWithout(s, s1, p);
  }

  /** The state machine of one call, run on its own to the end, is the service method. */
  lemma SoloCallIsUpdateStatus(s: State, p: nat) returns (n: nat)
    requires p < |s.callers| && s.callers[p].pc == Acting && s.request.steps != []
    ensures var s' := Run(s, Alone(p, n));
      && s'.request == Served(s.request, s.callers[p].kind)
      && s'.callers == SetPc(s, p, Done).callers
  {
    var kind, s1 := s.callers[p].kind, AdvanceCaller(s, p);
    if s1.callers[p].pc == Reading {
      n := SoloOther(s, p, s1);
    } else if kind.Approve? && Marks(s.request.steps, kind.stepId) {
      n := SoloApproval(s, p, kind.stepId);
    } else {
      n := 1;
      RunAlone(s, p, 1);
    }
  }

  lemma NoApprovalWithout(s: State, s1: State, p: nat)
    requires p < |s.callers| && s.callers[p].pc == Acting && s1 == AdvanceCaller(s, p) && s1.callers[p].pc == Reading
    ensures !s.callers[p].kind.Approve?
  {
  }

  /** From reading on: the derived status is written, and an approving call issues the grant if that is "approved". */
  lemma ReadAndWrite(s: State, p: nat) returns (n: nat)
    requires p < |s.callers| && s.callers[p].pc == Reading
    ensures var s' := Run(s, Alone(p, n));
      var derived := DeriveState(s.request.steps, s.request.fallback);
      && s'.request == s.request.(status := derived.0, reviewer := derived.1, grants := s.request.grants
        + if derived.0 == "approved" && s.callers[p].kind.Approve? then 1 else 0)
      && s'.callers == SetPc(s, p, Done).callers
  {
    var derived := DeriveState(s.request.steps, s.request.fallback);
    var s1 := AdvanceCaller(s, p);
    assert s1 == SetPc(s, p, Writing(derived.0, derived.1));
    var s2 := AdvanceCaller(s1, p);
    if derived.0 == "approved" && s.callers[p].kind.Approve? {
      n := 3;
      RunAlone(s, p, 3);
      RunAlone(s1, p, 2);
      RunAlone(s2, p, 1);
      assert AdvanceCaller(s2, p).callers == SetPc(s, p, Done).callers;
    } else {
      n := 2;
      RunAlone(s, p, 2);
      RunAlone(s1, p, 1);
      assert s2.callers == SetPc(s, p, Done).callers;
    }
  }
}
