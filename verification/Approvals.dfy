/**
 The approval chain of a permission request.

 A request carries a list of approval steps grouped in stages. Reviewers approve steps, ask for more
 information, or cancel; the service derives the request's status from the steps and issues the grant
 when the status becomes "approved". The functions below are the SQL statements of the adapter and the
 service code over them; the class is the service itself, updating the stored request.
 */
module Approvals {
  import opened Options

  datatype StepStatus = Waiting | Pending | Approved | NeedsInfo | Cancelled

  /** `teamRank` is the place of the approving team's name in the alphabetic order. */
  datatype Step = Step(id: nat, stage: int, team: nat, teamRank: nat, status: StepStatus)

  /**
   One request as stored, with the number of times its grant has been issued. `fallback` is the default
   reviewer of the requested resource.
   */
  datatype Request = Request(steps: seq<Step>, status: string, reviewer: nat, grants: nat, fallback: nat)

  // ----- statements of the approval-step table -----

  predicate Marks(steps: seq<Step>, id: nat) {
    exists i :: 0 <= i < |steps| && steps[i].id == id && steps[i].status == Pending
  }

  function MarkStep(steps: seq<Step>, id: nat, status: StepStatus): (r: seq<Step>)
    ensures |r| == |steps|
  {
    seq(|steps|, i requires 0 <= i < |steps| =>
      if steps[i].id == id && steps[i].status == Pending then steps[i].(status := status) else steps[i])
  }

  function CancelOpenSteps(steps: seq<Step>): (r: seq<Step>)
    ensures |r| == |steps|
  {
    seq(|steps|, i requires 0 <= i < |steps| =>
      if steps[i].status in {Waiting, Pending} then steps[i].(status := Cancelled) else steps[i])
  }

  function ApproveAllSteps(steps: seq<Step>): (r: seq<Step>)
    ensures |r| == |steps|
  {
    seq(|steps|, i requires 0 <= i < |steps| =>
      if steps[i].status in {Waiting, Pending, NeedsInfo} then steps[i].(status := Approved) else steps[i])
  }

  /** The lowest stage that holds a step of the given status. */
  function LowestStage(steps: seq<Step>, status: StepStatus): (lowest: Option<int>)
    ensures lowest == None <==> forall i :: 0 <= i < |steps| ==> steps[i].status != status
    ensures lowest.Some? ==>
      && (exists i :: 0 <= i < |steps| && steps[i].status == status && steps[i].stage == lowest.value)
      && (forall i :: 0 <= i < |steps| && steps[i].status == status ==> lowest.value <= steps[i].stage)
  {
    if steps == [] then None
    else
      var last := steps[|steps| - 1];
      var before := LowestStage(steps[..|steps| - 1], status);
      if last.status == status && (before == None || last.stage < before.value) then Some(last.stage) else before
  }

  /** The next waiting stage opens once no step of an earlier stage is short of approval. */
  predicate StageBlocked(steps: seq<Step>, stage: int) {
    exists i :: 0 <= i < |steps| && steps[i].stage < stage && steps[i].status != Approved
  }

  function ActivateNextStage(steps: seq<Step>): (r: seq<Step>)
    ensures |r| == |steps|
  {
    match LowestStage(steps, Waiting)
    case None => steps
    case Some(stage) =>
      if StageBlocked(steps, stage) then
        steps
      else
        seq(|steps|, i requires 0 <= i < |steps| =>
          if steps[i].stage == stage && steps[i].status == Waiting then steps[i].(status := Pending) else steps[i])
  }

  // ----- the service's decisions -----

  /** A pending step of the lowest pending stage. */
  predicate IsCurrent(steps: seq<Step>, i: nat)
    requires i < |steps|
  {
    steps[i].status == Pending && LowestStage(steps, Pending) == Some(steps[i].stage)
  }

  /** The first current step in order of stage and team name, among the first `n`. */
  function FirstCurrent(steps: seq<Step>, n: nat): (first: Option<nat>)
    requires n <= |steps|
    ensures first.Some? ==> first.value < n && IsCurrent(steps, first.value)
    ensures first == None <==> forall i :: 0 <= i < n ==> !IsCurrent(steps, i)
    ensures first.Some? ==> forall i :: 0 <= i < n && IsCurrent(steps, i) ==>
      steps[first.value].teamRank <= steps[i].teamRank
  {
    if n == 0 then None
    else
      var before := FirstCurrent(steps, n - 1);
      if IsCurrent(steps, n - 1) && (before == None || steps[n - 1].teamRank < steps[before.value].teamRank)
      then Some(n - 1) else before
  }

  function FirstWithStatus(steps: seq<Step>, status: StepStatus): (first: Option<Step>)
    ensures first == None <==> forall i :: 0 <= i < |steps| ==> steps[i].status != status
    ensures first.Some? ==> first.value in steps && first.value.status == status
  {
    if steps == [] then None
    else if steps[0].status == status then Some(steps[0])
    else FirstWithStatus(steps[1..], status)
  }

  predicate AllHave(steps: seq<Step>, status: StepStatus) {
    forall i :: 0 <= i < |steps| ==> steps[i].status == status
  }

  /** The request's status and reviewer, derived from its steps. */
  function DeriveState(steps: seq<Step>, fallback: nat): (string, nat) {
    if steps == [] then ("approved", fallback)
    else if FirstWithStatus(steps, NeedsInfo).Some? then ("needs-info", FirstWithStatus(steps, NeedsInfo).value.team)
    else if FirstCurrent(steps, |steps|).Some? then ("ready", steps[FirstCurrent(steps, |steps|).value].team)
    else if AllHave(steps, Approved) then ("approved", steps[|steps| - 1].team)
    else if AllHave(steps, Cancelled) then ("cancelled", steps[|steps| - 1].team)
    else ("pending",
          match FirstWithStatus(steps, Waiting) case Some(step) => step.team case None => fallback)
  }

  function SyncRequestState(r: Request): Request {
    r.(status := DeriveState(r.steps, r.fallback).0, reviewer := DeriveState(r.steps, r.fallback).1)
  }

  function CurrentIds(steps: seq<Step>, n: nat): seq<nat>
    requires n <= |steps|
  {
    if n == 0 then []
    else CurrentIds(steps, n - 1) + (if IsCurrent(steps, n - 1) then [steps[n - 1].id] else [])
  }

  /** The step an action is aimed at: the named one, or the only current one. */
  function ResolveTarget(steps: seq<Step>, requested: Option<nat>): Option<nat> {
    if requested.Some? then requested
    else
      var current := CurrentIds(steps, |steps|);
      if |current| == 1 then Some(current[0]) else None
  }

  const VALID_STATUSES: set<string> := {"pending", "ready", "needs-info", "approved", "cancelled"}

  /** One call of the status endpoint. `None` is an error answer, which leaves the request as it was. */
  function UpdateStatus(r: Request, status: string, stepId: Option<nat>): Option<Request> {
    if status !in VALID_STATUSES then None
    else if status == "cancelled" then Some(SyncRequestState(r.(steps := CancelOpenSteps(r.steps))))
    else if status == "approved" then
      if r.steps == [] then Some(r.(status := "approved", grants := r.grants + 1))
      else
        var target := ResolveTarget(r.steps, stepId);
        if target == None || !Marks(r.steps, target.value) then None
        else
          var marked := MarkStep(r.steps, target.value, Approved);
          var synced := SyncRequestState(r.(steps := ActivateNextStage(marked)));
          Some(if synced.status == "approved" then synced.(grants := r.grants + 1) else synced)
    else if status == "needs-info" then
      var target := ResolveTarget(r.steps, stepId);
      if target == None || !Marks(r.steps, target.value) then None
      else Some(SyncRequestState(r.(steps := MarkStep(r.steps, target.value, NeedsInfo))))
    else Some(r.(status := status))
  }

  /** One request's part of a bulk approval. */
  function BulkApprove(r: Request): Request {
    r.(steps := ApproveAllSteps(r.steps), status := "approved",
       grants := if r.status != "approved" then r.grants + 1 else r.grants)
  }

  /** A stage of the policy's chain: its number and approver. */
  datatype ChainStep = ChainStep(id: nat, stage: int, team: nat, teamRank: nat)

  function InitialSteps(chain: seq<ChainStep>): (steps: seq<Step>)
    ensures |steps| == |chain|
  {
    seq(|chain|, i requires 0 <= i < |chain| =>
      Step(chain[i].id, chain[i].stage, chain[i].team, chain[i].teamRank,
           if chain[i].stage == 1 then Pending else Waiting))
  }

  /** A new request: without a chain it is approved and granted at once. */
  function Create(chain: seq<ChainStep>, ownerId: nat, fallback: nat): Request {
    if chain == [] then Request([], "approved", ownerId, 1, fallback)
    else
      var r := SyncRequestState(Request(InitialSteps(chain), "pending", fallback, 0, fallback));
      if r.status == "approved" then r.(grants := 1) else r
  }

  // ----- the service, updating the stored request -----

  class RequestRecord {
    var steps: seq<Step>
    var status: string
    var reviewer: nat
    var grants: nat
    const fallback: nat

    ghost function View(): Request
      reads this
    {
      Request(steps, status, reviewer, grants, fallback)
    }

    constructor (chain: seq<ChainStep>, ownerId: nat, fallback: nat)
      ensures View() == Create(chain, ownerId, fallback)
    {
      this.fallback := fallback;
      steps := InitialSteps(chain);
      grants := 0;
      if chain == [] {
        status, reviewer := "approved", ownerId;
      } else {
        var derived := DeriveState(InitialSteps(chain), fallback);
        status, reviewer := derived.0, derived.1;
      }
      new;
      if status == "approved" {
        grants := 1;
      }
    }

    method Sync()
      modifies this`status, this`reviewer
      ensures View() == SyncRequestState(old(View()))
    {
      var derived := DeriveState(steps, fallback);
      status, reviewer := derived.0, derived.1;
    }

    method MarkApprovalStep(id: nat, newStatus: StepStatus) returns (marked: bool)
      modifies this`steps
      ensures marked == Marks(old(steps), id)
      ensures View() == old(View()).(steps := MarkStep(old(steps), id, newStatus))
      ensures !marked ==> steps == old(steps)
    {
      marked := exists i :: 0 <= i < |steps| && steps[i].id == id && steps[i].status == Pending;
      steps := MarkStep(steps, id, newStatus);
    }

    method UpdateRequestStatus(newStatus: string, stepId: Option<nat>) returns (ok: bool)
      modifies this
      ensures ok == UpdateStatus(old(View()), newStatus, stepId).Some?
      ensures View() == if ok then UpdateStatus(old(View()), newStatus, stepId).value else old(View())
    {
      if newStatus !in VALID_STATUSES {
        return false;
      }
      if newStatus == "cancelled" {
        steps := CancelOpenSteps(steps);
        Sync();
      } else if newStatus == "approved" {
        if steps == [] {
          status := "approved";
          grants := grants + 1;
          return true;
        }
        var target := ResolveTarget(steps, stepId);
        if target == None {
          return false;
        }
        var marked := MarkApprovalStep(target.value, Approved);
        if !marked {
          return false;
        }
        steps := ActivateNextStage(steps);
        Sync();
        if status == "approved" {
          grants := grants + 1;
        }
      } else if newStatus == "needs-info" {
        var target := ResolveTarget(steps, stepId);
        if target == None {
          return false;
        }
        var marked := MarkApprovalStep(target.value, NeedsInfo);
        if !marked {
          return false;
        }
        Sync();
      } else {
        status := newStatus;
      }
      return true;
    }

    method ApproveInBulk()
      modifies this
      ensures View() == BulkApprove(old(View()))
    {
      var before := status;
      steps := ApproveAllSteps(steps);
      if before != "approved" {
        grants := grants + 1;
      }
      status := "approved";
    }
  }

  // ----- runs of the status endpoint -----

  datatype Call = Call(status: string, stepId: Option<nat>)

  function After(r: Request, call: Call): Request {
    var answer := UpdateStatus(r, call.status, call.stepId);
    if answer.Some? then answer.value else r
  }

  function Run(r: Request, calls: seq<Call>): Request
    decreases |calls|
  {
    if calls == [] then r else Run(After(r, calls[0]), calls[1..])
  }

  predicate Started(step: Step) {
    step.status in {Pending, Approved, NeedsInfo}
  }

  /** Stages are taken in order: nothing has started while an earlier stage lacks an approval. */
  predicate StageOrder(steps: seq<Step>) {
    forall i, j :: 0 <= i < |steps| && 0 <= j < |steps| && Started(steps[i]) && steps[j].stage < steps[i].stage
      ==> steps[j].status == Approved
  }

  /** Nobody has asked for information or cancelled. */
  predicate Undisturbed(steps: seq<Step>) {
    forall i :: 0 <= i < |steps| ==> steps[i].status in {Waiting, Pending, Approved}
  }

  predicate SomebodyCanAct(steps: seq<Step>) {
    exists i :: 0 <= i < |steps| && steps[i].status == Pending
  }

  predicate HasStage1(chain: seq<ChainStep>) {
    exists i :: 0 <= i < |chain| && chain[i].stage == 1
  }

  /** The grant has been issued exactly once if every step is approved, and not at all otherwise. */
  predicate GrantMatchesApprovals(r: Request) {
    r.grants == if AllHave(r.steps, Approved) then 1 else 0
  }

  predicate Inv(r: Request) {
    r.steps != [] && GrantMatchesApprovals(r) && StageOrder(r.steps)
  }

  lemma DerivedApproval(steps: seq<Step>, fallback: nat)
    requires steps != []
    ensures DeriveState(steps, fallback).0 == "approved" <==> AllHave(steps, Approved)
  {
    if AllHave(steps, Approved) {
      assert FirstWithStatus(steps, NeedsInfo) == None;
    } else {
      var i :| 0 <= i < |steps| && steps[i].status != Approved;
      assert AllHave(steps, Cancelled) ==> steps[i].status == Cancelled;
    }
  }

  lemma CreateEstablishesInv(chain: seq<ChainStep>, ownerId: nat, fallback: nat)
    requires chain != []
    requires forall i :: 0 <= i < |chain| ==> chain[i].stage > 0
    ensures Inv(Create(chain, ownerId, fallback))
  {
    var steps := InitialSteps(chain);
    DerivedApproval(steps, fallback);
    assert steps[0].status != Approved;
  }

  lemma ActivationKeepsApprovals(steps: seq<Step>)
    ensures AllHave(ActivateNextStage(steps), Approved) <==> AllHave(steps, Approved)
    ensures StageOrder(steps) ==> StageOrder(ActivateNextStage(steps))
  {
    var after := ActivateNextStage(steps);
    if AllHave(after, Approved) {
      forall i | 0 <= i < |steps|
        ensures steps[i].status == Approved
      {
        assert after[i].status == Approved;
      }
    }
    if AllHave(steps, Approved) {
      assert LowestStage(steps, Waiting) == None;
    }
  }

  lemma CancelKeepsInv(r: Request)
    requires Inv(r)
    ensures Inv(SyncRequestState(r.(steps := CancelOpenSteps(r.steps))))
  {
    var after := CancelOpenSteps(r.steps);
    if AllHave(after, Approved) {
      forall i | 0 <= i < |r.steps|
        ensures r.steps[i].status == Approved
      {
        assert after[i].status == Approved;
      }
    }
  }

  /** A mark finds a pending step, so the chain was not complete and nothing had been granted. */
  lemma MarkKeepsOrder(r: Request, target: nat, status: StepStatus)
    requires Inv(r) && Marks(r.steps, target) && status in {Approved, NeedsInfo}
    ensures r.grants == 0 && StageOrder(MarkStep(r.steps, target, status))
    ensures status == NeedsInfo ==> !AllHave(MarkStep(r.steps, target, status), Approved)
  {
    var p :| 0 <= p < |r.steps| && r.steps[p].id == target && r.steps[p].status == Pending;
    assert MarkStep(r.steps, target, status)[p].status == status;
  }

  lemma CallKeepsInv(r: Request, call: Call)
    requires Inv(r)
    ensures Inv(After(r, call))
  {
    if UpdateStatus(r, call.status, call.stepId) == None || call.status in {"pending", "ready"} {
    } else if call.status == "cancelled" {
      CancelKeepsInv(r);
    } else {
      var target := ResolveTarget(r.steps, call.stepId).value;
      var marked := MarkStep(r.steps, target, if call.status == "approved" then Approved else NeedsInfo);
      MarkKeepsOrder(r, target, if call.status == "approved" then Approved else NeedsInfo);
      ActivationKeepsApprovals(marked);
      DerivedApproval(ActivateNextStage(marked), r.fallback);
    }
  }

  lemma {:induction false} RunKeepsInv(r: Request, calls: seq<Call>)
    requires Inv(r)
    ensures Inv(Run(r, calls))
    decreases |calls|
  {
    if calls != [] {
      CallKeepsInv(r, calls[0]);
      RunKeepsInv(After(r, calls[0]), calls[1..]);
    }
  }

  /**
   Approval safety: from a new request with a chain, after any calls whatever, the grant has been issued
   exactly once if every step is approved and never otherwise; and no step was opened or approved before
   every step of the earlier stages was.
   */
  lemma GrantIssuedOnceWhenAllApproved(chain: seq<ChainStep>, ownerId: nat, fallback: nat, calls: seq<Call>)
    requires chain != []
    requires forall i :: 0 <= i < |chain| ==> chain[i].stage > 0
    ensures var r := Run(Create(chain, ownerId, fallback), calls);
      && r.grants == (if AllHave(r.steps, Approved) then 1 else 0)
      && StageOrder(r.steps)
  {
    CreateEstablishesInv(chain, ownerId, fallback);
    RunKeepsInv(Create(chain, ownerId, fallback), calls);
  }

  /** Without a chain the "at most once" half fails: the request is granted on creation and again by every approval. */
  lemma {:induction false} EmptyChainGrantsEveryTime(r: Request, n: nat, stepId: Option<nat>)
    requires r.steps == []
    ensures Run(r, seq(n, i => Call("approved", stepId))).grants == r.grants + n
    decreases n
  {
    var calls := seq(n, i => Call("approved", stepId));
    if n > 0 {
      assert calls[1..] == seq(n - 1, i => Call("approved", stepId));
      EmptyChainGrantsEveryTime(After(r, calls[0]), n - 1, stepId);
    }
  }

  /** Every pending step is a current one, so naming a pending step is naming one the queue shows. */
  lemma PendingIsCurrent(steps: seq<Step>, i: nat)
    requires StageOrder(steps) && i < |steps| && steps[i].status == Pending
    ensures IsCurrent(steps, i)
  {
    var lowest := LowestStage(steps, Pending).value;
    var j :| 0 <= j < |steps| && steps[j].status == Pending && steps[j].stage == lowest;
  }

  // ----- progress -----

  /** While nobody disturbs the chain, somebody can act or everything is approved. */
  predicate NotStuck(steps: seq<Step>) {
    Undisturbed(steps) ==> AllHave(steps, Approved) || SomebodyCanAct(steps)
  }

  lemma ActivationUnsticks(steps: seq<Step>)
    ensures NotStuck(ActivateNextStage(steps))
  {
    var after := ActivateNextStage(steps);
    if Undisturbed(after) {
      var lowest := LowestStage(steps, Waiting);
      if lowest == None {
        assert AllHave(steps, Approved) || SomebodyCanAct(steps);
      } else if StageBlocked(steps, lowest.value) {
        var b :| 0 <= b < |steps| && steps[b].stage < lowest.value && steps[b].status != Approved;
        assert after[b].status == Pending;
      } else {
        var w :| 0 <= w < |steps| && steps[w].status == Waiting && steps[w].stage == lowest.value;
        assert after[w].status == Pending;
      }
    }
  }

  lemma CallKeepsNotStuck(r: Request, call: Call)
    requires r.steps != [] && NotStuck(r.steps)
    ensures After(r, call).steps != [] && NotStuck(After(r, call).steps)
  {
    var steps' := After(r, call).steps;
    if UpdateStatus(r, call.status, call.stepId) == None || call.status in {"pending", "ready"} {
    } else if call.status == "approved" {
      ActivationUnsticks(MarkStep(r.steps, ResolveTarget(r.steps, call.stepId).value, Approved));
    } else if call.status == "needs-info" {
      var target := ResolveTarget(r.steps, call.stepId).value;
      var p :| 0 <= p < |r.steps| && r.steps[p].id == target && r.steps[p].status == Pending;
      assert steps'[p].status == NeedsInfo;
    } else if Undisturbed(steps') {
      forall i | 0 <= i < |steps'|
        ensures r.steps[i].status == Approved && steps'[i] == r.steps[i]
      {
        assert steps'[i].status in {Waiting, Pending, Approved};
      }
    }
  }

  lemma {:induction false} RunKeepsNotStuck(r: Request, calls: seq<Call>)
    requires r.steps != [] && NotStuck(r.steps)
    ensures NotStuck(Run(r, calls).steps)
    decreases |calls|
  {
    if calls != [] {
      CallKeepsNotStuck(r, calls[0]);
      RunKeepsNotStuck(After(r, calls[0]), calls[1..]);
    }
  }

  /** No call can act on a request in which nobody is asked, so it is never granted. */
  lemma {:induction false} StuckNeverGranted(r: Request, calls: seq<Call>)
    requires r.steps != [] && !SomebodyCanAct(r.steps) && !AllHave(r.steps, Approved)
    ensures Run(r, calls).grants == r.grants && !SomebodyCanAct(Run(r, calls).steps)
    ensures !AllHave(Run(r, calls).steps, Approved)
    decreases |calls|
  {
    if calls != [] {
      var r' := After(r, calls[0]);
      assert forall id :: !Marks(r.steps, id);
      var i :| 0 <= i < |r.steps| && r.steps[i].status != Approved;
      assert r'.steps[i].status != Approved;
      assert !SomebodyCanAct(r'.steps);
      StuckNeverGranted(r', calls[1..]);
    }
  }

  ghost predicate NeverStuck(r: Request) {
    forall calls: seq<Call> :: NotStuck(Run(r, calls).steps)
  }

  /**
   Deadlock freedom, exactly: a new request stays actionable through every run, until it is fully
   approved or somebody asks for information or cancels, if and only if its chain has a stage numbered 1.
   */
  lemma NeverStuckIffStage1(chain: seq<ChainStep>, ownerId: nat, fallback: nat)
    requires chain != []
    ensures NeverStuck(Create(chain, ownerId, fallback)) <==> HasStage1(chain)
  {
    var r := Create(chain, ownerId, fallback);
    var steps := InitialSteps(chain);
    assert r.steps == steps;
    assert steps[0].status != Approved;
    if HasStage1(chain) {
      var i :| 0 <= i < |chain| && chain[i].stage == 1;
      assert steps[i].status == Pending;
      forall calls: seq<Call>
        ensures NotStuck(Run(r, calls).steps)
      {
        RunKeepsNotStuck(r, calls);
      }
    } else {
      assert Undisturbed(steps) && !SomebodyCanAct(steps) && !AllHave(steps, Approved);
      var none: seq<Call> := [];
      assert Run(r, none) == r;
    }
  }

  function Unapproved(steps: seq<Step>): nat {
    if steps == [] then 0 else (if steps[0].status == Approved then 0 else 1) + Unapproved(steps[1..])
  }

  lemma {:induction false} UnapprovedDrops(before: seq<Step>, after: seq<Step>)
    requires |before| == |after|
    requires forall i :: 0 <= i < |before| && before[i].status == Approved ==> after[i].status == Approved
    ensures Unapproved(after) <= Unapproved(before)
    ensures (exists i :: 0 <= i < |before| && before[i].status != Approved && after[i].status == Approved)
      ==> Unapproved(after) < Unapproved(before)
  {
    if before != [] {
      UnapprovedDrops(before[1..], after[1..]);
      if i :| 0 <= i < |before| && before[i].status != Approved && after[i].status == Approved {
        if i > 0 {
          assert before[1..][i - 1].status != Approved && after[1..][i - 1].status == Approved;
        }
      }
    }
  }

  lemma MarkingDisturbsNobody(steps: seq<Step>, id: nat)
    requires Undisturbed(steps)
    ensures Undisturbed(ActivateNextStage(MarkStep(steps, id, Approved)))
  {
  }

  /** Approving a pending step makes progress, and leaves the chain undisturbed and actionable. */
  lemma MarkingProgresses(steps: seq<Step>, p: nat)
    requires Undisturbed(steps) && p < |steps| && steps[p].status == Pending
    ensures var after := ActivateNextStage(MarkStep(steps, steps[p].id, Approved));
      Undisturbed(after) && NotStuck(after) && Unapproved(after) < Unapproved(steps)
  {
    var marked := MarkStep(steps, steps[p].id, Approved);
    MarkingDisturbsNobody(steps, steps[p].id);
    ActivationUnsticks(marked);
    var after := ActivateNextStage(marked);
    assert marked[p].status == Approved && after[p].status == Approved;
    UnapprovedDrops(steps, after);
  }

  lemma ApprovePendingStep(r: Request, p: nat)
    requires Inv(r) && Undisturbed(r.steps) && p < |r.steps| && r.steps[p].status == Pending
    ensures var r' := After(r, Call("approved", Some(r.steps[p].id)));
      Inv(r') && Undisturbed(r'.steps) && NotStuck(r'.steps) && Unapproved(r'.steps) < Unapproved(r.steps)
  {
    var call := Call("approved", Some(r.steps[p].id));
    assert Marks(r.steps, r.steps[p].id);
    CallKeepsInv(r, call);
    MarkingProgresses(r.steps, p);
  }

  /** From any undisturbed state that is not stuck, some approvals alone lead to the grant. */
  lemma {:induction false} ApprovalsReachTheGrant(r: Request) returns (calls: seq<Call>)
    requires Inv(r) && Undisturbed(r.steps) && NotStuck(r.steps)
    ensures forall k :: 0 <= k < |calls| ==> calls[k].status == "approved"
    ensures Run(r, calls).grants == 1
    decreases Unapproved(r.steps)
  {
    if AllHave(r.steps, Approved) {
      return [];
    }
    var p :| 0 <= p < |r.steps| && r.steps[p].status == Pending;
    var call := Call("approved", Some(r.steps[p].id));
    ApprovePendingStep(r, p);
    var rest := ApprovalsReachTheGrant(After(r, call));
    calls := [call] + rest;
    assert calls[1..] == rest;
  }

  // ----- cancelling and asking for information -----

  predicate HasStatus(steps: seq<Step>, status: StepStatus) {
    exists i :: 0 <= i < |steps| && steps[i].status == status
  }

  /** A cancellation is reported as "cancelled" exactly when no step was approved or awaiting information. */
  lemma CancelOutcome(r: Request)
    requires r.steps != []
    ensures var answer := UpdateStatus(r, "cancelled", None);
      && answer.Some?
      && (answer.value.status == "cancelled" <==> !HasStatus(r.steps, Approved) && !HasStatus(r.steps, NeedsInfo))
      && (answer.value.status == "needs-info" <==> HasStatus(r.steps, NeedsInfo))
      && (answer.value.status == "approved" <==> AllHave(r.steps, Approved))
      && answer.value.grants == r.grants
      && !SomebodyCanAct(answer.value.steps)
  {
    var after := CancelOpenSteps(r.steps);
    DerivedApproval(after, r.fallback);
    forall i | 0 <= i < |after|
      ensures after[i].status == (if r.steps[i].status in {Waiting, Pending} then Cancelled else r.steps[i].status)
    {
    }
    if HasStatus(r.steps, NeedsInfo) {
      var i :| 0 <= i < |r.steps| && r.steps[i].status == NeedsInfo;
      assert after[i].status == NeedsInfo;
    } else if HasStatus(r.steps, Approved) {
      var i :| 0 <= i < |r.steps| && r.steps[i].status == Approved;
      assert after[i].status == Approved;
    }
    assert AllHave(after, Approved) ==> forall i :: 0 <= i < |r.steps| ==> after[i].status == Approved;
  }

  lemma CallKeepsDisturbed(r: Request, call: Call, i: nat)
    requires i < |r.steps| && r.steps[i].status in {NeedsInfo, Cancelled}
    ensures var r' := After(r, call); |r'.steps| == |r.steps| && r'.steps[i] == r.steps[i]
  {
  }

  /** A step that was cancelled or sent back for information keeps its status, so the request is never granted. */
  lemma {:induction false} DisturbedNeverGranted(r: Request, calls: seq<Call>, i: nat)
    requires Inv(r) && i < |r.steps| && r.steps[i].status in {NeedsInfo, Cancelled}
    ensures var r' := Run(r, calls);
      && r'.grants == 0 && |r'.steps| == |r.steps| && r'.steps[i] == r.steps[i]
    decreases |calls|
  {
    if calls != [] {
      CallKeepsInv(r, calls[0]);
      CallKeepsDisturbed(r, calls[0], i);
      DisturbedNeverGranted(After(r, calls[0]), calls[1..], i);
    }
  }

  // ----- bulk approval -----

  /** A bulk approval leaves every step approved if and only if none had been cancelled. */
  lemma BulkApprovalCovered(r: Request)
    ensures AllHave(BulkApprove(r).steps, Approved) <==> !HasStatus(r.steps, Cancelled)
  {
    var after := BulkApprove(r).steps;
    if HasStatus(r.steps, Cancelled) {
      var i :| 0 <= i < |r.steps| && r.steps[i].status == Cancelled;
      assert after[i].status == Cancelled;
    }
  }

  /** A bulk approval issues a second grant exactly when a granted request's status had been set back by hand. */
  lemma BulkGrantsTwiceIff(r: Request)
    requires Inv(r)
    ensures BulkApprove(r).grants > 1 <==> AllHave(r.steps, Approved) && r.status != "approved"
  {
  }

  /** Whether the last call that was answered set the status by hand. */
  function SetByHand(r: Request, calls: seq<Call>, before: bool): bool
    decreases |calls|
  {
    if calls == [] then before
    else
      var answered := UpdateStatus(r, calls[0].status, calls[0].stepId).Some?;
      SetByHand(After(r, calls[0]), calls[1..], if answered then calls[0].status in {"pending", "ready"} else before)
  }

  lemma CallSetsStatus(r: Request, call: Call, byHand: bool)
    requires Inv(r) && (AllHave(r.steps, Approved) ==> (r.status != "approved" <==> byHand))
    ensures var r' := After(r, call);
      var byHand' :=
        if UpdateStatus(r, call.status, call.stepId).Some? then call.status in {"pending", "ready"} else byHand;
      AllHave(r'.steps, Approved) ==> (r'.status != "approved" <==> byHand')
  {
    var r' := After(r, call);
    DerivedApproval(r'.steps, r.fallback);
  }

  lemma {:induction false} StatusOfComplete(r: Request, calls: seq<Call>, byHand: bool)
    requires Inv(r) && (AllHave(r.steps, Approved) ==> (r.status != "approved" <==> byHand))
    ensures var r' := Run(r, calls);
      AllHave(r'.steps, Approved) ==> (r'.status != "approved" <==> SetByHand(r, calls, byHand))
    decreases |calls|
  {
    if calls != [] {
      var answered := UpdateStatus(r, calls[0].status, calls[0].stepId).Some?;
      CallKeepsInv(r, calls[0]);
      CallSetsStatus(r, calls[0], byHand);
      StatusOfComplete(
        After(r, calls[0]), calls[1..], if answered then calls[0].status in {"pending", "ready"} else byHand);
    }
  }

  /**
   After any calls on a new request, a bulk approval issues a second grant if and only if every step had been approved
   and the last answered call then set the status by hand.
   */
  lemma BulkGrantsTwiceAfter(chain: seq<ChainStep>, ownerId: nat, fallback: nat, calls: seq<Call>)
    requires chain != []
    requires forall i :: 0 <= i < |chain| ==> chain[i].stage > 0
    ensures var r := Create(chain, ownerId, fallback);
      BulkApprove(Run(r, calls)).grants > 1 <==> AllHave(Run(r, calls).steps, Approved) && SetByHand(r, calls, false)
  {
    var r := Create(chain, ownerId, fallback);
    CreateEstablishesInv(chain, ownerId, fallback);
    assert InitialSteps(chain)[0].status != Approved;
    RunKeepsInv(r, calls);
    StatusOfComplete(r, calls, false);
    BulkGrantsTwiceIff(Run(r, calls));
  }

  /** A call of the status endpoint, or a bulk approval that covers the request. */
  datatype Operation = Status(call: Call) | Bulk

  function Operate(r: Request, op: Operation): Request {
    match op
    case Status(call) => After(r, call)
    case Bulk => BulkApprove(r)
  }

  function OperateAll(r: Request, ops: seq<Operation>): Request
    decreases |ops|
  {
    if ops == [] then r else OperateAll(Operate(r, ops[0]), ops[1..])
  }

  predicate HasBulk(ops: seq<Operation>) {
    exists i :: 0 <= i < |ops| && ops[i].Bulk?
  }

  lemma {:induction false} GrantsNeverFall(r: Request, ops: seq<Operation>)
    ensures OperateAll(r, ops).grants >= r.grants
    decreases |ops|
  {
    if ops != [] {
      GrantsNeverFall(Operate(r, ops[0]), ops[1..]);
    }
  }

  /** Nobody is asked, nothing is granted, and the status says so. */
  predicate Stuck(r: Request) {
    r.steps != [] && !SomebodyCanAct(r.steps) && !AllHave(r.steps, Approved) && r.grants == 0 && r.status != "approved"
  }

  lemma CallKeepsStuck(r: Request, call: Call)
    requires Stuck(r)
    ensures Stuck(After(r, call))
  {
    assert forall id :: !Marks(r.steps, id);
    var i :| 0 <= i < |r.steps| && r.steps[i].status != Approved;
    var r' := After(r, call);
    assert r'.steps[i].status != Approved;
    DerivedApproval(r'.steps, r.fallback);
  }

  lemma {:induction false} StuckUntilBulk(r: Request, ops: seq<Operation>)
    requires Stuck(r)
    ensures OperateAll(r, ops).grants > 0 <==> HasBulk(ops)
    decreases |ops|
  {
    if ops != [] {
      match ops[0]
      case Status(call) =>
        CallKeepsStuck(r, call);
        StuckUntilBulk(After(r, call), ops[1..]);
        if i :| 0 <= i < |ops| && ops[i].Bulk? {
          assert ops[1..][i - 1].Bulk?;
        }
      case Bulk => GrantsNeverFall(BulkApprove(r), ops[1..]);
    }
  }

  /** A request without a stage numbered 1 is granted, in any run, exactly if a bulk approval takes it along. */
  lemma OnlyBulkGrantsWithoutStage1(chain: seq<ChainStep>, ownerId: nat, fallback: nat, ops: seq<Operation>)
    requires chain != [] && !HasStage1(chain)
    ensures OperateAll(Create(chain, ownerId, fallback), ops).grants > 0 <==> HasBulk(ops)
  {
    var steps := InitialSteps(chain);
    DerivedApproval(steps, fallback);
    assert steps[0].status != Approved;
    StuckUntilBulk(Create(chain, ownerId, fallback), ops);
  }

  /** Both happen: a cancelled request is granted, and a granted one is granted again. */
  lemma BulkCounterexamples(teamId: nat)
    ensures var r := Create([ChainStep(0, 1, teamId, 0)], teamId, teamId);
      && BulkApprove(Run(r, [Call("cancelled", None)])).grants == 1
      && HasStatus(BulkApprove(Run(r, [Call("cancelled", None)])).steps, Cancelled)
      && BulkApprove(Run(r, [Call("approved", Some(0)), Call("ready", None)])).grants == 2
  {
    var chain := [ChainStep(0, 1, teamId, 0)];
    var r := Create(chain, teamId, teamId);
    CreateEstablishesInv(chain, teamId, teamId);
    assert r.steps[0].status == Pending;

    var cancelled := After(r, Call("cancelled", None));
    CancelOutcome(r);
    assert [Call("cancelled", None)][1..] == [];
    assert Run(r, [Call("cancelled", None)]) == cancelled;
    assert cancelled.steps[0].status == Cancelled;
    assert BulkApprove(cancelled).steps[0].status == Cancelled;

    var calls := [Call("approved", Some(0)), Call("ready", None)];
    var approved := After(r, calls[0]);
    assert Marks(r.steps, 0);
    var marked := MarkStep(r.steps, 0, Approved);
    assert AllHave(marked, Approved);
    ActivationKeepsApprovals(marked);
    DerivedApproval(ActivateNextStage(marked), r.fallback);
    assert calls[1..] == [calls[1]] && calls[1..][1..] == [];
    assert Run(r, calls) == Run(approved, calls[1..]) == After(approved, calls[1]);
  }
}
