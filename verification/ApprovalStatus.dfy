/**
 What a request shows for its steps, and what each call does to them, told step by step: without the functions
 that compute it.
 */
module ApprovalStatus {
  import opened Options
  import opened Approvals

  // ----- status and reviewer -----

  predicate IsFirst(steps: seq<Step>, i: nat, status: StepStatus)
    requires i < |steps|
  {
    steps[i].status == status && forall j :: 0 <= j < i ==> steps[j].status != status
  }

  /** A pending step that comes before every other pending one: by stage, then by its team's name, then by its place. */
  predicate IsNext(steps: seq<Step>, i: nat)
    requires i < |steps|
  {
    && steps[i].status == Pending
    && forall j :: 0 <= j < |steps| && steps[j].status == Pending ==>
      && steps[i].stage <= steps[j].stage
      && (steps[i].stage == steps[j].stage ==> steps[i].teamRank <= steps[j].teamRank)
      && (steps[i].stage == steps[j].stage && steps[i].teamRank == steps[j].teamRank ==> i <= j)
  }

  predicate SomeHas(steps: seq<Step>, status: StepStatus) {
    exists i :: 0 <= i < |steps| && steps[i].status == status
  }

  /** What status and reviewer these steps should show. */
  predicate Shows(steps: seq<Step>, fallback: nat, status: string, reviewer: nat) {
    if steps == [] then status == "approved" && reviewer == fallback
    else if SomeHas(steps, NeedsInfo) then
      && status == "needs-info"
      && exists i :: 0 <= i < |steps| && IsFirst(steps, i, NeedsInfo) && reviewer == steps[i].team
    else if SomeHas(steps, Pending) then
      status == "ready" && exists i :: 0 <= i < |steps| && IsNext(steps, i) && reviewer == steps[i].team
    else if forall i :: 0 <= i < |steps| ==> steps[i].status == Approved then
      status == "approved" && reviewer == steps[|steps| - 1].team
    else if forall i :: 0 <= i < |steps| ==> steps[i].status == Cancelled then
      status == "cancelled" && reviewer == steps[|steps| - 1].team
    else
      && status == "pending"
      && if SomeHas(steps, Waiting)
         then exists i :: 0 <= i < |steps| && IsFirst(steps, i, Waiting) && reviewer == steps[i].team
         else reviewer == fallback
  }

  lemma {:induction false} FirstWithStatusIsFirst(steps: seq<Step>, status: StepStatus) returns (i: nat)
    requires SomeHas(steps, status)
    ensures i < |steps| && IsFirst(steps, i, status) && FirstWithStatus(steps, status) == Some(steps[i])
    decreases |steps|
  {
    if steps[0].status == status {
      i := 0;
    } else {
      var k :| 0 <= k < |steps| && steps[k].status == status;
      assert steps[1..][k - 1].status == status;
      var rest := FirstWithStatusIsFirst(steps[1..], status);
      i := rest + 1;
      assert forall j :: 0 < j < i ==> steps[j] == steps[1..][j - 1];
    }
  }

  lemma {:induction false} FirstCurrentIsEarliest(steps: seq<Step>, n: nat, j: nat)
    requires n <= |steps| && j < n && IsCurrent(steps, j)
    ensures var first := FirstCurrent(steps, n);
      first.Some? && (steps[first.value].teamRank < steps[j].teamRank
        || (steps[first.value].teamRank == steps[j].teamRank && first.value <= j))
  {
    if j < n - 1 {
      FirstCurrentIsEarliest(steps, n - 1, j);
    }
  }

  lemma CurrentIsNext(steps: seq<Step>) returns (i: nat)
    requires SomeHas(steps, Pending)
    ensures i < |steps| && IsNext(steps, i) && FirstCurrent(steps, |steps|) == Some(i)
  {
    var lowest := LowestStage(steps, Pending).value;
    var k :| 0 <= k < |steps| && steps[k].status == Pending && steps[k].stage == lowest;
    assert IsCurrent(steps, k);
    FirstCurrentIsEarliest(steps, |steps|, k);
    i := FirstCurrent(steps, |steps|).value;
    forall j | 0 <= j < |steps| && steps[j].status == Pending && steps[j].stage == steps[i].stage
      ensures steps[i].teamRank < steps[j].teamRank || (steps[i].teamRank == steps[j].teamRank && i <= j)
    {
      FirstCurrentIsEarliest(steps, |steps|, j);
    }
  }

  /** The derived status and reviewer, case by case. */
  lemma DerivedByCases(steps: seq<Step>, fallback: nat)
    ensures Shows(steps, fallback, DeriveState(steps, fallback).0, DeriveState(steps, fallback).1)
  {
    if SomeHas(steps, NeedsInfo) {
      var i := FirstWithStatusIsFirst(steps, NeedsInfo);
    } else if SomeHas(steps, Pending) {
      var i := CurrentIsNext(steps);
    } else if SomeHas(steps, Waiting) {
      var i := FirstWithStatusIsFirst(steps, Waiting);
    }
  }

  /** No other pair would do. */
  lemma ShownIsUnique(steps: seq<Step>, fallback: nat, status: string, reviewer: nat)
    ensures Shows(steps, fallback, status, reviewer) <==> DeriveState(steps, fallback) == (status, reviewer)
  {
    DerivedByCases(steps, fallback);
  }

  /** The request shows what its steps say. */
  predicate IsInSync(r: Request) {
    Shows(r.steps, r.fallback, r.status, r.reviewer)
  }

  /** A new request with a chain is in sync; with a first stage it is ready, and waits for a team of that stage. */
  lemma NewRequestIsInSync(chain: seq<ChainStep>, ownerId: nat, fallback: nat)
    requires chain != []
    ensures var r := Create(chain, ownerId, fallback);
      && IsInSync(r)
      && (HasStage1(chain) && (forall i :: 0 <= i < |chain| ==> chain[i].stage > 0) ==>
        r.status == "ready" && exists i :: 0 <= i < |chain| && chain[i].stage == 1 && chain[i].team == r.reviewer)
      && (!HasStage1(chain) ==> r.status == "pending" && r.reviewer == chain[0].team)
  {
    var steps := InitialSteps(chain);
    DerivedByCases(steps, fallback);
    DerivedApproval(steps, fallback);
    assert steps[0].status != Approved;
    if HasStage1(chain) {
      var k :| 0 <= k < |chain| && chain[k].stage == 1;
      assert steps[k].status == Pending;
      var i := CurrentIsNext(steps);
      assert chain[i].stage == 1 && chain[i].team == steps[i].team;
    } else {
      assert steps[0].status == Waiting && IsFirst(steps, 0, Waiting);
    }
  }

  /** Without a chain it is approved under its owner, and granted. */
  lemma NewRequestWithoutChain(ownerId: nat, fallback: nat)
    ensures Create([], ownerId, fallback) == Request([], "approved", ownerId, 1, fallback)
  {
  }

  // ----- what the calls do -----

  /** A step opens exactly if it waits and every step of an earlier stage is approved; nothing else changes. */
  lemma ActivationOpens(steps: seq<Step>, i: nat)
    requires i < |steps|
    ensures var opens := steps[i].status == Waiting
        && forall j :: 0 <= j < |steps| && steps[j].stage < steps[i].stage ==> steps[j].status == Approved;
      ActivateNextStage(steps)[i] == if opens then steps[i].(status := Pending) else steps[i]
  {
  }

  /** A pending step of the lowest stage that has any: somebody can act on it. */
  predicate CanAct(steps: seq<Step>, i: nat)
    requires i < |steps|
  {
    && steps[i].status == Pending
    && forall k :: 0 <= k < |steps| && steps[k].status == Pending ==> steps[i].stage <= steps[k].stage
  }

  predicate IsOnlyOne(steps: seq<Step>, i: nat)
    requires i < |steps|
  {
    forall j :: 0 <= j < |steps| ==> (CanAct(steps, j) <==> j == i)
  }

  /** The step a call is about: the one it names, or the one that can act if there is exactly one. */
  predicate IsTarget(steps: seq<Step>, requested: Option<nat>, id: nat) {
    if requested.Some? then requested.value == id
    else exists i :: 0 <= i < |steps| && IsOnlyOne(steps, i) && steps[i].id == id
  }

  lemma CurrentCanAct(steps: seq<Step>, j: nat)
    requires j < |steps|
    ensures IsCurrent(steps, j) <==> CanAct(steps, j)
  {
  }

  lemma {:induction false} NoCurrentIds(steps: seq<Step>, n: nat)
    requires n <= |steps| && forall j :: 0 <= j < n ==> !IsCurrent(steps, j)
    ensures CurrentIds(steps, n) == []
  {
    if n > 0 {
      NoCurrentIds(steps, n - 1);
    }
  }

  lemma {:induction false} CurrentIdsGrow(steps: seq<Step>, m: nat, n: nat)
    requires m <= n <= |steps|
    ensures |CurrentIds(steps, m)| <= |CurrentIds(steps, n)|
    decreases n
  {
    if m < n {
      CurrentIdsGrow(steps, m, n - 1);
    }
  }

  lemma {:induction false} OneCurrentId(steps: seq<Step>, n: nat, i: nat)
    requires i < n <= |steps| && IsCurrent(steps, i) && forall j :: 0 <= j < n && j != i ==> !IsCurrent(steps, j)
    ensures CurrentIds(steps, n) == [steps[i].id]
  {
    if i == n - 1 {
      NoCurrentIds(steps, n - 1);
    } else {
      OneCurrentId(steps, n - 1, i);
    }
  }

  lemma TwoCurrentIds(steps: seq<Step>, i: nat, j: nat)
    requires i < j < |steps| && IsCurrent(steps, i) && IsCurrent(steps, j)
    ensures |CurrentIds(steps, |steps|)| > 1
  {
    CurrentIdsGrow(steps, i + 1, j);
    CurrentIdsGrow(steps, j + 1, |steps|);
  }

  lemma TargetOfCall(steps: seq<Step>, requested: Option<nat>, id: nat)
    ensures ResolveTarget(steps, requested) == Some(id) <==> IsTarget(steps, requested, id)
  {
    forall j | 0 <= j < |steps| ensures IsCurrent(steps, j) <==> CanAct(steps, j) {
      CurrentCanAct(steps, j);
    }
    if i :| 0 <= i < |steps| && IsCurrent(steps, i) {
      if j :| 0 <= j < |steps| && j != i && IsCurrent(steps, j) {
        TwoCurrentIds(steps, if i < j then i else j, if i < j then j else i);
        assert forall k :: 0 <= k < |steps| ==> !IsOnlyOne(steps, k);
      } else {
        OneCurrentId(steps, |steps|, i);
        assert IsOnlyOne(steps, i);
        assert forall k :: 0 <= k < |steps| && IsOnlyOne(steps, k) ==> k == i;
      }
    } else {
      NoCurrentIds(steps, |steps|);
      forall k | 0 <= k < |steps| ensures !IsOnlyOne(steps, k) {
        assert !CanAct(steps, k);
      }
    }
  }

  /** Some pending step has this id. */
  predicate IsAsked(steps: seq<Step>, id: nat) {
    exists i :: 0 <= i < |steps| && steps[i].id == id && steps[i].status == Pending
  }

  /** Which calls are answered: known statuses, and for a review of a chain a target that is asked. */
  lemma CallIsAnsweredIff(r: Request, status: string, stepId: Option<nat>)
    ensures UpdateStatus(r, status, stepId).Some? <==>
      || status == "pending" || status == "ready" || status == "cancelled"
      || (status == "approved" && r.steps == [])
      || ((status == "approved" || status == "needs-info")
        && exists id: nat :: IsTarget(r.steps, stepId, id) && IsAsked(r.steps, id))
  {
    forall id: nat ensures ResolveTarget(r.steps, stepId) == Some(id) <==> IsTarget(r.steps, stepId, id) {
      TargetOfCall(r.steps, stepId, id);
    }
    forall id: nat ensures IsAsked(r.steps, id) <==> Marks(r.steps, id) {
    }
  }

  /** The status of one step after a mark: the asked step of that id gets it, every other step keeps its own. */
  function Marked(step: Step, id: nat, status: StepStatus): StepStatus {
    if step.id == id && step.status == Pending then status else step.status
  }

  predicate OnlyStatusesDiffer(steps: seq<Step>, steps': seq<Step>) {
    && |steps| == |steps'|
    && forall i :: 0 <= i < |steps| ==> steps'[i] == steps[i].(status := steps'[i].status)
  }

  /** The statuses after an approval: the asked step is approved, and what waits behind approved stages opens. */
  function Opened(steps: seq<Step>, id: nat, i: nat): StepStatus
    requires i < |steps|
  {
    if steps[i].status == Waiting
      && forall j :: 0 <= j < |steps| && steps[j].stage < steps[i].stage ==> Marked(steps[j], id, Approved) == Approved
    then Pending else Marked(steps[i], id, Approved)
  }

  lemma MarkedThenOpened(steps: seq<Step>, id: nat, i: nat)
    requires i < |steps|
    ensures ActivateNextStage(MarkStep(steps, id, Approved))[i] == steps[i].(status := Opened(steps, id, i))
  {
    var marked := MarkStep(steps, id, Approved);
    assert forall j :: 0 <= j < |steps| ==> marked[j].status == Marked(steps[j], id, Approved);
    assert forall j :: 0 <= j < |steps| ==> marked[j].stage == steps[j].stage;
    ActivationOpens(marked, i);
  }

  lemma ApprovedRequest(r: Request, stepId: Option<nat>, id: nat, after: seq<Step>)
    requires IsTarget(r.steps, stepId, id) && IsAsked(r.steps, id)
    requires after == ActivateNextStage(MarkStep(r.steps, id, Approved))
    ensures var derived := DeriveState(after, r.fallback);
      UpdateStatus(r, "approved", stepId) == Some(r.(
        steps := after, status := derived.0, reviewer := derived.1,
        grants := r.grants + if derived.0 == "approved" then 1 else 0))
  {
    TargetOfCall(r.steps, stepId, id);
    assert Marks(r.steps, id);
  }

  /**
   An answered approval of a chain: the asked step is approved, every waiting step opens for which all earlier stages
   are now approved, and nothing else changes; the request shows what the steps say, and one more grant if all are
   approved.
   */
  lemma ApprovalEffect(r: Request, stepId: Option<nat>, id: nat)
    requires IsTarget(r.steps, stepId, id) && IsAsked(r.steps, id)
    ensures var answer := UpdateStatus(r, "approved", stepId);
      && answer.Some?
      && var r' := answer.value;
        && OnlyStatusesDiffer(r.steps, r'.steps)
        && (forall i :: 0 <= i < |r.steps| ==> r'.steps[i].status == Opened(r.steps, id, i))
        && IsInSync(r') && r'.fallback == r.fallback
        && r'.grants == r.grants
          + if forall j :: 0 <= j < |r'.steps| ==> r'.steps[j].status == Approved then 1 else 0
  {
    var after := ActivateNextStage(MarkStep(r.steps, id, Approved));
    ApprovedRequest(r, stepId, id, after);
    forall i | 0 <= i < |r.steps| ensures after[i] == r.steps[i].(status := Opened(r.steps, id, i)) {
      MarkedThenOpened(r.steps, id, i);
    }
    DerivedByCases(after, r.fallback);
    DerivedApproval(after, r.fallback);
  }

  /** An answered question: the asked step needs information, and nothing else changes. */
  lemma QuestionEffect(r: Request, stepId: Option<nat>, id: nat)
    requires IsTarget(r.steps, stepId, id) && IsAsked(r.steps, id)
    ensures var answer := UpdateStatus(r, "needs-info", stepId);
      && answer.Some?
      && var r' := answer.value;
        && OnlyStatusesDiffer(r.steps, r'.steps)
        && (forall i :: 0 <= i < |r.steps| ==> r'.steps[i].status == Marked(r.steps[i], id, NeedsInfo))
        && IsInSync(r') && r'.fallback == r.fallback && r'.grants == r.grants && r'.status == "needs-info"
  {
    TargetOfCall(r.steps, stepId, id);
    assert Marks(r.steps, id);
    var after := MarkStep(r.steps, id, NeedsInfo);
    var i :| 0 <= i < |r.steps| && r.steps[i].id == id && r.steps[i].status == Pending;
    assert after[i].status == NeedsInfo;
    DerivedByCases(after, r.fallback);
  }

  function Closed(step: Step): StepStatus {
    if step.status == Waiting || step.status == Pending then Cancelled else step.status
  }

  /** A cancellation: what waits or is asked is cancelled, and nothing else changes. */
  lemma CancellationEffect(r: Request, stepId: Option<nat>)
    ensures var answer := UpdateStatus(r, "cancelled", stepId);
      && answer.Some?
      && var r' := answer.value;
        && OnlyStatusesDiffer(r.steps, r'.steps)
        && (forall i :: 0 <= i < |r.steps| ==> r'.steps[i].status == Closed(r.steps[i]))
        && IsInSync(r') && r'.fallback == r.fallback && r'.grants == r.grants
  {
    DerivedByCases(CancelOpenSteps(r.steps), r.fallback);
  }

  /** Setting the status by hand does just that; approving a request without a chain grants it. */
  lemma ByHandEffect(r: Request, status: string, stepId: Option<nat>)
    requires status == "pending" || status == "ready" || (status == "approved" && r.steps == [])
    ensures var answer := UpdateStatus(r, status, stepId);
      && answer.Some? && answer.value.status == status
      && answer.value.steps == r.steps && answer.value.reviewer == r.reviewer && answer.value.fallback == r.fallback
      && answer.value.grants == r.grants + if status == "approved" then 1 else 0
  {
  }

  /** A bulk approval: every step but the cancelled is approved, and the request granted unless it was "approved". */
  lemma BulkEffect(r: Request)
    ensures var r' := BulkApprove(r);
      && OnlyStatusesDiffer(r.steps, r'.steps) && r'.status == "approved"
      && (forall i :: 0 <= i < |r.steps| ==>
        r'.steps[i].status == if r.steps[i].status == Cancelled then Cancelled else Approved)
      && r'.reviewer == r.reviewer && r'.fallback == r.fallback
      && r'.grants == r.grants + if r.status == "approved" then 0 else 1
  {
  }
}
