/**
 The blast-radius guardrail on time-bound grants.

 An approval inserts one grant per principal and privilege, then reads the LLM's verdict and caps the
 grants if the verdict is in. The LLM task, running beside it, writes its verdict and then caps the
 grants it finds. This module models both at the granularity of single database statements, lets any
 number of approvals, the LLM task, revocations and the expiry worker interleave freely, and proves
 that no live grant of the request escapes the cap.

 Times are in seconds.
 */
module Guardrail {
  import opened Options

  const DAY := 86_400

  datatype RenewalStatus = Healthy | Expiring | Expired | Revoked

  /** The columns of the table's uniqueness constraint. */
  datatype Key = Key(request: nat, principal: string, resource: string, privilege: string)

  /**
   A row of `time_bound_grants`. The last three components record where the row came from: the expiry
   it was last granted for, the approval that inserted it, and whether it was renewed. No operation reads them.
   */
  datatype Grant = Grant(
    startedAt: int, expiresAt: int, status: RenewalStatus, requested: int, insertedBy: nat, renewed: bool)

  type Grants = map<Key, Grant>

  predicate Live(g: Grant) {
    g.status != Expired && g.status != Revoked
  }

  // ----- the statements of the grants table -----

  /** `INSERT … ON CONFLICT DO NOTHING` */
  function Insert(grants: Grants, key: Key, startedAt: int, expiresAt: int, approval: nat): Grants {
    if key in grants then grants
    else grants[key := Grant(startedAt, expiresAt, Healthy, expiresAt, approval, false)]
  }

  function CapGrant(g: Grant, days: int, now: int): Grant {
    var cap := g.startedAt + days * DAY;
    if Live(g) && cap < g.expiresAt then
      g.(expiresAt := cap,
         status := if g.status == Healthy && cap < now + 7 * DAY then Expiring else g.status)
    else g
  }

  function ApplyGuardrailCap(grants: Grants, request: nat, days: int, now: int): Grants {
    map key | key in grants ::
      if key.request == request then CapGrant(grants[key], days, now) else grants[key]
  }

  /** The renewal path's update of an existing row. */
  function Extend(grants: Grants, key: Key, expiresAt: int, now: int): Grants {
    if key in grants && Live(grants[key]) then
      grants[key := grants[key].(expiresAt := expiresAt, requested := expiresAt, renewed := true,
                                 status := if expiresAt < now + 7 * DAY then Expiring else Healthy)]
    else grants
  }

  function Revoke(grants: Grants, key: Key): Grants {
    if key in grants then grants[key := grants[key].(status := Revoked)] else grants
  }

  function Expire(grants: Grants, key: Key, now: int): Grants {
    if key in grants && Live(grants[key]) && grants[key].expiresAt < now
    then grants[key := grants[key].(status := Expired)]
    else grants
  }

  function MarkExpiringSoon(grants: Grants, now: int): Grants {
    map key | key in grants ::
      var g := grants[key];
      if g.status == Healthy && g.expiresAt < now + 7 * DAY then g.(status := Expiring) else g
  }

  function GuardrailCapDays(risk: string): (days: Option<int>)
    ensures days == Some(7) <==> risk == "high"
    ensures days == Some(30) <==> risk == "medium"
    ensures days == None || days.value in {7, 30}
  {
    if risk == "high" then Some(7)
    else if risk == "medium" then Some(30)
    else None
  }

  // ----- the processes -----

  /** Where an approval stands: its remaining inserts, the verdict read, the cap it decided on. */
  datatype Phase = Inserting(todo: seq<Key>) | Capping(days: int) | Finished

  datatype Approval = Approval(startedAt: int, expiresAt: int, phase: Phase)

  /** Where the LLM task stands. */
  datatype LlmPhase = NotSpawned | Analysing | LlmCapping(days: int) | LlmFinished

  /** The shared database, restricted to one request's verdict row, and the running processes. */
  datatype State = State(
    request: nat, grants: Grants, verdict: Option<string>, approvals: seq<Approval>, llm: LlmPhase)

  datatype Event =
    | StartApproval(principals: seq<string>, resource: string, privileges: seq<string>, startedAt: int, expiresAt: int)
    | InsertNext(approval: nat)
    | InsertFails(approval: nat)
    | ReadVerdict(approval: nat)
    | CapAfterApproval(approval: nat, now: int)
    | UpsertProcessing
    | WriteVerdict(risk: string)
    | CapAfterAnalysis(now: int)
    | RevokeGrant(key: Key)
    | ExpireGrant(key: Key, now: int)
    | PromoteExpiring(now: int)
    | Renew(key: Key, expiresAt: int, now: int) // by the approval of some other request
    | CapOther(request: nat, days: int, now: int) // the guardrail of some other request

  function RowKeys(request: nat, principal: string, resource: string, privileges: seq<string>): seq<Key> {
    seq(|privileges|, i requires 0 <= i < |privileges| => Key(request, principal, resource, privileges[i]))
  }

  /** The keys in the order of the approval's nested loop. */
  function LoopKeys(request: nat, principals: seq<string>, resource: string, privileges: seq<string>): seq<Key> {
    if principals == [] then []
    else RowKeys(request, principals[0], resource, privileges)
         + LoopKeys(request, principals[1..], resource, privileges)
  }

  function SetPhase(s: State, p: nat, phase: Phase): State
    requires p < |s.approvals|
  {
    s.(approvals := s.approvals[p := s.approvals[p].(phase := phase)])
  }

  predicate IsInserting(s: State, p: nat) {
    p < |s.approvals| && s.approvals[p].phase.Inserting?
  }

  /** What the approval does after its inserts, depending on the verdict it reads. */
  function PhaseAfterReading(verdict: Option<string>): Phase {
    match verdict
    case None => Finished
    case Some(risk) =>
      match GuardrailCapDays(risk)
      case Some(days) => Capping(days)
      case None => Finished
  }

  /** One database statement of one process. An event that its process is not ready for changes nothing. */
  function Step(s: State, e: Event): State {
    match e
    case StartApproval(principals, resource, privileges, startedAt, expiresAt) =>
      var todo := LoopKeys(s.request, principals, resource, privileges);
      s.(approvals := s.approvals + [Approval(startedAt, expiresAt, Inserting(todo))])
    case InsertNext(p) =>
      if IsInserting(s, p) && s.approvals[p].phase.todo != [] then
        var a := s.approvals[p];
        var grants := Insert(s.grants, a.phase.todo[0], a.startedAt, a.expiresAt, p);
        SetPhase(s.(grants := grants), p, Inserting(a.phase.todo[1..]))
      else s
    case InsertFails(p) =>
      if IsInserting(s, p) && s.approvals[p].phase.todo != []
      then SetPhase(s, p, Inserting(s.approvals[p].phase.todo[1..]))
      else s
    case ReadVerdict(p) =>
      if IsInserting(s, p) && s.approvals[p].phase.todo == []
      then SetPhase(s, p, PhaseAfterReading(s.verdict))
      else s
    case CapAfterApproval(p, now) =>
      if p < |s.approvals| && s.approvals[p].phase.Capping? then
        var grants := ApplyGuardrailCap(s.grants, s.request, s.approvals[p].phase.days, now);
        SetPhase(s.(grants := grants), p, Finished)
      else s
    case UpsertProcessing =>
      if s.llm == NotSpawned then s.(verdict := Some("processing"), llm := Analysing) else s
    case WriteVerdict(risk) =>
      if s.llm == Analysing then
        s.(verdict := Some(risk),
           llm := match GuardrailCapDays(risk) case Some(days) => LlmCapping(days) case None => LlmFinished)
      else s
    case CapAfterAnalysis(now) =>
      if s.llm.LlmCapping?
      then s.(grants := ApplyGuardrailCap(s.grants, s.request, s.llm.days, now), llm := LlmFinished)
      else s
    case RevokeGrant(key) => s.(grants := Revoke(s.grants, key))
    case ExpireGrant(key, now) => s.(grants := Expire(s.grants, key, now))
    case PromoteExpiring(now) => s.(grants := MarkExpiringSoon(s.grants, now))
    case Renew(key, expiresAt, now) => s.(grants := Extend(s.grants, key, expiresAt, now))
    case CapOther(request, days, now) =>
      if request == s.request then s else s.(grants := ApplyGuardrailCap(s.grants, request, days, now))
  }

  function Run(s: State, schedule: seq<Event>): State
    decreases |schedule|
  {
    if schedule == [] then s else Run(Step(s, schedule[0]), schedule[1..])
  }

  /** A database that holds no grant of the new request yet; other requests' grants are arbitrary. */
  predicate Fresh(s: State) {
    && s.verdict == None && s.approvals == [] && s.llm == NotSpawned
    && forall key :: key in s.grants ==> key.request != s.request
  }

  predicate AllFinished(s: State) {
    s.llm == LlmFinished && forall p :: 0 <= p < |s.approvals| ==> s.approvals[p].phase == Finished
  }

  // ----- the invariant -----

  function Min(a: int, b: int): int {
    if a <= b then a else b
  }

  /** The expiry a grant must have under a verdict: the requested one, cut at the cap if there is one. */
  function CappedExpiry(g: Grant, risk: string): int {
    match GuardrailCapDays(risk)
    case None => g.requested
    case Some(days) =>
      if g.startedAt + days * DAY < g.requested then g.startedAt + days * DAY else g.requested
  }

  /** The LLM task's phase and the verdict row agree. */
  predicate PhasesAgree(s: State) {
    match s.llm
    case NotSpawned => s.verdict == None
    case Analysing => s.verdict == Some("processing")
    case LlmCapping(days) => s.verdict.Some? && GuardrailCapDays(s.verdict.value) == Some(days)
    case LlmFinished => s.verdict.Some?
  }

  predicate ApprovalAgrees(s: State, a: Approval) {
    a.phase.Capping? ==> s.verdict.Some? && GuardrailCapDays(s.verdict.value) == Some(a.phase.days)
  }

  /**
   A grant is uncapped or capped by the verdict; a live one that was not renewed is uncapped only while somebody will
   still cap it.
   */
  predicate GrantAgrees(s: State, g: Grant) {
    && g.insertedBy < |s.approvals| && g.startedAt == s.approvals[g.insertedBy].startedAt
    && (!g.renewed ==> g.requested == s.approvals[g.insertedBy].expiresAt)
    && (g.expiresAt == g.requested || (s.verdict.Some? && g.expiresAt == CappedExpiry(g, s.verdict.value)))
    && (s.llm == LlmFinished && s.approvals[g.insertedBy].phase == Finished && Live(g) && !g.renewed
        ==> s.verdict.Some? && g.expiresAt == CappedExpiry(g, s.verdict.value))
  }

  predicate Inv(s: State) {
    && PhasesAgree(s)
    && (forall p :: 0 <= p < |s.approvals| ==> ApprovalAgrees(s, s.approvals[p]))
    && forall key :: key in s.grants && key.request == s.request ==> GrantAgrees(s, s.grants[key])
  }

  lemma StepKeepsPhases(s: State, e: Event)
    requires Inv(s)
    ensures var s' := Step(s, e);
      && s'.request == s.request && PhasesAgree(s')
      && forall p :: 0 <= p < |s'.approvals| ==> ApprovalAgrees(s', s'.approvals[p])
  {
  }

  lemma StepKeepsGrant(s: State, e: Event, key: Key)
    requires Inv(s)
    requires key in Step(s, e).grants && key.request == s.request
    ensures GrantAgrees(Step(s, e), Step(s, e).grants[key])
  {
    if key in s.grants {
      assert GrantAgrees(s, s.grants[key]);
    }
  }

  lemma StepKeepsInv(s: State, e: Event)
    requires Inv(s)
    ensures Inv(Step(s, e)) && Step(s, e).request == s.request
  {
    StepKeepsPhases(s, e);
    forall key | key in Step(s, e).grants && key.request == s.request
      ensures GrantAgrees(Step(s, e), Step(s, e).grants[key])
    {
      StepKeepsGrant(s, e, key);
    }
  }

  lemma {:induction false} RunKeepsInv(s: State, schedule: seq<Event>)
    requires Inv(s)
    ensures Inv(Run(s, schedule)) && Run(s, schedule).request == s.request
    decreases |schedule|
  {
    if schedule != [] {
      StepKeepsInv(s, schedule[0]);
      RunKeepsInv(Step(s, schedule[0]), schedule[1..]);
    }
  }

  predicate NeverRenewed(schedule: seq<Event>, key: Key) {
    forall i :: 0 <= i < |schedule| ==> !(schedule[i].Renew? && schedule[i].key == key)
  }

  lemma {:induction false} RunKeepsUnrenewed(s: State, schedule: seq<Event>, key: Key)
    requires NeverRenewed(schedule, key) && (key in s.grants ==> !s.grants[key].renewed)
    ensures var s' := Run(s, schedule); key in s'.grants ==> !s'.grants[key].renewed
    decreases |schedule|
  {
    if schedule != [] {
      RunKeepsUnrenewed(Step(s, schedule[0]), schedule[1..], key);
    }
  }

  /**
   No grant escapes: whatever the interleaving of any number of approvals with the LLM task, other requests'
   guardrails, revocations and the expiry worker, once all have finished every live grant of the request that was not
   renewed expires at the time its approval asked for or at the cap of the verdict, whichever is earlier.
   */
  lemma NoGrantEscapesTheGuardrail(s: State, schedule: seq<Event>, key: Key)
    requires Fresh(s) && NeverRenewed(schedule, key)
    requires AllFinished(Run(s, schedule))
    requires key in Run(s, schedule).grants && key.request == s.request && Live(Run(s, schedule).grants[key])
    ensures var s' := Run(s, schedule); var g := s'.grants[key];
      && s'.verdict.Some? && g.insertedBy < |s'.approvals|
      && var a := s'.approvals[g.insertedBy];
        && g.startedAt == a.startedAt
        && g.expiresAt ==
          if s'.verdict.value == "high" then Min(a.expiresAt, a.startedAt + 7 * DAY)
          else if s'.verdict.value == "medium" then Min(a.expiresAt, a.startedAt + 30 * DAY)
          else a.expiresAt
  {
    RunKeepsInv(s, schedule);
    RunKeepsUnrenewed(s, schedule, key);
    assert GrantAgrees(Run(s, schedule), Run(s, schedule).grants[key]);
  }

  /** Whether an event is a renewal of this grant, or the guardrail of the request it belongs to. */
  predicate Concerns(e: Event, key: Key) {
    (e.Renew? && e.key == key) || (e.CapOther? && e.request == key.request)
  }

  /** The guardrail of one request never moves the expiry of another request's grants. */
  lemma {:induction false} OtherRequestsKeepTheirExpiry(s: State, schedule: seq<Event>, key: Key)
    requires key in s.grants && key.request != s.request
    requires forall i :: 0 <= i < |schedule| ==> !Concerns(schedule[i], key)
    ensures var s' := Run(s, schedule);
      && key in s'.grants
      && s'.grants[key].expiresAt == s.grants[key].expiresAt
      && s'.grants[key].startedAt == s.grants[key].startedAt
    decreases |schedule|
  {
    if schedule != [] {
      StepKeepsOther(s, schedule[0], key);
      OtherRequestsKeepTheirExpiry(Step(s, schedule[0]), schedule[1..], key);
    }
  }

  lemma StepKeepsOther(s: State, e: Event, key: Key)
    requires key in s.grants && key.request != s.request && !Concerns(e, key)
    ensures var s' := Step(s, e);
      && s'.request == s.request && key in s'.grants
      && s'.grants[key].expiresAt == s.grants[key].expiresAt
      && s'.grants[key].startedAt == s.grants[key].startedAt
  {
  }

  // ----- renewals -----

  /** Whether the event is a cap of this request that is really carried out. */
  predicate Caps(s: State, e: Event) {
    || (e.CapAfterApproval? && e.approval < |s.approvals| && s.approvals[e.approval].phase.Capping?)
    || (e.CapAfterAnalysis? && s.llm.LlmCapping?)
  }

  predicate CapRuns(s: State, schedule: seq<Event>)
    decreases |schedule|
  {
    schedule != [] && (Caps(s, schedule[0]) || CapRuns(Step(s, schedule[0]), schedule[1..]))
  }

  predicate VerdictIsIn(s: State) {
    s.llm.LlmCapping? || s.llm == LlmFinished
  }

  lemma {:induction false} VerdictStays(s: State, schedule: seq<Event>)
    requires VerdictIsIn(s)
    ensures Run(s, schedule).verdict == s.verdict
    decreases |schedule|
  {
    if schedule != [] {
      VerdictStays(Step(s, schedule[0]), schedule[1..]);
    }
  }

  /** The days of the cap in force; 0 when there is none. */
  function CapDays(s: State): int {
    if s.verdict.Some? && GuardrailCapDays(s.verdict.value).Some? then GuardrailCapDays(s.verdict.value).value else 0
  }

  /** One statement's effect on a grant that it does not renew. */
  lemma StepOnGrant(s: State, e: Event, key: Key)
    requires Inv(s) && key in s.grants && key.request == s.request && !(e.Renew? && e.key == key)
    ensures var s' := Step(s, e); var g := s.grants[key];
      var expiresAt := if Caps(s, e) then Min(g.expiresAt, g.startedAt + CapDays(s) * DAY) else g.expiresAt;
      && key in s'.grants && s'.grants[key].startedAt == g.startedAt
      && (Live(s'.grants[key]) ==> Live(g) && s'.grants[key].expiresAt == expiresAt)
      && (Caps(s, e) ==> VerdictIsIn(s) && GuardrailCapDays(s.verdict.value).Some?)
  {
    if e.CapAfterApproval? && Caps(s, e) {
      assert ApprovalAgrees(s, s.approvals[e.approval]);
    }
  }

  lemma {:induction false} DeadStaysDead(s: State, schedule: seq<Event>, key: Key)
    requires Inv(s) && key in s.grants && key.request == s.request && NeverRenewed(schedule, key)
    ensures key in Run(s, schedule).grants && (Live(Run(s, schedule).grants[key]) ==> Live(s.grants[key]))
    decreases |schedule|
  {
    if schedule != [] {
      StepKeepsInv(s, schedule[0]);
      StepOnGrant(s, schedule[0], key);
      DeadStaysDead(Step(s, schedule[0]), schedule[1..], key);
    }
  }

  /** What becomes of a live grant in a run that does not renew it. */
  lemma {:induction false} ExpiryAfterRun(s: State, schedule: seq<Event>, key: Key, days: int)
    requires Inv(s) && key in s.grants && key.request == s.request && NeverRenewed(schedule, key)
    requires key in Run(s, schedule).grants && Live(Run(s, schedule).grants[key])
    requires days == CapDays(Run(s, schedule))
    ensures var g, g' := s.grants[key], Run(s, schedule).grants[key];
      && g'.startedAt == g.startedAt
      && g'.expiresAt == if CapRuns(s, schedule) then Min(g.expiresAt, g.startedAt + days * DAY) else g.expiresAt
    decreases |schedule|
  {
    if schedule != [] {
      var e, rest := schedule[0], schedule[1..];
      var s1 := Step(s, e);
      StepKeepsInv(s, e);
      StepOnGrant(s, e, key);
      DeadStaysDead(s1, rest, key);
      ExpiryAfterRun(s1, rest, key, days);
      if Caps(s, e) {
        VerdictStays(s, schedule);
      }
    }
  }

  /**
   A renewed grant is out of reach of the renewing request's guardrail. It belongs to the request it was first granted
   for, and in every run it ends within that one's cap if and only if that cap is carried out after the renewal, or the
   renewed date respected it already.
   */
  lemma RenewedGrantCappedIff(
    s: State, before: seq<Event>, key: Key, expiresAt: int, now: int, after: seq<Event>, days: int)
    requires Fresh(s) && key.request == s.request
    requires key in Run(s, before).grants && Live(Run(s, before).grants[key]) && NeverRenewed(after, key)
    requires var s' := Run(Step(Run(s, before), Renew(key, expiresAt, now)), after);
      && key in s'.grants && Live(s'.grants[key])
      && s'.verdict.Some? && GuardrailCapDays(s'.verdict.value) == Some(days)
    ensures var renewed := Step(Run(s, before), Renew(key, expiresAt, now));
      var g := Run(renewed, after).grants[key];
      var cap := g.startedAt + days * DAY;
      g.expiresAt <= cap <==> CapRuns(renewed, after) || expiresAt <= cap
  {
    RunKeepsInv(s, before);
    var renewed := Step(Run(s, before), Renew(key, expiresAt, now));
    StepKeepsInv(Run(s, before), Renew(key, expiresAt, now));
    ExpiryAfterRun(renewed, after, key, days);
  }

  /** Once all has finished, no cap is carried out unless the request is approved anew. */
  lemma {:induction false} NoCapAfterTheEnd(s: State, schedule: seq<Event>)
    requires AllFinished(s) && forall i :: 0 <= i < |schedule| ==> !schedule[i].StartApproval?
    ensures !CapRuns(s, schedule)
    decreases |schedule|
  {
    if schedule != [] {
      NoCapAfterTheEnd(Step(s, schedule[0]), schedule[1..]);
    }
  }

  // ----- what becomes of one row -----

  /** Whether the grant may still be used, by the words in its row. */
  predicate Usable(g: Grant) {
    g.status == Healthy || g.status == Expiring
  }

  /**
   What a cap does to every row, in the row's own fields. It neither kills nor revives a grant, moves the expiry of the
   request's usable grants back to 7 or 30 days after their start if it is later, and calls a healthy grant expiring
   exactly if it shortened it to less than a week from now.
   */
  lemma CapEffect(grants: Grants, request: nat, verdict: Option<string>, now: int, key: Key)
    requires key in grants
    ensures var after := CapIfReady(grants, request, verdict, now);
      && after.Keys == grants.Keys
      && var g, g' := grants[key], after[key];
        var capped := key.request == request && Usable(g) && verdict in {Some("high"), Some("medium")};
        var cap := g.startedAt + (if verdict == Some("high") then 604_800 else 2_592_000);
        && (Usable(g') <==> Usable(g))
        && g'.startedAt == g.startedAt
        && g'.expiresAt == (if capped && cap < g.expiresAt then cap else g.expiresAt)
        && (g'.status != g.status <==>
              g.status == Healthy && g'.expiresAt < g.expiresAt && g'.expiresAt < now + 604_800)
        && (g'.status != g.status ==> g'.status == Expiring)
  {
  }

  /** A renewal sets the expiry of a usable grant, which is expiring exactly if less than a week is left then. */
  lemma RenewalEffect(grants: Grants, target: Key, expiresAt: int, now: int, key: Key)
    requires key in grants
    ensures var after := Extend(grants, target, expiresAt, now);
      && after.Keys == grants.Keys
      && (key != target || !Usable(grants[key]) ==> after[key] == grants[key])
      && (key == target && Usable(grants[key]) ==>
        && Usable(after[key]) && after[key].startedAt == grants[key].startedAt && after[key].expiresAt == expiresAt
        && (after[key].status == Expiring <==> expiresAt < now + 604_800))
  {
  }

  /** The promotion changes nothing but the status of healthy grants with less than a week to go. */
  lemma PromotionEffect(grants: Grants, now: int, key: Key)
    requires key in grants
    ensures var after := MarkExpiringSoon(grants, now);
      && after.Keys == grants.Keys && after[key].expiresAt == grants[key].expiresAt
      && (after[key] != grants[key] <==> grants[key].status == Healthy && grants[key].expiresAt < now + 604_800)
      && (after[key] != grants[key] ==> after[key].status == Expiring)
  {
  }

  /** The event takes the grant away: somebody revokes it, or the worker finds it past its expiry. */
  predicate Kills(s: State, e: Event, key: Key) {
    key in s.grants && match e
      case RevokeGrant(revoked) => revoked == key
      case ExpireGrant(expired, now) => expired == key && s.grants[key].expiresAt < now
      case _ => false
  }

  predicate KilledIn(s: State, schedule: seq<Event>, key: Key)
    decreases |schedule|
  {
    schedule != [] && (Kills(s, schedule[0], key) || KilledIn(Step(s, schedule[0]), schedule[1..], key))
  }

  lemma StepOnLife(s: State, e: Event, key: Key)
    ensures var s' := Step(s, e);
      && (key in s.grants ==> key in s'.grants)
      && (key in s.grants && Usable(s.grants[key]) ==> (Usable(s'.grants[key]) <==> !Kills(s, e, key)))
      && (key in s.grants && !Usable(s.grants[key]) ==> !Usable(s'.grants[key]))
      && (key !in s.grants && key in s'.grants ==> Usable(s'.grants[key]))
  {
  }

  lemma {:induction false} DeadStayDead(s: State, schedule: seq<Event>, key: Key)
    requires key in s.grants && !Usable(s.grants[key])
    ensures key in Run(s, schedule).grants && !Usable(Run(s, schedule).grants[key])
    decreases |schedule|
  {
    if schedule != [] {
      StepOnLife(s, schedule[0], key);
      DeadStayDead(Step(s, schedule[0]), schedule[1..], key);
    }
  }

  /**
   Every schedule, exactly: a grant that is there at the end is usable unless it was revoked or found past its expiry
   on the way; no cap, renewal or later approval takes one away, and none brings one back.
   */
  lemma {:induction false} UsableUnlessKilled(s: State, schedule: seq<Event>, key: Key)
    requires key in s.grants ==> Usable(s.grants[key])
    requires key in Run(s, schedule).grants
    ensures Usable(Run(s, schedule).grants[key]) <==> !KilledIn(s, schedule, key)
    decreases |schedule|
  {
    if schedule != [] {
      StepOnLife(s, schedule[0], key);
      if Kills(s, schedule[0], key) {
        DeadStayDead(Step(s, schedule[0]), schedule[1..], key);
      } else {
        UsableUnlessKilled(Step(s, schedule[0]), schedule[1..], key);
      }
    }
  }

  lemma {:induction false} NobodyKills(s: State, schedule: seq<Event>, key: Key)
    requires forall i :: 0 <= i < |schedule| ==>
      !(schedule[i].RevokeGrant? && schedule[i].key == key) && !(schedule[i].ExpireGrant? && schedule[i].key == key)
    ensures !KilledIn(s, schedule, key)
    decreases |schedule|
  {
    if schedule != [] {
      NobodyKills(Step(s, schedule[0]), schedule[1..], key);
    }
  }

  /** Without a revocation or an expiry of it, a row once inserted is usable at the end. */
  lemma InsertedStaysUsable(s: State, schedule: seq<Event>, key: Key)
    requires Fresh(s) && key.request == s.request && key in Run(s, schedule).grants
    requires forall i :: 0 <= i < |schedule| ==>
      !(schedule[i].RevokeGrant? && schedule[i].key == key) && !(schedule[i].ExpireGrant? && schedule[i].key == key)
    ensures Run(s, schedule).grants[key].status in {Healthy, Expiring}
  {
    NobodyKills(s, schedule, key);
    UsableUnlessKilled(s, schedule, key);
  }

  // ----- the approval as the service writes it -----

  function InsertAll(grants: Grants, keys: seq<Key>, startedAt: int, expiresAt: int, approval: nat): Grants
    decreases |keys|
  {
    if keys == [] then grants
    else InsertAll(Insert(grants, keys[0], startedAt, expiresAt, approval), keys[1..], startedAt, expiresAt, approval)
  }

  function CapIfReady(grants: Grants, request: nat, verdict: Option<string>, now: int): Grants {
    match PhaseAfterReading(verdict)
    case Capping(days) => ApplyGuardrailCap(grants, request, days, now)
    case _ => grants
  }

  lemma {:induction false} InsertAllConcat(
    grants: Grants, a: seq<Key>, b: seq<Key>, startedAt: int, expiresAt: int, approval: nat)
    ensures InsertAll(grants, a + b, startedAt, expiresAt, approval)
         == InsertAll(InsertAll(grants, a, startedAt, expiresAt, approval), b, startedAt, expiresAt, approval)
    decreases |a|
  {
    if a == [] {
      assert a + b == b;
    } else {
      assert (a + b)[1..] == a[1..] + b;
      InsertAllConcat(Insert(grants, a[0], startedAt, expiresAt, approval), a[1..], b, startedAt, expiresAt, approval);
    }
  }

  /** The grants after one approval that runs alone: every missing key inserted, the others kept, then capped. */
  lemma {:induction false} InsertAllContents(
    grants: Grants, keys: seq<Key>, startedAt: int, expiresAt: int, approval: nat, key: Key)
    ensures var after := InsertAll(grants, keys, startedAt, expiresAt, approval);
      && (key in after <==> key in grants || key in keys)
      && (key in grants ==> after[key] == grants[key])
      && (key !in grants && key in keys ==>
        after[key] == Grant(startedAt, expiresAt, Healthy, expiresAt, approval, false))
    decreases |keys|
  {
    if keys != [] {
      var first := Insert(grants, keys[0], startedAt, expiresAt, approval);
      InsertAllContents(first, keys[1..], startedAt, expiresAt, approval, key);
    }
  }

  /** Granting the same request again, later and by another approval, leaves the table as it is. */
  lemma {:induction false} RegrantChangesNothing(
    grants: Grants, keys: seq<Key>, startedAt: int, expiresAt: int, approval: nat)
    requires forall key :: key in keys ==> key in grants
    ensures InsertAll(grants, keys, startedAt, expiresAt, approval) == grants
    decreases |keys|
  {
    if keys != [] {
      RegrantChangesNothing(grants, keys[1..], startedAt, expiresAt, approval);
    }
  }

  lemma {:induction false} LoopKeysComplete(
    request: nat, principals: seq<string>, resource: string, privileges: seq<string>, key: Key)
    ensures key in LoopKeys(request, principals, resource, privileges)
      <==>
      && key.request == request && key.resource == resource
      && key.principal in principals && key.privilege in privileges
    decreases |principals|
  {
    if principals != [] {
      LoopKeysComplete(request, principals[1..], resource, privileges, key);
      var row := RowKeys(request, principals[0], resource, privileges);
      if key.privilege in privileges && key == Key(request, principals[0], resource, key.privilege) {
        var i :| 0 <= i < |privileges| && privileges[i] == key.privilege;
        assert row[i] == key;
      }
    }
  }

  lemma LoopKeysSnoc(
    request: nat, principals: seq<string>, resource: string, privileges: seq<string>, n: nat)
    requires n < |principals|
    ensures LoopKeys(request, principals[..n + 1], resource, privileges)
         == LoopKeys(request, principals[..n], resource, privileges)
            + RowKeys(request, principals[n], resource, privileges)
    decreases n
  {
    var one := principals[..n + 1];
    if n > 0 {
      assert one[1..] == principals[1..][..n];
      assert principals[..n][1..] == principals[1..][..n - 1];
      LoopKeysSnoc(request, principals[1..], resource, privileges, n - 1);
    } else {
      assert one[1..] == [];
      assert principals[..0] == [];
    }
  }

  /** The grants table, and the service methods that update it. */
  class GrantTable {
    var grants: Grants

    constructor ()
      ensures grants == map[]
    {
      grants := map[];
    }

    method InsertRow(key: Key, startedAt: int, expiresAt: int, approval: nat)
      modifies this
      ensures grants == Insert(old(grants), key, startedAt, expiresAt, approval)
    {
      if key !in grants {
        grants := grants[key := Grant(startedAt, expiresAt, Healthy, expiresAt, approval, false)];
      }
    }

    method ApplyGuardrailIfReady(request: nat, verdict: Option<string>, now: int)
      modifies this
      ensures grants == CapIfReady(old(grants), request, verdict, now)
    {
      match verdict {
        case None =>
        case Some(risk) =>
          var days := GuardrailCapDays(risk);
          if days.Some? {
            grants := ApplyGuardrailCap(grants, request, days.value, now);
          }
      }
    }

    /**
     Granting an approved request: a renewal extends its target row; any other request inserts a row per
     principal and privilege. Either way the guardrail of this request is then applied.
     */
    method GrantRequest(
      request: nat, principals: seq<string>, resource: string, privileges: seq<string>,
      startedAt: int, expiresAt: int, expiresAtOverride: Option<int>, renewalOf: Option<Key>,
      verdict: Option<string>, now: int, approval: nat)
      modifies this
      ensures var effective := if expiresAtOverride.Some? then expiresAtOverride.value else expiresAt;
        var keys := LoopKeys(request, principals, resource, privileges);
        grants == CapIfReady(
          if renewalOf.Some? then Extend(old(grants), renewalOf.value, effective, now)
          else InsertAll(old(grants), keys, startedAt, effective, approval),
          request, verdict, now)
    {
      var effective := if expiresAtOverride.Some? then expiresAtOverride.value else expiresAt;
      if renewalOf.Some? {
        grants := Extend(grants, renewalOf.value, effective, now);
        ApplyGuardrailIfReady(request, verdict, now);
        return;
      }
      for i := 0 to |principals|
        invariant var keys := LoopKeys(request, principals[..i], resource, privileges);
          grants == InsertAll(old(grants), keys, startedAt, effective, approval)
      {
        ghost var before := grants;
        ghost var row := RowKeys(request, principals[i], resource, privileges);
        for j := 0 to |privileges|
          invariant grants == InsertAll(before, row[..j], startedAt, effective, approval)
        {
          InsertRow(Key(request, principals[i], resource, privileges[j]), startedAt, effective, approval);
          InsertAllConcat(before, row[..j], [row[j]], startedAt, effective, approval);
          assert row[..j + 1] == row[..j] + [row[j]];
          assert [row[j]][1..] == [];
        }
        assert row[..|privileges|] == row;
        LoopKeysSnoc(request, principals, resource, privileges, i);
        ghost var keys := LoopKeys(request, principals[..i], resource, privileges);
        InsertAllConcat(old(grants), keys, row, startedAt, effective, approval);
      }
      assert principals[..|principals|] == principals;
      ApplyGuardrailIfReady(request, verdict, now);
    }
  }

  /** `n` inserts of approval `p`, then its verdict read, then its cap. */
  function SoloEvents(n: nat, p: nat, now: int): seq<Event> {
    if n == 0 then [ReadVerdict(p), CapAfterApproval(p, now)] else [InsertNext(p)] + SoloEvents(n - 1, p, now)
  }

  /**
   An approval that runs without interruption from its start does what the service method does: its table is the one
   that `GrantTable.GrantRequest` leaves.
   */
  lemma SoloApprovalIsGrantRequest(
    s: State, principals: seq<string>, resource: string, privileges: seq<string>,
    startedAt: int, expiresAt: int, now: int)
    ensures var keys := LoopKeys(s.request, principals, resource, privileges);
      var p := |s.approvals|;
      var start := StartApproval(principals, resource, privileges, startedAt, expiresAt);
      Run(s, [start] + SoloEvents(|keys|, p, now)).grants
      == CapIfReady(InsertAll(s.grants, keys, startedAt, expiresAt, p), s.request, s.verdict, now)
  {
    var keys, p := LoopKeys(s.request, principals, resource, privileges), |s.approvals|;
    var start := StartApproval(principals, resource, privileges, startedAt, expiresAt);
    var events := [start] + SoloEvents(|keys|, p, now);
    assert events[0] == start && events[1..] == SoloEvents(|keys|, p, now);
    SoloRunIsGrantRequest(Step(s, start), p, now);
  }

  /** The service method is the state machine's approval, run without interruption. */
  lemma {:induction false} SoloRunIsGrantRequest(s: State, p: nat, now: int)
    requires IsInserting(s, p)
    ensures var a := s.approvals[p];
      Run(s, SoloEvents(|a.phase.todo|, p, now)).grants
      == CapIfReady(InsertAll(s.grants, a.phase.todo, a.startedAt, a.expiresAt, p), s.request, s.verdict, now)
    decreases |s.approvals[p].phase.todo|
  {
    var a := s.approvals[p];
    var events := SoloEvents(|a.phase.todo|, p, now);
    if a.phase.todo != [] {
      assert events[0] == InsertNext(p) && events[1..] == SoloEvents(|a.phase.todo| - 1, p, now);
      SoloRunIsGrantRequest(Step(s, InsertNext(p)), p, now);
    } else {
      var s1 := Step(s, events[0]);
      assert Run(s, events) == Run(s1, events[1..]);
      assert events[1..][1..] == [];
      assert Run(s1, events[1..]) == Step(s1, events[1]);
    }
  }
}
