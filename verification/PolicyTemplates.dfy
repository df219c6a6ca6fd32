/**
 Which policy template governs a permission request, and what it fixes: the longest grant and the
 approval chain.
 */
module PolicyTemplates {
  import opened Options
  import Approvals

  datatype Template = Template(
    id: nat, scope: string, resource: Option<string>, teamIds: seq<nat>, privileges: seq<string>,
    lastUpdated: int, approvalMode: string, maxGrantDurationDays: int, ownerId: nat,
    approvalSteps: seq<TemplateStep>)

  datatype TemplateStep = TemplateStep(stage: int, team: nat)

  datatype Ordering = Less | Equal | Greater

  const SECURITY_TEAM: nat := 5

  // ----- the order -----

  function CompareInts(a: int, b: int): Ordering {
    if a < b then Less else if a == b then Equal else Greater
  }

  function ThenWith(first: Ordering, second: Ordering): Ordering {
    if first == Equal then second else first
  }

  function Specific(t: Template): int {
    if t.resource.Some? then 1 else 0
  }

  /** Resource-specific first, then fewer teams, fewer privileges, newer, smaller id. */
  function Compare(left: Template, right: Template): Ordering {
    ThenWith(CompareInts(Specific(right), Specific(left)),
    ThenWith(CompareInts(|left.teamIds|, |right.teamIds|),
    ThenWith(CompareInts(|left.privileges|, |right.privileges|),
    ThenWith(CompareInts(right.lastUpdated, left.lastUpdated),
             CompareInts(left.id, right.id)))))
  }

  predicate Precedes(t: Template, u: Template) {
    Compare(t, u) != Greater
  }

  predicate Sorted(ts: seq<Template>) {
    forall i, j :: 0 <= i < j < |ts| ==> Precedes(ts[i], ts[j])
  }

  predicate IdsIdentify(ts: seq<Template>) {
    forall t, u :: t in ts && u in ts && t.id == u.id ==> t == u
  }

  /** The comparator is a total order up to equal ids. */
  lemma CompareIsTotalOrder(t: Template, u: Template, v: Template)
    ensures Precedes(t, u) || Precedes(u, t)
    ensures Precedes(t, u) && Precedes(u, t) ==> t.id == u.id
    ensures Precedes(t, u) && Precedes(u, v) ==> Precedes(t, v)
    ensures (Compare(t, u) == Less) == (Compare(u, t) == Greater)
  {
  }

  // ----- the choice -----

  predicate Applies(t: Template, scope: string, resource: string, teamId: Option<nat>, privileges: seq<string>) {
    && t.scope == scope
    && (t.resource == None || t.resource == Some(resource))
    && teamId.Some? && teamId.value in t.teamIds
    && forall p :: p in privileges ==> p in t.privileges
  }

  function Matches(
    ts: seq<Template>, scope: string, resource: string, teamId: Option<nat>, privileges: seq<string>)
    : (r: seq<Template>)
    ensures forall t :: t in r <==> t in ts && Applies(t, scope, resource, teamId, privileges)
  {
    if ts == [] then []
    else
      var rest := Matches(ts[1..], scope, resource, teamId, privileges);
      if Applies(ts[0], scope, resource, teamId, privileges) then [ts[0]] + rest else rest
  }

  function InsertSorted(t: Template, ts: seq<Template>): seq<Template> {
    if ts == [] || Precedes(t, ts[0]) then [t] + ts else [ts[0]] + InsertSorted(t, ts[1..])
  }

  /** A stable sort by the comparator. */
  function StableSort(ts: seq<Template>): seq<Template> {
    if ts == [] then [] else InsertSorted(ts[0], StableSort(ts[1..]))
  }

  function FindBestTemplate(
    scope: string, resource: string, teamId: Option<nat>, privileges: seq<string>, ts: seq<Template>): Option<Template>
  {
    var sorted := StableSort(Matches(ts, scope, resource, teamId, privileges));
    if sorted == [] then None else Some(sorted[0])
  }

  lemma {:induction false} InsertSortedIsSorted(t: Template, ts: seq<Template>)
    requires Sorted(ts)
    ensures Sorted(InsertSorted(t, ts))
    ensures multiset(InsertSorted(t, ts)) == multiset([t]) + multiset(ts)
    decreases |ts|
  {
    if ts == [] {
    } else if Precedes(t, ts[0]) {
      forall j | 0 <= j < |ts|
        ensures Precedes(t, ts[j])
      {
        CompareIsTotalOrder(t, ts[0], ts[j]);
      }
    } else {
      InsertSortedIsSorted(t, ts[1..]);
      CompareIsTotalOrder(t, ts[0], t);
      assert ts == [ts[0]] + ts[1..];
      var rest := InsertSorted(t, ts[1..]);
      forall j | 0 <= j < |rest|
        ensures Precedes(ts[0], rest[j])
      {
        assert rest[j] in multiset(rest);
        assert rest[j] == t || rest[j] in ts[1..];
      }
    }
  }

  lemma {:induction false} StableSortSorts(ts: seq<Template>)
    ensures Sorted(StableSort(ts))
    ensures multiset(StableSort(ts)) == multiset(ts)
  {
    if ts != [] {
      StableSortSorts(ts[1..]);
      InsertSortedIsSorted(ts[0], StableSort(ts[1..]));
      assert ts == [ts[0]] + ts[1..];
    }
  }

  /** What it means to govern: to apply, and to precede every other template that applies. */
  predicate Governs(
    t: Template, scope: string, resource: string, teamId: Option<nat>, privileges: seq<string>, ts: seq<Template>)
  {
    && t in ts && Applies(t, scope, resource, teamId, privileges)
    && forall u :: u in ts && Applies(u, scope, resource, teamId, privileges) ==> Precedes(t, u)
  }

  /** The chosen template is the governing one; there is a choice whenever some template applies. */
  lemma FindBestChoosesGoverning(
    scope: string, resource: string, teamId: Option<nat>, privileges: seq<string>, ts: seq<Template>)
    ensures var best := FindBestTemplate(scope, resource, teamId, privileges, ts);
      && (best.Some? ==> Governs(best.value, scope, resource, teamId, privileges, ts))
      && (best == None <==> forall t :: t in ts ==> !Applies(t, scope, resource, teamId, privileges))
  {
    var matches := Matches(ts, scope, resource, teamId, privileges);
    var sorted := StableSort(matches);
    StableSortSorts(matches);
    FirstIsLeast(matches, sorted);
    if sorted == [] {
      forall t | t in ts
        ensures !Applies(t, scope, resource, teamId, privileges)
      {
        assert t in matches ==> t in multiset(sorted);
      }
    } else {
      assert sorted[0] in multiset(matches);
    }
  }

  lemma FirstIsLeast(ts: seq<Template>, sorted: seq<Template>)
    requires multiset(sorted) == multiset(ts) && Sorted(sorted)
    ensures sorted != [] ==> sorted[0] in ts && forall u :: u in ts ==> Precedes(sorted[0], u)
  {
    if sorted != [] {
      assert sorted[0] in multiset(sorted);
      forall u | u in ts
        ensures Precedes(sorted[0], u)
      {
        assert u in multiset(sorted);
        var j :| 0 <= j < |sorted| && sorted[j] == u;
        CompareIsTotalOrder(u, u, u);
      }
    }
  }

  /** With unique ids there is one governing template, so it is the answer, whatever the order of the list. */
  lemma GoverningIsUnique(
    scope: string, resource: string, teamId: Option<nat>, privileges: seq<string>, ts: seq<Template>, t: Template)
    requires IdsIdentify(ts)
    ensures FindBestTemplate(scope, resource, teamId, privileges, ts) == Some(t)
       <==> Governs(t, scope, resource, teamId, privileges, ts)
  {
    FindBestChoosesGoverning(scope, resource, teamId, privileges, ts);
    if Governs(t, scope, resource, teamId, privileges, ts) {
      var best := FindBestTemplate(scope, resource, teamId, privileges, ts).value;
      CompareIsTotalOrder(t, best, t);
    }
  }

  /** The choice depends only on which templates exist, not on the order or repetition of the list. */
  lemma ChoiceIgnoresListOrder(
    scope: string, resource: string, teamId: Option<nat>, privileges: seq<string>,
    ts: seq<Template>, ts': seq<Template>)
    requires IdsIdentify(ts)
    requires forall t :: t in ts <==> t in ts'
    ensures FindBestTemplate(scope, resource, teamId, privileges, ts)
         == FindBestTemplate(scope, resource, teamId, privileges, ts')
  {
    FindBestChoosesGoverning(scope, resource, teamId, privileges, ts);
    FindBestChoosesGoverning(scope, resource, teamId, privileges, ts');
    var best := FindBestTemplate(scope, resource, teamId, privileges, ts);
    if best.Some? {
      GoverningIsUnique(scope, resource, teamId, privileges, ts', best.value);
    }
  }

  /** Nor on the sorting algorithm: any sorted arrangement of the matches starts with the same template. */
  lemma ChoiceIgnoresSortAlgorithm(
    scope: string, resource: string, teamId: Option<nat>, privileges: seq<string>,
    ts: seq<Template>, sorted: seq<Template>)
    requires IdsIdentify(ts)
    requires multiset(sorted) == multiset(Matches(ts, scope, resource, teamId, privileges)) && Sorted(sorted)
    ensures FindBestTemplate(scope, resource, teamId, privileges, ts)
         == if sorted == [] then None else Some(sorted[0])
  {
    var matches := Matches(ts, scope, resource, teamId, privileges);
    FirstIsLeast(matches, sorted);
    if sorted == [] {
      FindBestChoosesGoverning(scope, resource, teamId, privileges, ts);
      assert |multiset(matches)| == 0;
    } else {
      GoverningIsUnique(scope, resource, teamId, privileges, ts, sorted[0]);
    }
  }

  /** Whether a template covers a request, column by column. */
  predicate Fits(t: Template, scope: string, resource: string, teamId: Option<nat>, privileges: seq<string>) {
    && t.scope == scope && (t.resource.Some? ==> t.resource.value == resource)
    && (exists i :: 0 <= i < |t.teamIds| && teamId == Some(t.teamIds[i]))
    && forall i :: 0 <= i < |privileges| ==> privileges[i] in t.privileges
  }

  /** The key by key comparison with one other template. */
  predicate WinsOver(t: Template, u: Template) {
    && (t.resource == None ==> u.resource == None)
    && (t.resource.Some? == u.resource.Some? ==>
      && |t.teamIds| <= |u.teamIds|
      && (|t.teamIds| == |u.teamIds| ==>
        && |t.privileges| <= |u.privileges|
        && (|t.privileges| == |u.privileges| ==>
          && t.lastUpdated >= u.lastUpdated
          && (t.lastUpdated == u.lastUpdated ==> t.id <= u.id))))
  }

  /**
   The chosen template, by its columns: it fits, and against every other one that fits it names the resource if that
   one does, then covers no more teams, then no more privileges, then is no older, then has no larger id.
   */
  lemma ChosenByKeys(
    scope: string, resource: string, teamId: Option<nat>, privileges: seq<string>, ts: seq<Template>)
    ensures var best := FindBestTemplate(scope, resource, teamId, privileges, ts);
      && (best == None <==> forall u :: u in ts ==> !Fits(u, scope, resource, teamId, privileges))
      && (best.Some? ==>
        && best.value in ts && Fits(best.value, scope, resource, teamId, privileges)
        && forall u :: u in ts && Fits(u, scope, resource, teamId, privileges) ==> WinsOver(best.value, u))
  {
    FindBestChoosesGoverning(scope, resource, teamId, privileges, ts);
    forall u | u in ts
      ensures Fits(u, scope, resource, teamId, privileges) <==> Applies(u, scope, resource, teamId, privileges)
    {
      FitsIffApplies(u, scope, resource, teamId, privileges);
    }
    var best := FindBestTemplate(scope, resource, teamId, privileges, ts);
    if best.Some? {
      forall u | u in ts && Fits(u, scope, resource, teamId, privileges) ensures WinsOver(best.value, u) {
        WinsIffPrecedes(best.value, u);
      }
    }
  }

  lemma FitsIffApplies(
    t: Template, scope: string, resource: string, teamId: Option<nat>, privileges: seq<string>)
    ensures Fits(t, scope, resource, teamId, privileges) <==> Applies(t, scope, resource, teamId, privileges)
  {
  }

  lemma WinsIffPrecedes(t: Template, u: Template)
    ensures WinsOver(t, u) <==> Precedes(t, u)
  {
  }

  // ----- how long a grant lasts -----

  function Min(a: int, b: int): int {
    if a < b then a else b
  }

  /** The stored duration in days: the requested one or 7, at most 365, at most the template's maximum. */
  function EffectiveDays(requestedDays: Option<int>, templateMax: Option<int>): int {
    var requested := Min(
      match requestedDays case Some(d) => (if d < 1 then 1 else d) case None => 7,
      365);
    match templateMax case Some(max) => Min(requested, max) case None => requested
  }

  datatype Body = Body(
    scope: string, resource: string, teamId: Option<nat>, privileges: seq<string>, requestedDays: Option<int>)

  /** The stored request carries the body's own fields, and the match is repeated on it. */
  datatype Stored = Stored(body: Body, days: int)

  function GoverningTemplate(stored: Stored, ts: seq<Template>): Option<Template> {
    FindBestTemplate(stored.body.scope, stored.body.resource, stored.body.teamId, stored.body.privileges, ts)
  }

  function CreateRequest(body: Body, ts: seq<Template>): Option<Stored> {
    if body.privileges == [] then None
    else if body.requestedDays.Some? && body.requestedDays.value < 1 then None
    else
      var preMatch := FindBestTemplate(body.scope, body.resource, body.teamId, body.privileges, ts);
      Some(Stored(body, EffectiveDays(body.requestedDays,
                                      if preMatch.Some? then Some(preMatch.value.maxGrantDurationDays) else None)))
  }

  /** The durations a request may be stored with: what was asked for, a week if nothing was, a year, the maximum. */
  predicate MayLast(body: Body, governing: Option<Template>, days: int) {
    && (if body.requestedDays.Some? then days <= body.requestedDays.value else days <= 7)
    && days <= 365
    && (governing.Some? ==> days <= governing.value.maxGrantDurationDays)
  }

  /** A request is stored unless it names no privilege or asks for less than a day, for as long as is allowed. */
  lemma StoredDurationIsLongest(body: Body, ts: seq<Template>)
    ensures CreateRequest(body, ts) == None
      <==> body.privileges == [] || (body.requestedDays.Some? && body.requestedDays.value < 1)
    ensures CreateRequest(body, ts).Some? ==>
      var stored := CreateRequest(body, ts).value;
      var governing := FindBestTemplate(body.scope, body.resource, body.teamId, body.privileges, ts);
      && stored.body == body
      && MayLast(body, governing, stored.days)
      && forall days: int :: MayLast(body, governing, days) ==> days <= stored.days
  {
  }

  /**
   The stored duration never exceeds what was asked for, a year, or the maximum of the template that
   governs the stored request, even if the database lists the templates in another order the second time;
   it is at least a day if and only if that maximum is.
   */
  lemma StoredDurationIsGoverned(body: Body, ts: seq<Template>, ts': seq<Template>)
    requires IdsIdentify(ts) && multiset(ts) == multiset(ts')
    requires CreateRequest(body, ts).Some?
    ensures var stored := CreateRequest(body, ts).value;
      var governing := GoverningTemplate(stored, ts');
      && stored.days <= 365
      && (body.requestedDays.Some? ==> stored.days <= body.requestedDays.value)
      && (governing.Some? ==> stored.days <= governing.value.maxGrantDurationDays)
      && (stored.days >= 1 <==> governing == None || governing.value.maxGrantDurationDays >= 1)
  {
    forall t
      ensures t in ts <==> t in ts'
    {
      assert t in ts <==> t in multiset(ts);
      assert t in ts' <==> t in multiset(ts');
    }
    ChoiceIgnoresListOrder(body.scope, body.resource, body.teamId, body.privileges, ts, ts');
  }

  /** The duration a grant is issued for: the reviewer's override, or else the stored one. */
  function GrantedDays(stored: Stored, override: Option<int>): int {
    if override.Some? then override.value else stored.days
  }

  /** A reviewer's override is not capped: the governing maximum holds for the grant iff the override respects it. */
  lemma OverrideIsNotCapped(body: Body, ts: seq<Template>, override: Option<int>)
    requires CreateRequest(body, ts).Some?
    requires GoverningTemplate(CreateRequest(body, ts).value, ts).Some?
    ensures var stored := CreateRequest(body, ts).value;
      var max := GoverningTemplate(stored, ts).value.maxGrantDurationDays;
      GrantedDays(stored, override) <= max <==> override == None || override.value <= max
  {
  }

  // ----- the approval chain -----

  function FromTemplateSteps(steps: seq<TemplateStep>, rank: nat -> nat): seq<Approvals.ChainStep> {
    seq(|steps|, i requires 0 <= i < |steps| =>
      Approvals.ChainStep(i, steps[i].stage, steps[i].team, rank(steps[i].team)))
  }

  /** The template's own steps, or the default ones of its mode, or a single manual review. */
  function ApprovalChain(match': Option<Template>, fallback: nat, rank: nat -> nat): seq<Approvals.ChainStep> {
    match match'
    case None => [Approvals.ChainStep(0, 1, fallback, rank(fallback))]
    case Some(t) =>
      var owner := Approvals.ChainStep(0, 1, t.ownerId, rank(t.ownerId));
      if t.approvalSteps != [] then FromTemplateSteps(t.approvalSteps, rank)
      else if t.approvalMode == "auto" then []
      else if t.approvalMode == "escalate" && t.ownerId != SECURITY_TEAM
      then [owner, Approvals.ChainStep(1, 2, SECURITY_TEAM, rank(SECURITY_TEAM))]
      else [owner]
  }

  /** Who has to approve, and in which stage. */
  predicate Asks(step: Approvals.ChainStep, stage: int, team: nat) {
    step.stage == stage && step.team == team
  }

  /**
   Without a template the fallback reviewer approves alone. A template's own steps are taken as they are; without any,
   an automatic template asks nobody, an escalating one its owner and then security, team 5, unless those are the
   same, and every other one its owner.
   */
  lemma ChainApprovers(match': Option<Template>, fallback: nat, rank: nat -> nat)
    ensures var chain := ApprovalChain(match', fallback, rank);
      && (forall i :: 0 <= i < |chain| ==> chain[i].teamRank == rank(chain[i].team))
      && (forall i, j :: 0 <= i < j < |chain| ==> chain[i].id != chain[j].id)
      && match match'
        case None => |chain| == 1 && Asks(chain[0], 1, fallback)
        case Some(t) =>
          if t.approvalSteps != [] then
            && |chain| == |t.approvalSteps|
            && forall i :: 0 <= i < |chain| ==> Asks(chain[i], t.approvalSteps[i].stage, t.approvalSteps[i].team)
          else if t.approvalMode == "auto" then chain == []
          else
            && |chain| == (if t.approvalMode == "escalate" && t.ownerId != 5 then 2 else 1)
            && Asks(chain[0], 1, t.ownerId)
            && (|chain| == 2 ==> Asks(chain[1], 2, 5))
  {
  }

  /**
   What becomes of a new request under its governing template: it is granted at once exactly for an
   automatic template without steps of its own, and otherwise can run its course through the status
   endpoint unless those steps lack a first stage.
   */
  lemma ChainOutcome(match': Option<Template>, fallback: nat, rank: nat -> nat)
    ensures var chain := ApprovalChain(match', fallback, rank);
      var owner := if match'.Some? then match'.value.ownerId else fallback;
      var r := Approvals.Create(chain, owner, fallback);
      && (r.grants == 1 <==> match'.Some? && match'.value.approvalMode == "auto" && match'.value.approvalSteps == [])
      && (chain != [] ==>
            (Approvals.NeverStuck(r) <==>
              match' == None || match'.value.approvalSteps == [] ||
              exists i :: 0 <= i < |match'.value.approvalSteps| && match'.value.approvalSteps[i].stage == 1))
  {
    var chain := ApprovalChain(match', fallback, rank);
    var owner := if match'.Some? then match'.value.ownerId else fallback;
    if chain != [] {
      Approvals.NeverStuckIffStage1(chain, owner, fallback);
      var steps := Approvals.InitialSteps(chain);
      Approvals.DerivedApproval(steps, fallback);
      assert steps[0].status != Approvals.Approved;
      if match' == None || match'.value.approvalSteps == [] {
        assert chain[0].stage == 1;
      } else {
        assert forall i :: 0 <= i < |chain| ==> chain[i].stage == match'.value.approvalSteps[i].stage;
      }
    }
  }
}
