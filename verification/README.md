# Verification of the data platform's algorithms

This project models the parts of the platform that carry an algorithm or a protocol, and proves what they are for.
`dafny verify dfyconfig.toml` checks all of it.

- **Access governance** (`Guardrail`, `Approvals`, `ApprovalStatus`, `ApprovalRaces`,
  `PolicyTemplates`, `BlastRadius`). The control
  plane grants access to data sets. It walks the lineage graph to rate a request, picks the policy template that
  governs it, runs it through staged approvals, and caps the grants once a language model has rated the risk. Grants
  and approval steps live in Postgres; the SQL statements are modelled as the adapters write them, and the two places
  where independent tasks work on the same rows are state machines over single statements.
- **Synthetic data** (`Apportionment`, `Banking`, `IncidentSampling`, `Csv`, `CsvRestore`). The generator divides rows over profiles
  by largest remainder, writes bank ledgers, samples tickets by weight, and stores everything as CSV. Random draws are
  inputs; sums are over reals.
- **Transparency log** (`LogEntries`, `MerkleProof`, `EntryBundles`, `TilePaths`). The Chronicle service pages through
  log entries that are stored in bundles of 256; its user interface draws audit paths (RFC 6962, section 2.1.1), parses
  entry bundles and forms tile paths (C2SP tlog-tiles, sections 'Log Entries' and 'Merkle Tree').
- **Data grid** (`TsvGrid`, `TsvRoundTrip`, `TsvQuoted`, `TsvPlain`, `NotificationStore`, `DataUpdates`, `BadgeOverflow`). The web
  interface parses pasted tables, notifies its views of changes in batches, writes edits back, and packs badges.
- **Search and files** (`RankFusion`, `Redistribution`). Two result lists merged by reciprocal rank; images spread
  over customer folders under free names.

`Options`, `Strings`, `Decimals` and `TileLayout` hold what several of them share.

Code that updates variables step by step is a method with the source's loop, proved against a function; code that
updates fields is a class. The theorems are about those functions and about whole runs.

## What the code does not promise

Some natural properties are false of the code. The model keeps the code as it is, and states exactly when they hold:

- `proofSteps` takes a sibling's side from a bit of the index. That is right for a leaf exactly when its audit path is
  as long as the tree is high, so always in logs of power-of-two size, but not for the last of three entries
  (`DrawnSidesExact`, `ThreeEntryCounterexample`), and the bit is read right only at levels below 32
  (`LevelIsReadIff`).
- A page's `has_more` is exact, but a client that asks for more than 500 entries and steps by what it asked for skips
  some: following such pages restores the list if and only if the limit or the list is at most 500 (`PagingIsExact`).
- Pasting a printed table of two or more columns, with no tab in a cell and no quoted field, gives it back if and only
  if every row can be rejoined and some row is unbroken (`RoundTripIff`).
- A CSV file with plain distinct headers and no newline in a field comes back if and only if no line but the last ends
  in a carriage return and nothing but the final newline is blank at either end (`FileRoundTripIff`).
- A cancelled request is reported as "cancelled" if and only if no step was approved or sent back before
  (`CancelOutcome`).
- A grant may be issued twice when calls race: no interleaving does so if and only if the chain has a single step, or
  no stage numbered 1 (`GrantsAtMostOnceIff`). In every run that completes a chain, each approving call that had not
  derived the status yet issues a grant (`LateReadersGrantEach`). A request with no chain is granted on every approval
  (`EmptyChainGrantsEveryTime`).
- A request whose chain has no stage numbered 1 cannot be approved through the status endpoint
  (`NeverStuckIffStage1`); it is granted exactly if a bulk approval takes it along (`OnlyBulkGrantsWithoutStage1`).
- Bulk approval grants requests with cancelled steps (`BulkApprovalCovered`), and grants a second time if and only if
  every step had been approved and the status was then set by hand (`BulkGrantsTwiceAfter`).
- A renewed grant keeps belonging to the request it was first granted for. In every run it ends within that request's
  cap if and only if that cap is carried out after the renewal or the renewed date respected it
  (`RenewedGrantCappedIff`); the renewing request's guardrail never reaches it.
- Banking rows are as many as asked for if and only if there are profiles or none are asked for
  (`GenerateBankingTransactions`).
- A listener that throws keeps a notification from the ones after it. Whatever happens, all listeners are up to date
  once nothing is under way if and only if no listener that may throw has another one beside it (`UpToDateIff`).
- A badge wider than a line is still shown when a line is free for it; the packing is the longest that fits if and only
  if none is (`MaximalIff`).
- An edit reaches the row on display if and only if the data still holds that row (`ReachesShownRowIffHeld`).
- Reciprocal rank fusion keeps the rankings that both lists share, on all lists it can score, if and only if its
  constant is at least -1; with 0 it can score no row at all, and with -1 only lists of at most one (`ParetoIff`).

The entry count shown for a malformed bundle includes the error record.

## Model

| member | source | states |
|---|---|---|
| Guardrail.GuardrailCapDays | packages/controlplane/src/application/permission_service.rs:698-704 | The verdict "high" caps at 7 days, "medium" at 30, and no other verdict caps |
| Guardrail.StepKeepsInv | packages/controlplane/src/application/permission_service.rs:514-542 | Every statement of the grant loop, of the LLM analysis and of other requests, and every revocation or expiry, keeps the invariant: each row of the request that was not renewed is capped, or an approval or the analysis that will cap it is still on its way |
| Guardrail.RunKeepsInv | packages/controlplane/src/application/permission_service.rs:572-601 | So does every interleaving of any number of approvals with the LLM analysis |
| Guardrail.NoGrantEscapesTheGuardrail | packages/controlplane/src/application/permission_service.rs:904-939 | For every interleaving, once all have finished every live grant of the request that was not renewed expires at the time its approval asked for or 7 or 30 days after its start, by the verdict, whichever is earlier; the cap neither misses a grant nor moves an expiry back |
| Guardrail.CapEffect | packages/controlplane/src/adapters/outbound/postgres/time_bound_grants.rs:119-156 | What a cap does to every row, in the row's own fields: it neither kills nor revives a grant, shortens the request's usable ones to the cap, and calls a healthy one expiring exactly if it shortened it to less than a week |
| Guardrail.UsableUnlessKilled | packages/controlplane/src/adapters/outbound/postgres/time_bound_grants.rs:104-117 | In every schedule a grant that is there at the end is usable unless it was revoked, or found past its expiry, on the way; nothing brings one back |
| Guardrail.InsertedStaysUsable | packages/controlplane/src/application/permission_service.rs:514-542 | Without a revocation or an expiry of it, a row once inserted is usable at the end of every schedule |
| Guardrail.RenewalEffect | packages/controlplane/src/adapters/outbound/postgres/time_bound_grants.rs:76-100 | A renewal moves the expiry of a usable grant and of no other row, and says whether less than a week is left |
| Guardrail.PromotionEffect | packages/controlplane/src/adapters/outbound/postgres/time_bound_grants.rs:160-172 | Exactly the healthy grants with less than a week left become expiring |
| Guardrail.OtherRequestsKeepTheirExpiry | packages/controlplane/src/adapters/outbound/postgres/time_bound_grants.rs:119-156 | No run for one request moves the start or expiry of another request's grant, unless that grant is renewed or its own request's guardrail runs |
| Guardrail.LoopKeysComplete | packages/controlplane/src/application/permission_service.rs:514-540 | The nested loop visits exactly the pairs of a principal and a privilege |
| Guardrail.InsertAllContents | packages/controlplane/src/adapters/outbound/postgres/time_bound_grants.rs:36-71 | After the loop exactly the missing rows are new, with the effective expiry, and existing rows are as they were |
| Guardrail.RegrantChangesNothing | packages/controlplane/src/adapters/outbound/postgres/time_bound_grants.rs:54-58 | Granting the same request again, with whatever expiry, changes no row |
| Guardrail.GrantTable.ApplyGuardrailIfReady | packages/controlplane/src/application/permission_service.rs:572-601 | Caps by the verdict if there is one that caps, and else leaves the table alone |
| Guardrail.GrantTable.GrantRequest | packages/controlplane/src/application/permission_service.rs:433-566 | The whole table after granting: a renewal's row extended or the loop's rows inserted, then the request's cap |
| Guardrail.SoloRunIsGrantRequest | packages/controlplane/src/application/permission_service.rs:514-542 | The method's effect is that of the state machine's statements run without interruption |
| Guardrail.SoloApprovalIsGrantRequest | packages/controlplane/src/application/permission_service.rs:433-566 | From its start on, an uninterrupted approval leaves the table that the method leaves |
| Guardrail.RenewedGrantCappedIff | packages/controlplane/src/application/permission_service.rs:471-512 | For every run before and after it, a renewed grant ends within its own request's cap if and only if that cap is carried out after the renewal or the renewed date respected it |
| Guardrail.NoCapAfterTheEnd | packages/controlplane/src/application/permission_service.rs:572-601 | Once everything has finished no cap is carried out, unless the request is approved anew |
| Approvals.CreateEstablishesInv | packages/controlplane/src/adapters/outbound/postgres/permission_requests.rs:507-551 | A new request with a chain has no grant, and stages are in order |
| Approvals.CallKeepsInv | packages/controlplane/src/application/permission_service.rs:1200-1340 | Every status call keeps: one grant if all steps are approved, none otherwise, and no step started before the earlier stages are approved |
| Approvals.GrantIssuedOnceWhenAllApproved | packages/controlplane/src/application/permission_service.rs:1217-1272 | After any calls on a new request with a chain the grant has been issued exactly once if every step is approved, and never otherwise; stages are positive, as the table demands |
| Approvals.EmptyChainGrantsEveryTime | packages/controlplane/src/application/permission_service.rs:1241-1271 | Without a chain every approval issues a grant |
| Approvals.PendingIsCurrent | packages/controlplane/src/application/permission_service.rs:824-843 | In every reachable state a pending step is a current one, so that the database accepts its mark |
| Approvals.ActivationUnsticks | packages/controlplane/src/adapters/outbound/postgres/permission_requests.rs:681-714 | After activation somebody can act, or all is approved, or somebody has disturbed the chain |
| Approvals.NeverStuckIffStage1 | packages/controlplane/src/application/permission_service.rs:1103-1165 | Through the status endpoint a new request can always proceed if and only if its chain has a stage numbered 1 |
| Approvals.StuckNeverGranted | packages/controlplane/src/adapters/outbound/postgres/permission_requests.rs:618-643 | Where nobody is asked no sequence of calls of the status endpoint ever grants |
| Approvals.ApprovalsReachTheGrant | packages/controlplane/src/application/permission_service.rs:1217-1272 | From any undisturbed state that is not stuck, approvals alone lead to exactly one grant |
| Approvals.CancelOutcome | packages/controlplane/src/application/permission_service.rs:766-807 | Which status a cancellation reports, for every state of the steps; it never grants |
| Approvals.DisturbedNeverGranted | packages/controlplane/src/adapters/outbound/postgres/permission_requests.rs:618-643 | A cancelled or returned step keeps its status through any calls of the status endpoint, and the request is never granted |
| Approvals.BulkApprovalCovered | packages/controlplane/src/adapters/outbound/postgres/permission_requests.rs:663-679 | Bulk approval leaves every step approved if and only if none was cancelled |
| Approvals.BulkGrantsTwiceAfter | packages/controlplane/src/application/permission_service.rs:1307-1340 | After any calls on a new request, bulk approval issues a second grant if and only if every step had been approved and the last answered call then set the status by hand |
| Approvals.OnlyBulkGrantsWithoutStage1 | packages/controlplane/src/application/permission_service.rs:1307-1340 | A request without a stage numbered 1 is granted, in any run of calls and bulk approvals, if and only if a bulk approval takes it along |
| Approvals.BulkCounterexamples | packages/controlplane/src/application/permission_service.rs:1307-1340 | Bulk approval grants a cancelled request, and a granted one again |
| Approvals.RequestRecord.constructor | packages/controlplane/src/application/permission_service.rs:1103-1165 | The record of a new request: its steps, the status and reviewer they show, and its grant |
| Approvals.RequestRecord.Sync | packages/controlplane/src/application/permission_service.rs:809-822 | Status and reviewer follow from the steps |
| Approvals.RequestRecord.MarkApprovalStep | packages/controlplane/src/adapters/outbound/postgres/permission_requests.rs:618-643 | Gives the named step its new status if and only if it is pending; otherwise nothing changes |
| Approvals.RequestRecord.UpdateRequestStatus | packages/controlplane/src/application/permission_service.rs:1200-1305 | The whole new record after a status call, or an unchanged one when the call is refused |
| Approvals.RequestRecord.ApproveInBulk | packages/controlplane/src/application/permission_service.rs:1307-1340 | The whole new record after a bulk approval |
| ApprovalStatus.DerivedByCases | packages/controlplane/src/application/permission_service.rs:766-807 | Which status and reviewer the steps show: the first that needs information; else the asked step of the lowest stage and the first team name; else the last step if all are approved or all cancelled; else the first that waits, or the fallback |
| ApprovalStatus.ShownIsUnique | packages/controlplane/src/application/permission_service.rs:766-807 | No other status and reviewer fit the steps |
| ApprovalStatus.NewRequestIsInSync | packages/controlplane/src/application/permission_service.rs:1103-1165 | A new request shows what its steps say: with a first stage it is ready and waits for a team of that stage, and else pending |
| ApprovalStatus.ActivationOpens | packages/controlplane/src/adapters/outbound/postgres/permission_requests.rs:681-714 | A step opens exactly if it waits and every step of an earlier stage is approved |
| ApprovalStatus.TargetOfCall | packages/controlplane/src/application/permission_service.rs:824-843 | A call is about the step it names, or the one step that can act if there is exactly one |
| ApprovalStatus.CallIsAnsweredIff | packages/controlplane/src/application/permission_service.rs:1200-1305 | Which calls are answered and which refused |
| ApprovalStatus.ApprovalEffect | packages/controlplane/src/application/permission_service.rs:1242-1259 | An approval changes the asked step and opens what waits behind approved stages, and nothing else; the request then shows its steps, and has one more grant exactly if all are approved |
| ApprovalStatus.QuestionEffect | packages/controlplane/src/application/permission_service.rs:1261-1272 | Asking for information changes the asked step only |
| ApprovalStatus.CancellationEffect | packages/controlplane/src/adapters/outbound/postgres/permission_requests.rs:645-661 | A cancellation closes exactly what waits or is asked, and grants nothing |
| ApprovalStatus.BulkEffect | packages/controlplane/src/application/permission_service.rs:1307-1340 | Bulk approval approves every step but the cancelled ones, and grants unless the status was "approved" |
| ApprovalRaces.StepKeepsInv | packages/controlplane/src/application/permission_service.rs:1241-1271 | Every statement of every racing call keeps: grants only over approved chains, and an approved chain is granted or some call will still grant it |
| ApprovalRaces.SoloCallIsUpdateStatus | packages/controlplane/src/application/permission_service.rs:1217-1272 | The statements of one call, run without interruption, do what the service method does |
| ApprovalRaces.RacingCallsGrantIffApproved | packages/controlplane/src/application/permission_service.rs:1217-1272 | For every interleaving of any number of calls a grant means that all is approved, and once all calls are done all approved means a grant |
| ApprovalRaces.LateReadersGrantEach | packages/controlplane/src/application/permission_service.rs:1241-1271 | In every interleaving, from the moment the chain is complete each approving call that had not derived the status issues a grant of its own, and no other call does |
| ApprovalRaces.RacingReviewersGrantTwice | packages/controlplane/src/application/permission_service.rs:1241-1271 | Every chain of two or more steps with a stage numbered 1 has a schedule of approvals that issues two grants |
| ApprovalRaces.GrantsAtMostOnceIff | packages/controlplane/src/application/permission_service.rs:1217-1272 | For every chain with distinct step ids, no interleaving of any calls issues two grants if and only if the chain has a single step or no stage numbered 1 |
| PolicyTemplates.CompareIsTotalOrder | packages/controlplane/src/application/permission_service.rs:632-641 | The comparison orders templates totally; a tie means equal ids |
| PolicyTemplates.StableSortSorts | packages/controlplane/src/application/permission_service.rs:632-641 | The sort by these keys is a sorted rearrangement |
| PolicyTemplates.FindBestChoosesGoverning | packages/controlplane/src/application/permission_service.rs:603-656 | The choice applies and precedes every other template that applies; there is none exactly if none applies |
| PolicyTemplates.ChosenByKeys | packages/controlplane/src/application/permission_service.rs:603-656 | The chosen template fits, column by column, and against every other that fits it names the resource if that one does, then covers no more teams, then no more privileges, then is no older, then has no larger id |
| PolicyTemplates.GoverningIsUnique | packages/controlplane/src/application/permission_service.rs:603-656 | With unique ids at most one template governs |
| PolicyTemplates.ChoiceIgnoresListOrder | packages/controlplane/src/application/permission_service.rs:603-656 | Every order of the list gives the same choice |
| PolicyTemplates.ChoiceIgnoresSortAlgorithm | packages/controlplane/src/application/permission_service.rs:632-656 | So does any sort that sorts |
| PolicyTemplates.StoredDurationIsGoverned | packages/controlplane/src/application/permission_service.rs:1059-1089 | The stored duration is at most a year, the requested days and the maximum of the template found again after the insert, and at least a day if and only if that maximum is |
| PolicyTemplates.StoredDurationIsLongest | packages/controlplane/src/application/permission_service.rs:676-694 | The stored duration is the longest within the request, or a week without one, a year and the governing maximum |
| PolicyTemplates.OverrideIsNotCapped | packages/controlplane/src/application/permission_service.rs:1226-1228 | A reviewer's duration keeps to the maximum only if it did so by itself |
| PolicyTemplates.ChainApprovers | packages/controlplane/src/application/permission_service.rs:706-764 | Who approves in which stage, for a template's own steps and for every mode |
| PolicyTemplates.ChainOutcome | packages/controlplane/src/application/permission_service.rs:706-764 | Which templates grant at once, and which lead to a request that the status endpoint cannot approve |
| BlastRadius.Walk | packages/controlplane/src/application/permission_service.rs:335-382 | Ends, on cyclic graphs too, with exactly the nodes that a path of edges reaches |
| BlastRadius.BuildPreview | packages/controlplane/src/application/permission_service.rs:279-431 | The counts are those of the reachable nodes without the root, by kind, and the risk is derived from them |
| BlastRadius.RiskByReachability | packages/controlplane/src/application/permission_service.rs:235-277 | High exactly if a privilege changes data and the name mentions bronze or raw, the resource is a table or schema, or 10 known nodes, 3 tables or topics, or an asset, job or schedule can be reached; low exactly if no privilege changes data and none of these can be reached |
| BlastRadius.RiskOfUnknown | packages/controlplane/src/application/permission_service.rs:235-277 | The same for a resource that is not in the graph |
| BlastRadius.CountsByReachability | packages/controlplane/src/application/permission_service.rs:359-382 | Every count is the number of reachable nodes of its types |
| BlastRadius.RiskIsMonotone | packages/controlplane/src/application/permission_service.rs:235-277 | More lineage edges or privileges never lower the risk, the number of downstream or direct nodes, or the number of any kind |
| BlastRadius.PreviewIsUnique | packages/controlplane/src/application/permission_service.rs:335-382 | The order of the walk leaves no trace in the preview |
| Apportionment.SharesSumToTotal | packages/synthetic/src/banking.ts:213-216 | The exact shares add up to the total |
| Apportionment.LargestGap | packages/synthetic/src/banking.ts:221-230 | The next unit goes to the first of the largest remainders |
| Apportionment.SomeoneIsNotBumped | packages/synthetic/src/banking.ts:218-234 | While units are left somebody has had none yet, so nobody gets two |
| Apportionment.AllocateCounts | packages/synthetic/src/banking.ts:209-237 | Terminates with counts that add up to the total, each the floor of its share or one more, the extra units with the largest remainders |
| Apportionment.WithinOneOfShare | packages/synthetic/src/flight-tickets.ts:492-520 | Every count is strictly within one of its exact share |
| Apportionment.BumpedHasFraction | packages/synthetic/src/banking.ts:220-234 | Only shares that are not whole get an extra unit |
| Apportionment.LargerScoreNeverGetsLess | packages/synthetic/src/banking.ts:209-237 | A larger score never gets the smaller count |
| Apportionment.EqualScoresEarlierFirst | packages/synthetic/src/banking.ts:220-234 | Of equal scores the earlier one never gets fewer, and at most one more |
| Apportionment.FairIsUnique | packages/synthetic/src/flight-tickets.ts:492-520 | Only one division is fair, so the two copies of the algorithm agree |
| Banking.ProfileBounds | packages/synthetic/src/banking.ts:184-207 | Every profile has a positive score and income, and opens with at least a month's income |
| Banking.IncomeByDraws | packages/synthetic/src/banking.ts:184-204 | The income is the drawn base times the city's multiplier, rounded; the score is the drawn activity and 0.75 |
| Banking.BalanceByDraws | packages/synthetic/src/banking.ts:193-196 | The opening balance is the income times 1.1 and the drawn activity, rounded |
| Banking.GenerateTransactionsForProfile | packages/synthetic/src/banking.ts:403-498 | The loop writes as many entries as asked for, each the successor of the one before |
| Banking.EntryByCases | packages/synthetic/src/banking.ts:435-471 | Every entry: the salary exactly on the 25th to 28th of a month without one, else the day's expense exactly if it leaves 15% of the income, else a transfer in; each amount is the larger of its floor and its draw |
| Banking.DayByCases | packages/synthetic/src/banking.ts:414-426 | An entry's day is the drawn one within the window, or the previous one if that is later |
| Banking.EntryIsConserving | packages/synthetic/src/banking.ts:445-471 | The clamp at zero never changes an amount, and an entry leaves at least the smaller of its balance and 15% of the income |
| Banking.LedgerConserves | packages/synthetic/src/banking.ts:403-498 | Every balance is the initial one plus the signed amounts so far, and never below the smaller of the initial balance and 15% of the income |
| Banking.BuiltProfileKeepsReserve | packages/synthetic/src/banking.ts:184-207 | The ledger of a generated profile always keeps 15% of a month's income |
| Banking.DaysAdvance | packages/synthetic/src/banking.ts:414-426 | Days stay in 0 to 179 and never go back |
| Banking.OneSalaryPerMonth | packages/synthetic/src/banking.ts:435-454 | No month has two salaries |
| Banking.SalaryIffEntryInWindow | packages/synthetic/src/banking.ts:435-454 | A month has its salary if and only if some entry falls on its salary days |
| Banking.CountsAreNonNegative | packages/synthetic/src/banking.ts:209-237 | No profile is allotted a negative number of rows |
| Banking.GenerateBankingTransactions | packages/synthetic/src/banking.ts:506-528 | For every profile, in order, a ledger as long as its count; exactly the rows asked for, if and only if there are profiles or none are asked for |
| IncidentSampling.PickIndex | packages/synthetic/src/flight-incidents.ts:215-224 | The first index whose running sum reaches the threshold, or the default if none does |
| IncidentSampling.EveryThresholdPicksOne | packages/synthetic/src/flight-incidents.ts:211-224 | Every threshold in range picks exactly one index, and each index has an interval as long as its score |
| IncidentSampling.DrawIndex | packages/synthetic/src/flight-incidents.ts:211-224 | The default is never used by falling through |
| IncidentSampling.RoundByScores | packages/synthetic/src/flight-incidents.ts:210-229 | Each round takes the ticket at whose incident score the running sum of the pool reaches the threshold |
| IncidentSampling.SelectTicketsWithoutReplacement | packages/synthetic/src/flight-incidents.ts:203-233 | Selected and left-over tickets are the tickets rearranged; as many as asked for, or all; each round takes what its threshold picks from the pool it finds |
| Csv.CsvLineToValues | packages/synthetic/src/csv.ts:14-45 | The loop computes the scanner function, for every line, well formed or not |
| Csv.QuotedOnlyIfNeeded | packages/synthetic/src/csv.ts:6-12 | A field is quoted exactly if it holds a quote, a comma or a newline |
| Csv.LineRoundTrip | packages/synthetic/src/csv.ts:6-45 | Reading a printed line gives back its values, whatever they hold |
| Csv.StreamCsvRows | packages/synthetic/src/csv.ts:72-93 | What writing row by row leaves in the file |
| Csv.FileLines | packages/synthetic/src/csv.ts:47-70 | A written file splits into the lines it was written from |
| Csv.FileIsRead | packages/synthetic/src/csv.ts:47-70 | The reader sees the headers and the lines as written, and no missing-data error |
| Csv.FileRoundTrip | packages/synthetic/src/csv.ts:47-93 | Every row comes back with every field under its header |
| CsvRestore.FileRoundTripIff | packages/synthetic/src/csv.ts:47-93 | With no newline in a field, the rows come back if and only if the reader has nothing to trim or drop but the final newline |
| CsvRestore.QuotesAnywhere | packages/synthetic/src/csv.ts:14-45 | Quotes are taken off wherever they stand in a field, and commas between them do not separate |
| CsvRestore.ReadsUnlessOneLine | packages/synthetic/src/csv.ts:47-60 | Reading fails exactly if the trimmed text has a single line; the error of a missing header line never shows |
| Csv.UnevenRow | packages/synthetic/src/csv.ts:62-69 | A record with too few values gives empty strings for the rest |
| LogEntries.BundleRangeCovers | packages/chronicle/main.go:512-527 | The bundles read for a range cover it once, without gap |
| LogEntries.PartialIsRemainder | packages/chronicle/main.go:563-567 | A bundle is asked for with the number of its entries, or as a full one |
| LogEntries.ScanBundle | packages/chronicle/main.go:538-557 | One bundle's scan continues the filtered slice, or completes it |
| LogEntries.CollectEntries | packages/chronicle/main.go:507-561 | The collected entries are the flat log, filtered, then sliced, each under its global index; it fails only on a bundle that cannot be read |
| LogEntries.EmptyQueryKeepsAll | packages/chronicle/main.go:512-521 | Without a query the listing is a plain slice |
| LogEntries.LookupAgreesWithListing | packages/chronicle/main.go:563-603 | Looking an index up gives what the listing shows there |
| LogEntries.SendEntries | packages/chronicle/main.go:418-451 | The answer for any parameters as they arrive: a page of the filtered flat log, an unreadable bundle, or a refusal exactly for a malformed number |
| LogEntries.PageWithoutParameters | packages/chronicle/main.go:424-441 | Without parameters the first hundred matches are listed |
| LogEntries.ParametersAreClamped | packages/chronicle/main.go:631-644 | More than 500 is 500, and beyond the end there is nothing |
| LogEntries.ReadsNumbers | packages/chronicle/main.go:631-644 | A written number below 2^64 is read back; a text with anything but digits is refused |
| LogEntries.PageIsSlice | packages/chronicle/main.go:434-441 | A page holds its slice, and says there is more exactly if a further match exists |
| LogEntries.PagesConcatenate | packages/chronicle/main.go:434-441 | Pages of up to 500 join up to the whole list, with no gap or repetition |
| LogEntries.PagingIsExact | packages/chronicle/main.go:631-644 | Following the pages gives the list if and only if the limit or the list is at most 500 |
| MerkleProof.CeilLog2Bounds | packages/chronicle/main.go:476-491 | The height of a tree of n leaves |
| MerkleProof.BuildTreeLeaves | packages/chronicle/main.go:476-491 | The tree of RFC 6962, section 2.1, holds the leaves in order |
| MerkleProof.SmallTrees | packages/chronicle/main.go:476-491 | The tree hashes of one, two and three entries |
| MerkleProof.AuditPathFolds | packages/chronicle/main.go:476-491 | For any size, the audit path of section 2.1.1 folded with the true sides gives the tree hash |
| MerkleProof.JsBitIsBit | packages/chronicle-ui/app/merkle/page.tsx:112-126 | The shift on 32-bit integers reads the index's bit, up to level 31 |
| MerkleProof.ShiftCountWraps | packages/chronicle-ui/app/merkle/page.tsx:112-126 | At every level from 32 on it misses the bit of some index |
| MerkleProof.LevelIsReadIff | packages/chronicle-ui/app/merkle/page.tsx:112-126 | A level's bit is read right for every index if and only if the level is below 32 |
| MerkleProof.BitSidesExact | packages/chronicle-ui/app/merkle/page.tsx:112-126 | Index bits are the true sides if and only if the leaf lies at the full depth |
| MerkleProof.DrawnSidesExact | packages/chronicle-ui/app/merkle/page.tsx:112-126 | For any log, every sibling is drawn on its side if and only if the proof is as long as the tree is high |
| MerkleProof.PowerOfTwoProofsFold | packages/chronicle-ui/app/merkle/page.tsx:112-126 | In logs of power-of-two size the drawn path leads from the leaf to the tree hash |
| MerkleProof.OnlyTheLoggedLeafFolds | packages/chronicle-ui/app/merkle/page.tsx:112-126 | With an injective hash only the logged leaf with its audit path does |
| MerkleProof.ThreeEntryCounterexample | packages/chronicle-ui/app/merkle/page.tsx:112-126 | In a log of three the last leaf's sibling is drawn on the wrong side |
| EntryBundles.ParseBundle | packages/chronicle-ui/app/page.tsx:137-184 | The loop, on any bytes, gives the records the parse function defines |
| EntryBundles.BundleRoundTrip | packages/chronicle-ui/app/page.tsx:137-184 | Parsing an encoded list of entries gives every entry at its offset |
| EntryBundles.ParseCovers | packages/chronicle-ui/app/page.tsx:137-184 | On any bytes, the entries found encode to exactly the bytes before the tail where no entry begins |
| EntryBundles.OneErrorLast | packages/chronicle-ui/app/page.tsx:141-158 | An error is reported if and only if a tail is left, once, last, and with the tail's offset |
| EntryBundles.TailIsNamed | packages/chronicle-ui/app/page.tsx:142-158 | The error names a dangling byte, or the declared length and the bytes that remain |
| TilePaths.FormatTileIndex | packages/chronicle-ui/app/page.tsx:245-258 | The loop gives the index's path for every index |
| TilePaths.TileIndexReadsBack | packages/chronicle-ui/app/page.tsx:245-258 | Every index reads back from its path |
| TilePaths.TileIndexIsCanonical | packages/chronicle-ui/app/page.tsx:245-258 | Every path that names an index is the one written for it |
| TilePaths.ExampleIndex | packages/chronicle-ui/app/page.tsx:245-258 | The example of the standard: 1234067 is x001/x234/067 |
| TilePaths.TreeSizeReadsBack | packages/chronicle-ui/app/page.tsx:260-269 | The level-zero path gives back the tree size, and is empty exactly without a tree |
| TilePaths.DifferentTreesDifferentPaths | packages/chronicle-ui/app/page.tsx:260-269 | Two sizes never share a path |
| TilePaths.ExamplePaths | packages/chronicle-ui/app/page.tsx:260-269 | The paths of logs of 70000 and 512 entries, and of none |
| TsvGrid.CountTabs | packages/webui/lib/data-grid.ts:259-263 | The number of tabs |
| TsvGrid.JoinLines | packages/webui/lib/data-grid.ts:338-362 | The buffer loop feeds every line and flushes what is left |
| TsvGrid.ParseTsvText | packages/webui/lib/data-grid.ts:265-368 | Both branches of the parser, on any text |
| TsvRoundTrip.FirstPush | packages/webui/lib/data-grid.ts:338-362 | The buffer reaches the tab count exactly at the row's last line, or pushes something shorter |
| TsvRoundTrip.SurvivesIffRejoinable | packages/webui/lib/data-grid.ts:338-362 | Which rows the buffer puts together again |
| TsvRoundTrip.RoundTripIff | packages/webui/lib/data-grid.ts:330-367 | Printing and parsing is the identity if and only if every row can be rejoined and some row has no newline |
| TsvRoundTrip.QueryResultRoundTrip | packages/webui/services/sql.ts:111-117 | The same for a query result with its header |
| TsvQuoted.QuotedRoundTrip | packages/webui/lib/data-grid.ts:269-328 | A fully quoted table is read back exactly if no row is a single empty cell, whatever else its cells hold |
| TsvQuoted.WrittenRoundTrip | packages/webui/lib/data-grid.ts:269-328 | So is any mixture of quoted and plain cells and of line ends, once the parser has noticed a quote |
| TsvQuoted.QuotesAreNoticed | packages/webui/lib/data-grid.ts:269 | It notices a quoted cell at the very start or behind a tab |
| TsvPlain.PastedLines | packages/webui/lib/data-grid.ts:330-367 | Text without tabs: into one column every line is a row, into more every non-empty line a row of one cell, into none nothing |
| TsvPlain.PasteIsNeverLost | packages/webui/lib/data-grid.ts:365-367 | No text with something on some line is thrown away whole |
| TsvPlain.PastedTable | packages/webui/lib/data-grid.ts:330-367 | Text with tabs: all rows are as wide as the widest line, the grid's width plays no part, and every line of that width is a row |
| NotificationStore.DataGridStore.Set | packages/webui/hooks/use-data-grid.ts:216-231 | The new state and flags, and when a microtask is queued |
| NotificationStore.DataGridStore.BeginBatch | packages/webui/hooks/use-data-grid.ts:237-245 | What opening a batch changes and remembers |
| NotificationStore.DataGridStore.EndBatch | packages/webui/hooks/use-data-grid.ts:247-255 | What ending one changes, and whether it notifies |
| NotificationStore.DataGridStore.FireMicrotask | packages/webui/hooks/use-data-grid.ts:225-228 | The flag falls before the listeners are called |
| NotificationStore.ChangeEffect | packages/webui/hooks/use-data-grid.ts:216-231 | A new value is set, and a microtask queued exactly if no batch is open and none is pending |
| NotificationStore.UnchangedIsSilent | packages/webui/hooks/use-data-grid.ts:217 | Setting the value that is there does nothing |
| NotificationStore.BatchOpens | packages/webui/hooks/use-data-grid.ts:238-245 | What opening an outermost and an inner batch changes |
| NotificationStore.StepKeepsInv | packages/webui/hooks/use-data-grid.ts:206-258 | Every event, unless a listener throws beside another one, keeps: each listener knows the state, or a loop under way, a microtask or the open batch will still tell it |
| NotificationStore.NoNotificationIsLost | packages/webui/hooks/use-data-grid.ts:216-231 | In every run, with no batch open and a change since the last notification began, a microtask is queued |
| NotificationStore.ListenersAreUpToDate | packages/webui/hooks/use-data-grid.ts:232-236 | In every run in which nobody throws while another is subscribed, all listeners have seen the current state when nothing is left to run |
| NotificationStore.UpToDateIff | packages/webui/hooks/use-data-grid.ts:206-258 | Given who may subscribe and who may throw: every run leaves all listeners up to date if and only if no member that may throw has another member beside it |
| NotificationStore.ThrowingStarves | packages/webui/hooks/use-data-grid.ts:232-236 | For any two listeners, a run in which the first one throws and the other is left with an old state |
| NotificationStore.OuterBatchNotifiesOnce | packages/webui/hooks/use-data-grid.ts:237-256 | An outermost batch notifies nobody before its end, and there once if and only if something changed or was pending, even when its function throws |
| NotificationStore.InnerBatchIsTransparent | packages/webui/hooks/use-data-grid.ts:238-241 | An inner batch adds nothing of its own |
| DataUpdates.OnDataUpdate | packages/webui/hooks/use-data-grid.ts:358-427 | The new rows, by the grouped updates of each |
| DataUpdates.GroupingRefinesOneByOne | packages/webui/hooks/use-data-grid.ts:370-422 | Grouping by row gives what the updates give one by one |
| DataUpdates.LastWriteWins | packages/webui/hooks/use-data-grid.ts:413-418 | A cell has the value of the last update that writes it, or its old one |
| DataUpdates.UntouchedIffNoUpdate | packages/webui/hooks/use-data-grid.ts:404-421 | A row's group is empty if and only if no update is for it |
| DataUpdates.SameObjectIffNoUpdate | packages/webui/hooks/use-data-grid.ts:404-421 | A row stays the same object exactly if no update is for it, and is a copy otherwise |
| DataUpdates.DroppedIff | packages/webui/hooks/use-data-grid.ts:375-385 | An update is dropped exactly if it names no row on display |
| DataUpdates.ReachesShownRowIffHeld | packages/webui/hooks/use-data-grid.ts:384-398 | An update reaches the displayed row exactly if the data still holds it |
| BadgeOverflow.VisibleBadges | packages/webui/hooks/use-badge-overflow.ts:116-160 | The visible badges are a prefix of the items and the rest is counted as hidden |
| BadgeOverflow.GreedyStaysAhead | packages/webui/hooks/use-badge-overflow.ts:125-154 | At every badge, no split with one line fewer gets beyond the start of the current line |
| BadgeOverflow.GreedyIsMaximal | packages/webui/hooks/use-badge-overflow.ts:121-160 | When every badge fits a line, the packing is the longest prefix any split into the lines holds |
| BadgeOverflow.MaximalIff | packages/webui/hooks/use-badge-overflow.ts:121-160 | For any badges, it is if and only if no badge wider than a line comes up while a line is free |
| BadgeOverflow.PopRemovesOne | packages/webui/hooks/use-badge-overflow.ts:144-159 | At most one badge makes way, and only if others are hidden |
| BadgeOverflow.MakesWayIff | packages/webui/hooks/use-badge-overflow.ts:144-159 | A badge makes way exactly if some are hidden, there is one to take away, and the last line has no room for the overflow badge |
| BadgeOverflow.WidthIsBadgesAndGaps | packages/webui/hooks/use-badge-overflow.ts:135-143 | A line is as wide as its badges, each with a gap |
| RankFusion.FuseByRank | packages/lancedb-server/server.py:196-211 | The two loops, the sort and the limit, for whatever a rank is worth; fails exactly if a row has no id or a rank's worth cannot be computed, for the service's constant by a division by zero |
| RankFusion.FusedIsRanked | packages/lancedb-server/server.py:201-211 | One row for every id of either list, its last one, in the strict order of summed reciprocal ranks and first appearance |
| RankFusion.ScoreByPlaces | packages/lancedb-server/server.py:198-210 | For a positive constant the score of an id is the sum of the reciprocals of the constant plus its ranks |
| RankFusion.RerankedIsFront | packages/lancedb-server/server.py:211 | The search answers exactly if every row can be scored, with the front of the ranking |
| RankFusion.TakeIsFront | packages/lancedb-server/server.py:211 | The result is the front of the ranking, as long as the limit, or short of the end by a negative one |
| RankFusion.ParetoConsistent | packages/lancedb-server/server.py:196-211 | With unique ids per list and a positive constant, an id above b in every list that holds b precedes b in the result |
| RankFusion.ParetoIff | packages/lancedb-server/server.py:196-211 | Over all lists with unique ids that can be scored, the result keeps every shared ranking if and only if the constant is at least -1 |
| RankFusion.HybridSearch | packages/lancedb-server/server.py:196-221 | The whole hybrid branch, with the service's constant |
| RankFusion.Interleave | packages/lancedb-server/server.py:213-221 | The rows that are the first with their id, up to the limit |
| RankFusion.InterleaveKeepsEachIdOnce | packages/lancedb-server/server.py:213-221 | Every id of either list is among them once |
| RankFusion.FirstsInOrder | packages/lancedb-server/server.py:213-221 | They are the rows before which no row has their id, in the order they came |
| Redistribution.Pigeonhole | scripts/redistribute_baggage_damage_images.py:106-117 | If the first n numbered names are taken, n paths exist |
| Redistribution.Disk.UniqueDestinationPath | scripts/redistribute_baggage_damage_images.py:106-117 | The search ends with the destination itself if free, else with the first free numbered name |
| Redistribution.FirstFreeIsUnique | scripts/redistribute_baggage_damage_images.py:106-117 | That path is determined by the files |
| Redistribution.NumberedName | scripts/redistribute_baggage_damage_images.py:110-114 | The number stands between the stem and the last suffix, or at the end of a name without one |
| Redistribution.EdgeDots | scripts/redistribute_baggage_damage_images.py:110-114 | A dot at the very start or end begins no suffix |
| Redistribution.RedistributeImages | scripts/redistribute_baggage_damage_images.py:120-148 | The files and counts after the loop, for any draws; a dry run changes nothing, and with nobody to choose from the run fails unless there are no images |
| Redistribution.MovingLosesNothing | scripts/redistribute_baggage_damage_images.py:131-143 | Moving keeps the contents of all files, even in a run that fails on the way |
| Redistribution.CopyingAddsTheImages | scripts/redistribute_baggage_damage_images.py:131-143 | Copying adds each placed image once more, and nothing else |
| Redistribution.PlacingOverwritesNothing | scripts/redistribute_baggage_damage_images.py:131-143 | Images end with their contents at distinct paths that were free, all other files are as they were, and only a file in the way of a folder stops the run |
| Redistribution.PlacesAreTheirOwn | scripts/redistribute_baggage_damage_images.py:132-143 | Every image placed is in its own customer's folder, which is there, under its own name or that name with a number |
| Redistribution.NextFailsIff | scripts/redistribute_baggage_damage_images.py:138 | An image that is there fails to be placed exactly if a file stands where its folder, or one above, should be |
| Redistribution.DestinationsWereFree | scripts/redistribute_baggage_damage_images.py:131-143 | With copied images, or images from outside the output folder, no earlier path is written |

## Left out

- HTTP handlers, Kubernetes, S3, Kafka, MLflow, OpenAI and DuckDB calls: no logic of the repository's own.
- Database errors: every statement is taken to succeed and to be atomic, as the races are about their order.
- The expiry worker's scheduling and batching: its statements are events that may come at any time.
- Business tokens and sensitive domains, notifications and audit records: they do not feed the modelled decisions.
- Lower-casing and searching of Unicode text, JSON and date formats: a query is any predicate on entries, and the lower-cased resource name is an input.
- Rounding of floating-point numbers, formatting of money, Gaussian noise and trigonometry: amounts are reals, draws are inputs.
- Wrap-around of 64-bit offsets and limits in the log service: its clamps keep them below the tree size plus 501.
- Numbers beyond 2^53 in tile indices and tree sizes.
- The log reader, proof builder and signatures: foreign; a reader is any function that serves the log's bundles or fails.
- `merkleGraph`: lays out what `proofSteps` computes.
- `allocateTicketCounts` as a second method: it is the same algorithm, and `FairIsUnique` covers it.
- `serializeCellsToTsv`: which cells are selected; what it prints is the table that `PrintTable` prints.
- Order of the listeners in a notification: any order is allowed, which covers the source's.
- A customer identifier that is more than one path component, links, and files that other programs change during a redistribution.
- DOM measurement and caching of badge widths: a width is an input.
- Rendering, scrolling, focus and key handling; Spark, Daft and Dagster jobs, catalogs and configuration: no property of their own.
- BlastRadius.Walk: the counters that the source advances inside the walk are left to `BuildPreview`, which counts the reached nodes.
- MerkleProof.DrawnSidesExact: stated for audit paths of at most 32 hashes, because the shift wraps from there on (`ShiftCountWraps`).
- Banking.GenerateTransactionsForProfile: counterparties, merchants and categories of an entry are not modelled, only its kind, day and balances.
