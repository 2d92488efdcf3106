# Vellar: verified models of its stateful and text-handling core

Vellar is a smart-wallet system on Stellar: a web wallet and an extension, a
set of services (account cleanup, policies, an API gateway), and two Soroban
contracts that attest contract code. This project models the parts of it that
have hard, whole-run behaviour, and proves what they promise. Run
`dafny verify dfyconfig.toml`.

The modules, one or more per source file:

- **Account cleanup.** `Horizon`, `CleanupBuilder`, `CleanupPlanner` and
  `CleanupResume` are the lifecycle service. `Ledger` is a small semantics of
  the Stellar ledger: liabilities of open offers, a reserve of 0.5 XLM per
  subentry, a fee of 100 stroops per operation, sequence numbers, at most 100
  operations per transaction. `CleanupProgress` says where a run stands and
  `CleanupRuns` proves that every generated program runs. `CleanupPlans` and
  `CleanupRefusals` say of any account what it is promised and whether it is
  resumed.
  `CleanupCounterexamples` has three accounts on which the code fails its own
  description.
- **On-chain attestation.** `ThresholdAttestor` is the M-of-N account,
  `AttestationRegistry` the registry and its storage lifetimes, and
  `AttestationAuthority` the two composed through `require_auth`.
- **Spend budget.** `SpendBudget` is any number of interleaved `tryConsume`
  transactions over one ledger table.
- **Policy service.** `CanonicalJson` (canonical serialization), `JsonReader`
  and `CanonicalReads` (a reader of RFC 8259 and what it makes of that),
  `PolicyPages` and `PolicyWalk` (keyset pagination), `EventQueue` and
  `EventConsumers` (retry and quarantine), `DeadLetters`, `DeployJobs` and
  `DeployWorkers` (deployment jobs and their dead-letter store).
- **Texts.** `Text` has UTF-16 code units and decimal digits, `Amounts` the
  amount printers and parsers, `PercentEncoding` the URI component codec, and
  `Sep7`, `Sep7RoundTrip`, `Sep7Reorder` and `Sep7Counterexample` the
  payment-request URIs. `AmountTexts`, `PercentFormat`, `Sep7Printing`,
  `Sep7Acceptance` and `Sep7Reading` say exactly which texts are printed and
  which are read, by their characters alone.
- **Controllers.** `TokenBucket`, `CircuitBreaker`, `RpcPool`.
- `Wrappers`, `Sequences`, `OrderedMap` (the JavaScript `Map`) and `Arith` are
  shared.

Code that updates state in place is a class or a method with loops, proved
against a function of the old state; the theorems are about those functions
and about runs of them.

## Where the code and its own description part

The model follows the code. Each of these is a theorem with the exact
condition, and all but the last have an input beside it:

- The planner's preflight does not read what open offers lock. When it passes,
  the cleanup runs if and only if there is nothing to do or the native balance
  that offers sell still leaves the first fee (`PreflightRunsIff`,
  `PreflightMissesWhatOffersLock`). An account
  that fails it is promised no transactions, whatever would be built
  (`PlannerAndBuilderAgree`).
- A resume whose transaction boundary parts a payout from its trustline
  removal asks for a fresh plan when the reader prints the emptied balance as
  something other than "0" (`ResumeEqualsContinue`,
  `ResumeWithZeroText`, `AnEmptiedLineCanLookChanged`).
- Resuming builds the remaining transactions again, with new time bounds and so
  new hashes, and the record keeps the old ones. Confirming a rebuilt step by its
  hash is lost if and only if no unconfirmed step had that hash, and then the
  plan is never completed; confirming it by its index works
  (`RebuiltHashIsLostIff`, `LostConfirmationsNeverComplete`,
  `NextIndexConfirms`, `RebuiltHashIsLost`).
- `withinCeiling` and the SQL guard agree exactly for requests that count one
  call (`GuardsAgreeIffOneCall`, `GuardsPartAtTwo`).
- Reordering the parameters of an accepted payment request keeps it accepted
  as the same request if and only if the new last parameter does not end in
  white space, which the parser trims (`Reordering`, `TrailingSpaceIsLost`).
- The extension's `formatStroops` agrees with the seven-decimal formatter
  exactly on amounts that are not negative or have no fraction
  (`FormatStroopsAgreesIff`, `NegativeFractionsPrintApart`).
- A record is stored to its expiry and the buffer exactly when the network keeps
  entries that long. With the maximum of 6,312,000 ledgers that the contract's
  own test snapshots use, a record of the longest lifetime stays readable to its
  expiry but loses most of the buffer (`KeptPastExpiryIff`,
  `LongestRecordLosesBuffer`).
- A message or a job whose limit is below one is still attempted once
  (`FirstSuccessOrLimit`, `ClaimsAreBounded`).

## Model

| member | source | states |
|---|---|---|
| CleanupBuilder.CollectCleanupOps | services/lifecycle-service/src/builder.ts:59-108 | The loops fail exactly when some asset has no code or issuer, and otherwise give offers, then payout and removal of each trustline, then data entries |
| CleanupBuilder.BuildCleanupSteps | services/lifecycle-service/src/builder.ts:118-150 | The loop over the sequence-bumping source gives the list cut into transactions of at most 100 operations |
| CleanupBuilder.SplitIsExact | services/lifecycle-service/src/builder.ts:118-150 | The cut loses and reorders nothing, no transaction is empty or over the limit, and sequence numbers are consecutive |
| CleanupBuilder.SplitDrop | services/lifecycle-service/src/builder.ts:118-150 | Cutting the list without its first 100 k operations gives the transactions after the first k |
| CleanupBuilder.ConfirmationsAreExact | services/lifecycle-service/src/builder.ts:200-246 | After any run of confirmations a step is confirmed exactly when one of them named it, and the plan is otherwise unchanged |
| CleanupBuilder.ConfirmationIsLostIff | services/lifecycle-service/src/builder.ts:225-246 | A confirmation changes nothing if and only if every step it names is confirmed already, so also when it names none |
| CleanupBuilder.StampIsFirst | services/lifecycle-service/src/builder.ts:225-246 | A step keeps the time of the confirmation that named it first, and has none if none did |
| CleanupRuns.BuilderEmitsProgram | services/lifecycle-service/src/builder.ts:59-108 | From any faithful report of a ledger account the builder succeeds and emits that account's cleanup program |
| CleanupRuns.FirstOpRuns | services/lifecycle-service/src/builder.ts:59-108 | In every state of a cleanup, with a destination that takes the assets, the next operation is accepted, conserves every asset and leaves exactly the rest of the program |
| CleanupRuns.PrefixRuns | services/lifecycle-service/src/builder.ts:59-108 | So is any number of operations, and each but a payment takes away one subentry |
| CleanupRuns.StillCovers | services/lifecycle-service/src/builder.ts:118-150 | The reserve that a full transaction frees, and the offers it cancels, always cover the fee of the next one |
| CleanupRuns.CleanupTxsRun | services/lifecycle-service/src/builder.ts:118-150 | For a destination that takes the assets and an account that covers its first fee, any number of the built transactions are accepted in order, each one's fee covered, wherever the boundaries fall, and the rest of the program is ready to run |
| CleanupRuns.CleanupAlwaysRuns | services/lifecycle-service/src/builder.ts:59-150 | The whole built cleanup of any reported account that covers its first fee, with a destination that takes the assets, runs; it ends without offers, trustlines or data, and each asset's loss is the destination's gain |
| CleanupRuns.CleanupRunsIffFunded | services/lifecycle-service/src/builder.ts:59-150 | For another account as destination it runs if and only if the account can pay for the first transaction beside its reserve and what its offers lock, and the destination trusts every held asset with room for all of it |
| CleanupPlanner.CountOps | services/lifecycle-service/src/planner.ts:52-63 | The counting loop gives two operations for a held trustline, one for an empty one, and one for each offer and data entry |
| CleanupPlanner.CalculateRequiredFee | services/lifecycle-service/src/planner.ts:52-63 | 100 stroops for each counted operation, and for at least one |
| CleanupPlanner.BuildCleanupPlan | services/lifecycle-service/src/planner.ts:65-155 | The blocker loops give the plan, the refusal for missing funds or the failure for incomplete pagination |
| CleanupPlanner.CountedOpsAreBuilt | services/lifecycle-service/src/planner.ts:52-63 | The planner counts exactly the operations that the builder emits, and finds no blocker exactly when there are none |
| CleanupPlanner.PlannerAndBuilderAgree | services/lifecycle-service/src/planner.ts:65-155 | Exactly when the preflight passes there is a plan, and then its estimate is the built transactions plus one, and it is ready to merge if and only if nothing is built |
| CleanupPlanner.PreflightRunsIff | services/lifecycle-service/src/planner.ts:39-63 | For accounts that pass the preflight, the exact condition on native selling liabilities under which the cleanup runs |
| CleanupPlanner.PreflightIsSound | services/lifecycle-service/src/planner.ts:39-155 | With no offer selling the native asset, a passed preflight means the whole cleanup runs, and planning the cleaned account again says it is ready to merge |
| CleanupPlans.PlanIff | services/lifecycle-service/src/planner.ts:39-155 | For every account: it fails exactly for incomplete pagination; there is a plan exactly when the native balance above half a lumen for each entry and two more covers 100 stroops an operation; a refusal names both amounts; the promise is the least number of hundreds that holds the operations, and one |
| CleanupPlans.BlockersIff | services/lifecycle-service/src/planner.ts:96-130 | The blockers of a plan are each trustline, each balance above zero, the offers if there are any and each data entry, and nothing else |
| CleanupResume.ResumeCleanupPlan | services/lifecycle-service/src/builder.ts:280-373 | The checks and loops of resuming, in their order, give the resume function |
| CleanupResume.ResumesOnlyFromProperPrefix | services/lifecycle-service/src/builder.ts:280-330 | Whatever has happened since, it resumes only when the confirmed steps are a proper prefix, and says completed exactly when all are confirmed for this account |
| CleanupRefusals.ResumedIffNothingUnexpected | services/lifecycle-service/src/builder.ts:298-373 | Whatever has become of the account, after a proper prefix it is resumed if and only if every trustline was planned and is printed as planned or as "0", there are no more offers, and the assets can be built; else a fresh plan is asked for, naming the first new trustline, else the first changed balance, else the offers |
| CleanupRefusals.OtherAnswers | services/lifecycle-service/src/builder.ts:280-315 | Another account, a gap before a confirmed step, named by the first step not confirmed, and all steps confirmed decide before that |
| CleanupRefusals.KeysNameAssets | services/lifecycle-service/src/builder.ts:317-330 | The keys of the comparison tell assets apart, for codes without a colon |
| CleanupResume.ResumeEqualsContinue | services/lifecycle-service/src/builder.ts:280-373 | With the first k transactions applied and confirmed and nothing else changed, it resumes with exactly the remaining transactions (same operations and sequence numbers), built again at the later time, but for one stated case in which it asks for a fresh plan |
| CleanupResume.ResumeFollowsLedger | services/lifecycle-service/src/builder.ts:280-373 | So it does when more or fewer transactions have been applied than confirmed: what it builds follows the ledger, and only its count of steps the record |
| CleanupResume.RebuiltHashIsLostIff | services/lifecycle-service/src/builder.ts:225-246 | The record keeps the first hashes: confirming a rebuilt step by its new hash changes nothing if and only if no unconfirmed step had that hash |
| CleanupResume.NextIndexConfirms | services/lifecycle-service/src/builder.ts:225-246 | By its index in the plan the next step is confirmed whatever its hash has become |
| CleanupResume.LostConfirmationsNeverComplete | services/lifecycle-service/src/builder.ts:300-373 | With all transactions applied but not all confirmed it resumes with no steps, and never says completed |
| CleanupResume.EveryBoundaryIsReached | services/lifecycle-service/src/builder.ts:280-373 | The first k transactions can always be applied, for every k |
| CleanupResume.ResumeWithZeroText | services/lifecycle-service/src/builder.ts:280-373 | When an emptied balance is printed "0", resuming half-way never needs a fresh plan |
| CleanupCounterexamples.PreflightMissesWhatOffersLock | services/lifecycle-service/src/planner.ts:39-63 | An account with one offer that sells one stroop passes the preflight, and its cleanup is refused |
| CleanupCounterexamples.AnEmptiedLineCanLookChanged | services/lifecycle-service/src/builder.ts:280-373 | A reported account with 99 offers and a held trustline, balances printed with seven decimals: its first transaction applied and confirmed and nothing else changed, resuming asks for a fresh plan |
| CleanupCounterexamples.RebuiltHashIsLost | services/lifecycle-service/src/builder.ts:136-373 | An account with 101 data entries: after a resume its second transaction has a new hash, confirming it by that hash changes nothing, and the emptied account resumes with no steps instead of being completed |
| ThresholdAttestor.ValidatedIsExact | contracts/threshold-attestor/src/lib.rs:195-232 | Validation accepts exactly 1 to 32 distinct keys with both thresholds between one and their number |
| ThresholdAttestor.ValidateConfig | contracts/threshold-attestor/src/lib.rs:195-232 | The nested duplicate loops and range checks give that validation, error by error |
| ThresholdAttestor.IsAllRevoke | contracts/threshold-attestor/src/lib.rs:234-249 | True exactly for a non-empty authorization of nothing but revocations |
| ThresholdAttestor.Account.CheckAuth | contracts/threshold-attestor/src/lib.rs:144-192 | The signature loop authorizes exactly lists that are long enough, strictly ascending, in range and all valid; otherwise it names the first fault |
| ThresholdAttestor.Account.SetSigners | contracts/threshold-attestor/src/lib.rs:125-142 | The configuration is replaced only by a validated one, under the account's own authorization, and stays valid |
| ThresholdAttestor.AcceptedMeansEnoughSigners | contracts/threshold-attestor/src/lib.rs:144-192 | An accepted list means that at least the required number of distinct configured keys signed the payload |
| ThresholdAttestor.AuthorizationCountsPeople | contracts/threshold-attestor/src/lib.rs:144-192 | A payload can be authorized if and only if at least the required number of configured keys signed it |
| ThresholdAttestor.RevocationQuorum | contracts/threshold-attestor/src/lib.rs:144-192 | For contexts that are all calls named revoke, and at least one, some list is accepted if and only if the revoke threshold of configured keys signed |
| ThresholdAttestor.FullQuorum | contracts/threshold-attestor/src/lib.rs:144-192 | For any other contexts, or none, if and only if the threshold of them signed |
| ThresholdAttestor.AcceptedLists | contracts/threshold-attestor/src/lib.rs:144-192 | A list is accepted if and only if it has that many signatures, ascending in index, each valid by the key of its index |
| AttestationRegistry.Contract.WriteAttestation | contracts/attestation-registry/src/lib.rs:246-282 | A write needs the attestor and an expiry within a year, sets one record, and extends its lifetime past the expiry |
| AttestationRegistry.WriteIsExact | contracts/attestation-registry/src/lib.rs:246-282 | A write succeeds exactly when authorized, with an expiry after this ledger and within 6,307,200 of it; it sets that record, keeps the others and never shortens a lifetime |
| AttestationRegistry.Contract.RevokeAttestation | contracts/attestation-registry/src/lib.rs:172-182 | A revocation by the attestor removes one record and nothing else |
| AttestationRegistry.Contract.RotateAttestor | contracts/attestation-registry/src/lib.rs:185-195 | A rotation by the attestor changes the attestor and nothing else |
| AttestationRegistry.RegistryEqualsLog | contracts/attestation-registry/src/lib.rs:152-282 | In every run the attestor and every record are what the last authorized calls left, and every record is stored to its expiry and the buffer, or as long as the network keeps entries |
| AttestationRegistry.ViewsAgreeWithLog | contracts/attestation-registry/src/lib.rs:201-229 | is_verified and publisher_of agree with the last authorized write and its expiry; they fail only for a record past its expiry and the buffer, or older than the network keeps entries |
| AttestationRegistry.KeptPastExpiryIff | contracts/attestation-registry/src/lib.rs:271-275 | With ledgers in order, a record is stored to its expiry and the buffer if and only if the network keeps entries that long, and no live record is archived if and only if it keeps them until the expiry |
| AttestationRegistry.LongestRecordLosesBuffer | contracts/attestation-registry/src/lib.rs:271-275 | Where entries live at most 6,312,000 ledgers, a record of the longest lifetime is stored only 4,799 ledgers past its expiry |
| AttestationRegistry.SilenceDecays | contracts/attestation-registry/src/lib.rs:201-210 | A contract whose last authorized write was 6,307,200 ledgers ago or more, or that has none, is not verified, whatever was attempted since |
| AttestationRegistry.LastWriterWins | contracts/attestation-registry/src/lib.rs:152-195 | After a rotation in the same ledger the old attestor's conflicting write fails and the new one's stands |
| AttestationAuthority.ConfigStaysValid | contracts/threshold-attestor/src/lib.rs:125-232 | Every configuration reached by any invocations is valid |
| AttestationAuthority.FewSignersOnlyRevoke | contracts/threshold-attestor/src/lib.rs:144-192 | With fewer available signers than the threshold, only an all-revoke authorization with a revocation quorum of distinct keys passes |
| AttestationAuthority.CollusionIsHarmless | contracts/threshold-attestor/src/lib.rs:144-192 | Over whole runs, signers below the threshold never change the signer set, the attestor or any record, and every deletion was signed by a revocation quorum |
| AttestationAuthority.TooFewForAnything | contracts/threshold-attestor/src/lib.rs:144-192 | Below both thresholds nothing changes at all |
| AttestationAuthority.EnoughSignersCanWrite | contracts/threshold-attestor/src/lib.rs:144-192 | With a threshold of signers of one payload, any write that it covers goes through |
| AttestationAuthority.RevocationQuorumCanDelete | contracts/threshold-attestor/src/lib.rs:144-192 | With a revocation quorum for one payload of revocations, any record that it covers can be deleted |
| SpendBudget.GuardsAgreeIffOneCall | packages/service-kit/src/budget.ts:47-58 | The pure check and the SQL guard agree on every ledger and limit exactly for requests that count one call |
| SpendBudget.GuardsPartAtTwo | packages/service-kit/src/budget.ts:47-58 | A request that counts two passes the pure check and fails the SQL guard on an empty ledger that allows one |
| SpendBudget.StepKeepsInv | packages/service-kit/src/pg-budget.ts:41-79 | Every step of every transaction keeps the lock discipline and that each decided insert still fits |
| SpendBudget.RollingWindowIsSafe | packages/service-kit/src/pg-budget.ts:41-79 | In every interleaving, and for every time, the committed rows of a key in one window stay within its limits, although timestamps are taken before the lock |
| SpendBudget.RowsMatchAcceptedCalls | packages/service-kit/src/pg-budget.ts:41-79 | Over a whole run the committed rows are one to one the rows of the accepted calls, with their keys, amounts, counts and times; refused and failed calls left none |
| SpendBudget.LoneCallDecidesByGuard | packages/service-kit/src/pg-budget.ts:41-79 | A call run on its own is accepted exactly when it fits |
| SpendBudget.LoneCallIsMeasured | packages/service-kit/src/pg-budget.ts:41-79 | It fits exactly when count and amount do beside the rows of its key in the window (first reading - windowMs, to], for any time with no later row |
| SpendBudget.OldSpendingIsForgotten | packages/service-kit/src/pg-budget.ts:41-79 | Once every row of its key is as old as the window, a request that fits alone is accepted |
| CanonicalReads.CanonicalIsRead | services/policy-service/src/templates.ts:561-571 | An RFC 8259 reader reads every canonical text to its end, as the value up to key order, with the keys of every object ascending |
| CanonicalReads.ValueUnambiguous | services/policy-service/src/templates.ts:561-571 | The text of a value determines where it ends and, up to key order, which value it is |
| CanonicalJson.EquivalentSameText | services/policy-service/src/templates.ts:561-571 | Values that differ only in key order, at any depth, have the same text |
| CanonicalReads.CanonicalizeIsInjective | services/policy-service/src/templates.ts:561-571 | Two values have the same canonical text if and only if they are equal up to key order |
| Amounts.FormatParses | apps/web/lib/tokens.ts:122-181 | For every amount and up to 36 decimals, parsing the printed amount gives it back, or with m kept digits the amount cut down to them |
| Amounts.ParsersAgree | apps/web/lib/history-parse.ts:395-402 | The three amount parsers read the same number from every amount with at most seven decimals |
| Amounts.FormatStroopsAgreesIff | apps/extension/lib/tx-summary.ts:181-190 | The stroop printer agrees with the seven-decimal formatter exactly on amounts that are not negative or have no fraction |
| Amounts.NegativeFractionsPrintApart | apps/extension/lib/tx-summary.ts:181-190 | Minus one stroop is printed differently by the two printers |
| AmountTexts.PrintedShape | apps/web/lib/tokens.ts:122-151 | A printed amount is the digits of its whole part and, unless the fraction is zero, a point and no more decimals than wanted; with all of them the last is not zero |
| AmountTexts.NegativePrinted | apps/web/lib/tokens.ts:122-151 | A negative amount is printed as a minus sign and the amount |
| AmountTexts.ParseIff | apps/web/lib/tokens.ts:156-181 | A text is read as an amount if and only if, trimmed, it has only digits before and after its first point, not too many after it; anything after a second point is not read |
| AmountTexts.LongFractionsAreCut | apps/web/lib/history-parse.ts:395-402 | With more than seven decimals the strict parser refuses, and the other two cut them |
| AmountTexts.MinusIsRead | apps/web/lib/history-parse.ts:395-402 | A minus sign in front negates what is read |
| PercentEncoding.DecodeFormEncode | apps/web/lib/sep7.ts:182-191 | Decoding a form value undoes encoding it, for every text without lone surrogates |
| PercentEncoding.TrimmedValue | apps/web/lib/sep7.ts:182-191 | Trimming white space from a raw value keeps it decodable and shortens what it decodes to |
| PercentFormat.DecodeIff | apps/web/lib/sep7.ts:182-191 | A text decodes to another if and only if that is what its characters and the escapes of the octets of its scalar values read as, and fails for any other escape |
| PercentFormat.DecodeFormIff | apps/web/lib/sep7.ts:182-191 | In a form value a plus sign is a space besides |
| PercentFormat.EncodeIff | apps/web/lib/sep7.ts:170-172 | Encoding gives the one text that reads as what was encoded and escapes, in capitals, only what has to be |
| PercentFormat.EncodableIff | apps/web/lib/sep7.ts:170-172 | A text can be encoded if and only if it has no lone surrogate |
| PercentFormat.LengthIsOctets | apps/web/lib/sep7.ts:146-158 | The length that bounds a memo is the number of octets of its encoding |
| Sep7.BuildPayUri | apps/web/lib/sep7.ts:130-172 | The pushes and checks, in their order, give the printed URI or the first error |
| Sep7Printing.BuildIsExact | apps/web/lib/sep7.ts:130-172 | Printing goes through if and only if destination, amount, memo and message are valid and everything can be encoded, and this is the text, character by character |
| Sep7Printing.WhyNotPrinted | apps/web/lib/sep7.ts:130-172 | Else it names the first of them that is not |
| Sep7.ParsePayUri | apps/web/lib/sep7.ts:196-337 | The loop over the pairs and the checks after it, in their order, give the parsed request or the first error |
| Sep7Reading.ParseIff | apps/web/lib/sep7.ts:196-337 | A text is accepted if and only if, trimmed, it is a pay request of at most 2048 characters without a fragment, each part of its query reads and gives a field that no other part gives, and the fields are acceptable; and it is read as the request they make |
| Sep7Reading.WhyNoQuery | apps/web/lib/sep7.ts:196-222 | What is no pay request is refused for the first thing wrong with it |
| Sep7Acceptance.FieldsAcceptedIff | apps/web/lib/sep7.ts:241-337 | Fields are acceptable if and only if the destination is an account or a contract, nothing asks for a callback or memo, the network is this one, the asset is listed in its registry, the amount is positive with at most twelve digits and seven decimals, the message is safe, and origin and signature come together |
| Sep7Acceptance.WhyRefused | apps/web/lib/sep7.ts:241-337 | Else they are refused for the first of these |
| Sep7Acceptance.AcceptedIsSound | apps/web/lib/sep7.ts:196-337 | Whatever text is accepted, its asset is in the registry, its amount positive, its message safe, its destination valid, and it has an origin exactly with a signature |
| Sep7RoundTrip.CollectGathers | apps/web/lib/sep7.ts:223-239 | The parser's loop succeeds exactly when every pair reads and no name repeats, and then gathers them all |
| Sep7RoundTrip.RoundTrip | apps/web/lib/sep7.ts:130-337 | What the parser makes of every printed URI with a registered asset: the same request, unless it is over 2048 characters, has a memo or is for another network |
| Sep7Reorder.EntryTrimmed | apps/web/lib/sep7.ts:196-239 | Trimming a pair changes the value of its field to a shorter one and nothing else |
| Sep7Reorder.Reordering | apps/web/lib/sep7.ts:196-337 | A reordered accepted URI is accepted as the same request if and only if its new last parameter does not end in white space |
| Sep7Counterexample.TrailingSpaceIsLost | apps/web/lib/sep7.ts:196-337 | For every account and registry on the main network, a request whose message is one raw space is another request when the message comes last |
| PolicyPages.CursorRoundTrip | services/policy-service/src/server.ts:93-104 | A cursor decodes to the position it encodes if and only if both parts are non-empty and the id has no colon |
| PolicyPages.CursorReadsIff | services/policy-service/src/server.ts:93-104 | A cursor decodes to a position if and only if it carries the two parts, not empty, with the last colon between them |
| PolicyPages.MemoryPolicyRepository.InsertRecord | services/policy-service/src/server.ts:109-111 | Inserting sets one record under its id and keeps ids distinct |
| PolicyPages.MemoryPolicyRepository.ListPage | services/policy-service/src/server.ts:118-149 | Filtering, sorting and cutting step by step gives the page, its hasMore and its cursor |
| PolicyPages.FiltersInTurn | services/policy-service/src/server.ts:119-122 | Filtering step by step keeps exactly what matches all filters |
| PolicyWalk.SortedDescending | services/policy-service/src/server.ts:124-131 | The listing is strictly descending in (createdAt, id) |
| PolicyWalk.NextCursor | services/policy-service/src/server.ts:133-148 | A page without a nextCursor is all that remains; else its nextCursor is that of its last policy and leads back there, with strictly fewer of the old ones below it |
| PolicyWalk.WalkIsExact | services/policy-service/src/server.ts:118-149 | Following the returned nextCursor until there is none, under inserts, terminates, fails exactly from a malformed cursor, and serves in strictly descending order everything that was there below it and nothing that does not match |
| PolicyWalk.EveryPolicyOnce | services/policy-service/src/server.ts:118-149 | Every policy that matches at the start is served exactly once |
| PolicyWalk.ServedAsWanted | services/policy-service/src/server.ts:118-149 | From the first page on, each policy that was there with the status and dates asked for is served once, and nothing is served without them |
| EventQueue.PolicyEventQueue.Enqueue | services/policy-service/src/event-queue.ts:124-145 | A new message goes to the end with no attempts and its own limit or the queue's |
| EventQueue.PolicyEventQueue.ProcessNext | services/policy-service/src/event-queue.ts:162-236 | One attempt at the first message: done, quarantined at its limit, or back to the end |
| EventQueue.PolicyEventQueue.ProcessAll | services/policy-service/src/event-queue.ts:241-250 | The loop terminates with an empty queue and gives the results of the drain function |
| EventQueue.DrainIsAlone | services/policy-service/src/event-queue.ts:162-250 | Whatever else is queued, a message gets exactly the results and the quarantine record that it would get alone |
| EventQueue.DrainIgnores | services/policy-service/src/event-queue.ts:162-250 | Draining gives no result and no record for a message that is not queued |
| EventQueue.FirstSuccessOrLimit | services/policy-service/src/event-queue.ts:162-236 | Alone, a message succeeds at its first attempt that does not fail within its limit, and is poisoned exactly after its limit of failures |
| EventQueue.MalformedIsPoisoned | services/policy-service/src/event-queue.ts:162-236 | A message without a type or a payload is quarantined after its limit of attempts, whatever the handler does |
| EventQueue.FollowsHandler | services/policy-service/src/event-queue.ts:162-236 | Any other is done at the first attempt its handler takes without an error, or quarantined with the error of the last one |
| EventQueue.RecordedLast | services/policy-service/src/event-queue.ts:162-236 | The quarantine record has the last attempt, its number and its reason |
| EventConsumers.StepKeepsTotal | services/policy-service/src/event-queue.ts:162-236 | Every step of overlapping consumers keeps how often each message, and each fate, is counted |
| EventConsumers.EveryRunPartitions | services/policy-service/src/event-queue.ts:162-250 | In every interleaving each message added is waiting, in flight, succeeded or quarantined, once, and its fate is what it would be alone |
| EventConsumers.IdsArePartitioned | services/policy-service/src/event-queue.ts:162-250 | With different ids, those that wait, are in flight, succeeded and are quarantined are together those added, each once |
| EventConsumers.QuietRunsEndAsAlone | services/policy-service/src/event-queue.ts:162-250 | Once nothing waits or is in flight, what succeeded and what is quarantined is what each message comes to alone |
| DeadLetters.MemoryDlqStore.Insert | services/policy-service/src/dlq-store.ts:118-132 | A new record starts unarchived and never requeued, and changes no other |
| DeadLetters.MemoryDlqStore.Find | services/policy-service/src/dlq-store.ts:134-139 | Finds a record, and an archived one only when asked to |
| DeadLetters.MemoryDlqStore.CountOpen | services/policy-service/src/dlq-store.ts:165-167 | The depth is the number of unarchived records |
| DeadLetters.MemoryDlqStore.Update | services/policy-service/src/dlq-store.ts:169-175 | Sets the given fields of one record, or fails when there is none |
| DeadLetters.MemoryDlqStore.RecordAudit | services/policy-service/src/dlq-store.ts:177-187 | The audit log only grows at its end |
| DeadLetters.UpdateKeepsCores | services/policy-service/src/dlq-store.ts:169-175 | No update changes what any record says of its failed job |
| DeadLetters.DepthAfterUpdate | services/policy-service/src/dlq-store.ts:165-175 | Archiving a record takes exactly it out of the depth, and restoring it puts it back |
| DeadLetters.DepthCounts | services/policy-service/src/dlq-store.ts:165-167 | The depth is the number of positions whose record is not archived |
| DeadLetters.DepthAfterInsert | services/policy-service/src/dlq-store.ts:118-132 | A new record makes it one more |
| DeployJobs.InMemoryDeployJobStore.Claim | services/policy-service/src/policy-deploy-worker.ts:122-131 | Takes the first pending job, or none |
| DeployJobs.InMemoryDeployJobStore.MarkCompleted | services/policy-service/src/policy-deploy-worker.ts:133-138 | Completes one job, or fails when there is none |
| DeployJobs.InMemoryDeployJobStore.HandleFailure | services/policy-service/src/policy-deploy-worker.ts:140-205 | Counts the failure, and either returns the job to the queue or kills it with one dead letter and one audit event |
| DeployJobs.KilledIff | services/policy-service/src/policy-deploy-worker.ts:140-165 | A failure kills a job exactly when it is terminal, the last attempt that the call, the job or the store allows in this order, or beyond the threshold |
| DeployJobs.ProcessDeploymentJob | services/policy-service/src/policy-deploy-worker.ts:242-273 | One round: nothing without a pending job, else the claimed job completed or failed |
| DeployWorkers.StepIsSafe | services/policy-service/src/policy-deploy-worker.ts:122-205 | Every claim, completion, failure, addition and administration keeps the invariant of jobs, letters and workers |
| DeployWorkers.NoJobIsHeldTwice | services/policy-service/src/policy-deploy-worker.ts:122-131 | In any interleaving no two workers are on one job, and a held job is in progress |
| DeployWorkers.OneLetterPerDeadJob | services/policy-service/src/policy-deploy-worker.ts:166-200 | A dead job has exactly one dead letter, with its final retry count, and any other job none |
| DeployWorkers.ClaimsAreBounded | services/policy-service/src/policy-deploy-worker.ts:157-165 | No job is attempted more than min(max attempts, threshold + 1) times, or once if that is less |
| DeployWorkers.GivenUpAtTheBound | services/policy-service/src/policy-deploy-worker.ts:157-165 | A held job is given up exactly at a terminal error, or when it has failed that many times |
| DeployWorkers.DrainingEnds | services/policy-service/src/policy-deploy-worker.ts:242-273 | Without new jobs, workers make only a bounded number of steps, in any interleaving |
| DeployWorkers.IdleMeansFinished | services/policy-service/src/policy-deploy-worker.ts:242-273 | When no worker can get further, every job is completed or dead |
| TokenBucket.TokenBucketLimiter.TryConsume | services/api-gateway/src/token-bucket.ts:21-55 | Refills one bucket, decides, and leaves every other key alone |
| TokenBucket.TokenBucketLimiter.Reset | services/api-gateway/src/token-bucket.ts:57-63 | Forgets one key, or all of them for no key or an empty one |
| TokenBucket.EveryWindowIsBounded | services/api-gateway/src/token-bucket.ts:21-55 | In any run, with calls for any keys, what calls i to j grant a key is at most the capacity and the income of the time between them |
| TokenBucket.RetryAfterIsExact | services/api-gateway/src/token-bucket.ts:47-54 | After a refusal of no more than the capacity, with no other call for the key, waiting at least the returned seconds is enough, and waiting a second less is not |
| TokenBucket.NewKeyIsFull | services/api-gateway/src/token-bucket.ts:21-55 | The first call for a key is granted exactly up to the capacity, and is told the whole tokens left |
| TokenBucket.SecondCallIff | services/api-gateway/src/token-bucket.ts:21-55 | After it, and any calls for other keys, a second one is granted exactly up to what was left and has come in since, and the capacity |
| CircuitBreaker.Controller.BeforeCall | packages/service-kit/src/circuit-breaker.ts:77-86 | Fails fast with the remaining cooldown while open, else lets the call through, half-open after the cooldown |
| CircuitBreaker.Controller.RecordOutcome | packages/service-kit/src/circuit-breaker.ts:88-107 | The next state, counter and opening time, and one report for a change of state |
| CircuitBreaker.Controller.Run | packages/service-kit/src/circuit-breaker.ts:117-127 | One execute: attempted or rejected, with the state it leaves |
| CircuitBreaker.ClosedIffFewFailures | packages/service-kit/src/circuit-breaker.ts:64-127 | After any run the breaker is closed exactly while the attempted calls end in fewer failures than the threshold, and its counter is their number |
| CircuitBreaker.GetsThroughIff | packages/service-kit/src/circuit-breaker.ts:77-127 | After any run a call gets through exactly while there are few trailing failures or the cooldown since the last attempt has passed, and a rejected one is told the rest of that cooldown |
| CircuitBreaker.ReportsLead | packages/service-kit/src/circuit-breaker.ts:64-107 | The reports of a run lead from its first state to its last by changes, each the next of the one before |
| CircuitBreaker.OutageBound | packages/service-kit/src/circuit-breaker.ts:77-107 | From the opening on, while nothing succeeds, n attempted calls take at least n cooldowns |
| RpcPool.CreateRpcPool | packages/service-kit/src/rpc-pool.ts:116-134 | Fails exactly without URLs; else every distinct URL starts healthy and the first is selected |
| RpcPool.RpcPool.ReportFailure | packages/service-kit/src/rpc-pool.ts:214-218 | Demotes a known endpoint and selects again |
| RpcPool.RpcPool.RunProbes | packages/service-kit/src/rpc-pool.ts:161-203 | The loop over the probe results updates every endpoint, then selects again |
| RpcPool.CandidatesAreRight | packages/service-kit/src/rpc-pool.ts:136-142 | The candidates are the configured URLs, each once, healthy ones in priority order, then the others by least recent failure |
| RpcPool.SelectionIsRight | packages/service-kit/src/rpc-pool.ts:144-218 | After any probes and reports the selected endpoint is the first candidate |
| RpcPool.NothingIsPreferred | packages/service-kit/src/rpc-pool.ts:144-218 | And it is preferred to every other endpoint |
| RpcPool.HealthyIffFresh | packages/service-kit/src/rpc-pool.ts:161-203 | After a probe cycle an endpoint is healthy exactly if it said so and no answer is too far ahead of its own |
| RpcPool.ReportedInOrder | packages/service-kit/src/rpc-pool.ts:136-218 | After any reports, healthy endpoints that were never reported come before reported ones, and those stand in the order of their last reports |
| RpcPool.ProbeStamps | packages/service-kit/src/rpc-pool.ts:161-203 | A probe cycle stamps every endpoint as checked, and the failure time of those it finds unhealthy |
| RpcPool.WithRpcFailover | packages/service-kit/src/rpc-pool.ts:251-267 | The loop calls the candidates up to the first that does not fail over and, whatever probes and reports happen during its calls, leaves the pool as the failover function says |
| RpcPool.FirstInOrder | packages/service-kit/src/rpc-pool.ts:251-267 | Whatever else happens to the pool meanwhile, the result is that of the first candidate that does not fail over, or of the last |
| RpcPool.EveryEndpointTried | packages/service-kit/src/rpc-pool.ts:251-267 | If every call fails over, every endpoint has been called exactly once |
| RpcPool.ExhaustedPoolIsUnhealthy | packages/service-kit/src/rpc-pool.ts:251-267 | And, unless a probe intervened, every endpoint is unhealthy |

## Left out

- CleanupRuns.CleanupAlwaysRuns: is for a destination other than the account (the routes refuse that pair), and models a payment's refusal by balance, trust and room only, not by authorization flags of the issuer.
- CleanupBuilder.BuildCleanupSteps: does not model titles, descriptions, time bounds or XDR; within one build a transaction's hash is any function of it, and each build has its own.
- CleanupResume.ResumeCleanupPlan: does not model the wording of the reasons; the destination and the current account are arguments.
- CleanupPlanner.BuildCleanupPlan: does not model the wording of blockers; amounts are integers of stroops beside their decimal text, so that emptied means zero.
- AttestationRegistry.Contract.WriteAttestation: does not model instance storage renewal; the host is taken to cut a longer extension to the network's maximum, and a write to an archived record to start a new entry.
- AttestationRegistry.Contract.RevokeAttestation: an archived record is taken to be restored before it is removed; that the ledger refuses to touch it until then is not modelled.
- ThresholdAttestor.Account.CheckAuth: does not model nonces; the adversary of AttestationAuthority may present any entry any number of times, which is stronger. Ed25519 is a relation between keys, payloads and signatures.
- SpendBudget.RollingWindowIsSafe: is a state machine on values rather than a class, because it speaks of interleaved transactions; amounts and counts are not negative, and the second clock reading of a call is not before its first.
- CanonicalReads.CanonicalizeIsInjective: covers null, booleans, integers, strings, arrays and objects; not `undefined` or fractions.
- Amounts.FormatStroopsAgreesIff: is for integers; a text that is not one is printed as it is.
- Amounts.ParsersAgree: `BigInt` reads decimal digits only; the other literal forms it accepts are not part of this model.
- Sep7.ParsePayUri: the checksum of an encoded key is a parameter, and the input is text, so that "not a string" does not arise; the origin signature is checked elsewhere and is not part of this model.
- PolicyPages.CursorRoundTrip: base64url is any codec that returns every non-empty text without lone surrogates.
- PolicyWalk.WalkIsExact: inserts between pages have new ids; replacing a record by one with another creation time is not covered.
- EventQueue.PolicyEventQueue.ProcessNext: a handler is a function of the message and its attempt; logs, metrics, alerts and stack traces are left out.
- DeployJobs.InMemoryDeployJobStore.HandleFailure: whether an error is terminal is part of the error, since the message patterns and the redaction of texts are not modelled; metrics are left out.
- DeployWorkers.OneLetterPerDeadJob: jobs and letters that are added have new ids.
- DeadLetters.MemoryDlqStore.Update: a field that is given as undefined is not distinguished from one that is absent; listing and the audit trail view are left out.
- TokenBucket.EveryWindowIsBounded: is over the reals, with a clock that does not go back and no reset in between.
- CircuitBreaker.OutageBound: is for sequential calls, because the half-open state does not hold back a second overlapping caller.
- RpcPool.WithRpcFailover: what a call returns is a function of the endpoint; timers, coalescing of probe cycles and callbacks are left out.
- HTTP routes, React, browser storage, Horizon and RPC clients, history scanning, the merge step, and the deployment itself: plumbing around libraries that are not modelled.
- The mint reducer, grant store, feature flags, environment validators and `createUnavailableBudget`: small case analyses that would add only easy members.
