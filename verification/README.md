# Claim evaluation engine, modelled in Dafny

This project models the core of a small insurance-claim service. `evaluateClaim`
decides one claim against one policy. It runs four ordered, short-circuiting
checks:

1. parameter validation;
2. the policy's activity window;
3. incident coverage;
4. deductible-and-cap payout arithmetic.

It returns `{approved, payout, reasonCode}`. `processClaim` turns an untyped
request payload into the typed claim and policy records and evaluates them. If
the payload cannot be converted, it returns the fixed default result
`{approved: false, payout: 0, reasonCode: 'unknown_error'}`.

Modules:

- `Wrappers` (`wrappers.dfy`): `Option` for absent payload fields and `Result` for normalization.
- `Numbers` (`numbers.dfy`): the part of JavaScript's `number` the engine uses. A number is either `Num(value)` or `NaN`; an `undefined` field behaves as NaN in every use the engine makes of it. The module models comparisons (false whenever NaN is involved), subtraction, `Math.abs` and `Math.min`.
- `Dates` (`dates.dfy`): the part of JavaScript's `Date` the engine uses. A date is either `Valid(ms)` or `Invalid`, the NaN date that `new Date` makes of missing or garbled text. The module also models `getTime()` comparisons, where NaN compares false, and `setHours(0, 0, 0, 0)`, which floors to a multiple of 86 400 000 ms.
- `ClaimDataTypes` (`claim_data_types.dfy`): incident types with their string values, reason codes, and the claim, policy and evaluation records.
- `ClaimEvaluator` (`claim_evaluator.dfy`): `validateClaimPolicyParams`, `isPolicyActive`, `evaluateClaim`, and lemmas on check order, the half-open window and payout bounds.
- `ClaimProcessing` (`process_claim.dfy`): the raw payload records, `toClaimIncidentType`, the element-wise conversion of the covered list, normalization and `processClaim`.
- `Scenarios` (`scenarios.dfy`): the test suite's fixtures and edge cases, and one request with a missing limit, stated as facts about the model.

## Behaviour of the code worth knowing

- **Malformed dates.** `new Date(text)` never throws, so a malformed or missing date does not make `processClaim` fail. It becomes the invalid date. Validation's `startDate >= endDate` comparison is then false, so that check passes, and `isPolicyActive` is false. With otherwise valid parameters the answer is `POLICY_INACTIVE` (`InvalidDateIsInactive`), not the default result.
- **Missing amounts.** `amountClaimed`, `deductible` and `coverageLimit` are cast, not checked. An absent one is `undefined`, and every validation comparison on it is false, so validation passes (source/claimEvaluator.ts:35, 47, 51). Past the first three checks:
  - a missing claim amount or deductible makes the payout NaN, so the claim is `ZERO_PAYOUT`;
  - a missing coverage limit makes `Math.min` return NaN, so the claim is approved with a NaN payout (`NaNAmountOutcomes`, `Scenarios.MissingCoverageLimitCase`). The payout bound `0 < payout <= coverageLimit` therefore holds only when the limit is present.
- **Water damage.** The water incident's string value is `'water damage'`, with a space (source/claimDataTypes.ts:5).
- **Empty covered list: test versus code.** Validation rejects an empty covered list (source/claimEvaluator.ts:43-45), so the result is `INVALID_PARAMETERS`. The test at source/tests/claimEval.test.ts:94-101 expects `NOT_COVERED`, which the code cannot produce (`EmptyCoverageIsInvalid`, `Scenarios.EmptyCoverageCase`).
- **Conversion failures.** `MissingSection` stands for a missing section. The `if (claim && policy)` test at source/processClaim.ts:13 then skips the block without throwing, so nothing is logged. Each other `NormalizeError` stands for an exception that `processClaim` catches at source/processClaim.ts:35-37:
  - a missing claim `policyId`, which throws at source/claimEvaluator.ts:31 when `.length` is read on `undefined`;
  - a missing incident type, which `toClaimIncidentType` rejects;
  - a missing covered list, which throws when `.map` is called on `undefined`;
  - an incident-type string outside the enum.

  All of them lead to the same default result.
- **Policy id.** The typed policy's `policyId` comes from the claim section (source/processClaim.ts:25). So the id-mismatch guard never fires through `processClaim`, and the policy section's own id has no effect (`InvalidParametersNeverFromIdMismatch`, `PolicySectionIdIgnored`).
- **Same-day windows.** Validation compares exact times (source/claimEvaluator.ts:39), but the window compares days. A policy whose start time precedes its end time on the same day can pass validation, and is never in force (`SameDayWindowNeverActive`).

## Model

| member | source | states |
|---|---|---|
| Numbers.Less | source/claimEvaluator.ts:35 | `a < b` is false whenever either side is NaN, and is the ordinary order on numbers otherwise |
| Numbers.LessEq | source/claimEvaluator.ts:47 | `a <= b` is false whenever either side is NaN, so it is the negation of `b < a` only on numbers |
| Numbers.Sub | source/claimEvaluator.ts:17 | `a - b` is NaN exactly when an operand is, and otherwise adding `b` back gives `a` |
| Numbers.Abs | source/claimEvaluator.ts:17 | `Math.abs` is NaN exactly for NaN, and otherwise is non-negative and equal to the value or its negation |
| Numbers.Min | source/claimEvaluator.ts:20 | `Math.min` is NaN as soon as either argument is, and otherwise is at most both arguments and equal to one of them |
| Dates.TimeAtLeast | source/claimEvaluator.ts:39 | `getTime() >=` is false when either date is invalid, and compares the time values otherwise |
| Dates.TimeBefore | source/claimEvaluator.ts:67 | `getTime() <` is false when either date is invalid, and on valid dates is exactly the negation of `TimeAtLeast` |
| Dates.StartOfDay | source/claimEvaluator.ts:60-65 | Moving a date to midnight keeps validity and the day number; the result is the multiple of a day at or below the time, less than one day earlier |
| Dates.StartOfDayOrder | source/claimEvaluator.ts:63-67 | Comparing two times after moving both to midnight (`<=` and `<`) is the same as comparing their day numbers |
| ClaimDataTypes.NameInjective | source/claimDataTypes.ts:1-6 | Two incident types have the same string value only if they are the same member, and every value is one of the four enum strings |
| ClaimEvaluator.ValidParams | source/claimEvaluator.ts:30-56 | The guard chain accepts exactly the pairs with: a non-empty, matching policy id; a non-negative claim; 0 <= deductible <= limit; a positive limit; start not at or after end; and a non-empty covered list. A NaN amount or date passes its comparison |
| ClaimEvaluator.IsPolicyActive | source/claimEvaluator.ts:58-68 | Active exactly when all three dates are valid and start day <= incident day < end day (half-open window, time of day ignored) |
| ClaimEvaluator.EvaluateClaim | source/claimEvaluator.ts:3-28 | Never UNKNOWN_ERROR; approved iff the reason is APPROVED; denied means payout 0; approved means numeric claim > numeric deductible and a NaN payout exactly when the limit is NaN; with a numeric limit, 0 < payout <= limit and payout = min(claim - deductible, limit) |
| ClaimEvaluator.InvalidParametersFirst | source/claimEvaluator.ts:10-11 | INVALID_PARAMETERS iff validation rejects the pair, and then the whole result is fixed whatever the later checks would say |
| ClaimEvaluator.PolicyInactiveSecond | source/claimEvaluator.ts:12-13 | With valid parameters, POLICY_INACTIVE iff the incident day is outside [start day, end day) or a date is invalid |
| ClaimEvaluator.NotCoveredThird | source/claimEvaluator.ts:14-15 | With valid parameters and an active policy, NOT_COVERED iff the incident type is not in the covered list, and then the payout is 0 |
| ClaimEvaluator.PayoutFourth | source/claimEvaluator.ts:17-24 | Once the first three checks pass, approved iff claim and deductible are numbers and claim > deductible, and ZERO_PAYOUT otherwise |
| ClaimEvaluator.ApprovedIffAllChecksPass | source/claimEvaluator.ts:10-21 | Approval holds exactly when parameters are valid, the policy is active, the type is covered and a numeric claim exceeds a numeric deductible |
| ClaimEvaluator.EmptyCoverageIsInvalid | source/claimEvaluator.ts:43-45 | An empty covered list always gives INVALID_PARAMETERS with payout 0, never NOT_COVERED |
| ClaimEvaluator.StartDayInclusive | source/claimEvaluator.ts:67 | An incident on the start day, at any time of day, is inside the window |
| ClaimEvaluator.EndDayExclusive | source/claimEvaluator.ts:67 | With valid parameters, an incident on the end day, at any time of day, is POLICY_INACTIVE with payout 0 |
| ClaimEvaluator.SameDayWindowNeverActive | source/claimEvaluator.ts:39-67 | A valid policy whose start and end fall on the same day is always POLICY_INACTIVE |
| ClaimEvaluator.InvalidDateIsInactive | source/claimEvaluator.ts:58-68 | With valid parameters, an invalid (NaN) incident, start or end date gives POLICY_INACTIVE with payout 0 |
| ClaimEvaluator.NaNAmountOutcomes | source/claimEvaluator.ts:17-24 | Past the first three checks, a NaN claim or deductible gives ZERO_PAYOUT with payout 0, and a NaN limit with claim > deductible is approved with a NaN payout |
| ClaimEvaluator.PayoutBoundaries | source/claimEvaluator.ts:17-24 | Past the first three checks, with numeric amounts: claim == deductible gives ZERO_PAYOUT; up to deductible + limit pays claim - deductible; at or beyond it pays exactly the limit |
| ClaimEvaluator.PayoutMonotoneInAmount | source/claimEvaluator.ts:17-21 | Raising the claimed amount, with all else fixed, never withdraws an approval and, under a numeric limit, never lowers the payout |
| ClaimEvaluator.EarlyDenialIgnoresIncidentType | source/claimEvaluator.ts:10-15 | After an INVALID_PARAMETERS or POLICY_INACTIVE denial, changing the incident type leaves the result unchanged |
| ClaimProcessing.ToClaimIncidentType | source/processClaim.ts:42-48 | Succeeds iff the string is one of the four enum values, and then returns the member whose value is that string; otherwise fails naming the string |
| ClaimProcessing.ToClaimIncidentTypes | source/processClaim.ts:30 | Succeeds iff every string is an enum value, preserving length and order element by element; otherwise fails on the first invalid string |
| ClaimProcessing.Normalize | source/processClaim.ts:12-31 | Fails with a missing section if either section is absent; succeeds exactly when the id, incident type and covered list are present and every type string is valid; then the ids of both records are the claim section's id, dates are copied, amounts are copied with an absent one read as NaN, and the covered list maps element by element |
| ClaimProcessing.AsNumber | source/processClaim.ts:21-29 | The `as number` cast converts nothing: a present amount is that number, and an absent one is read as NaN |
| ClaimProcessing.ProcessClaim | source/processClaim.ts:4-40 | UNKNOWN_ERROR iff normalization fails, and then the result is the default; a missing section gives the default; approval matches the reason code and denial pays 0; an approval pays NaN exactly when the raw limit is absent, and otherwise more than 0 and at most that limit |
| ClaimProcessing.UnknownIncidentTypeGivesDefault | source/processClaim.ts:19-37 | An unrecognised incident-type string in the claim or anywhere in the covered list makes the whole call return the default result |
| ClaimProcessing.ProcessClaimEvaluates | source/processClaim.ts:33 | When normalization succeeds, the result is exactly the evaluation of the typed records and is never UNKNOWN_ERROR |
| ClaimProcessing.InvalidParametersNeverFromIdMismatch | source/processClaim.ts:14-25 | An INVALID_PARAMETERS answer always has a cause other than an id mismatch: an empty id, a present but bad amount, deductible or limit, an inverted window or an empty covered list |
| ClaimProcessing.PolicySectionIdIgnored | source/processClaim.ts:15-25 | Replacing the policy section's own policyId leaves the result unchanged |
| ClaimProcessing.CoverageFollowsRawStrings | source/processClaim.ts:19-30 | After normalization, the claim's type is covered exactly when its raw string occurs in the raw covered list |
| Scenarios.FixturesApproved | source/tests/claimEval.test.ts:4-34 | The two fixture claims, each on its own policy, are approved for 4500 and 1750 |
| Scenarios.EdgeCasesInvalid | source/tests/claimEval.test.ts:40-92 | Each case is INVALID_PARAMETERS with payout 0: mismatched ids, empty ids, negative deductible, negative limit, negative claim, deductible above limit |
| Scenarios.EmptyCoverageCase | source/tests/claimEval.test.ts:94-101 | The empty-coverage case gives INVALID_PARAMETERS, not the NOT_COVERED the test expects |
| Scenarios.MissingCoverageLimitCase | source/processClaim.ts:21-29 | The first fixture sent without a coverage limit is approved with a NaN payout |

## Left out

- HTTP layer (index.ts): routing, JSON body parsing, the `listen` bootstrap and the 500 handler. This is library plumbing around `processClaim`.
- Parsing date text: a raw date field already holds the `Date` that `new Date(...)` produces, valid or invalid.
- Time zones and daylight saving: `setHours` works in local time, and the model reads every time value as local time. JavaScript's limit of ±8.64e15 ms on dates is not modelled.
- Floating-point rounding and infinities: a present amount is an exact real. `JSON.parse` reads a number beyond the double range, such as `1e400`, as Infinity. Infinities are not modelled, and neither is the NaN that Infinity − Infinity gives at source/claimEvaluator.ts:17.
- JSON `null` amounts: `null` acts as 0 in comparisons and arithmetic, not as NaN. For example, `"coverageLimit": null` makes `null <= 0` true at source/claimEvaluator.ts:47, so the result is INVALID_PARAMETERS, whereas an absent limit is approved with a NaN payout. A raw amount is either absent or a number.
- Values of the wrong JavaScript type, such as a numeric `policyId`, a string amount, a non-object section, a `null` payload or non-string covered entries. Every field is either absent or of its declared type.
- `console.error` logging of a caught failure.
- How a NaN payout is serialized in the response: that happens in the HTTP layer.
- String form of reason codes: the `ClaimReasonCode` enum is not part of this model. The default result's `'unknown_error'` string is taken to be `UnknownError`.
- A missing claim `policyId` is reported by `Normalize`, during normalization. The source throws later, on the first line of validation. The returned result is the same default.
