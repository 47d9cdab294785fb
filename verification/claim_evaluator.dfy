/** The claim evaluation rule engine: four ordered, short-circuiting checks
    (parameters, activity window, coverage, payout) and the payout arithmetic. */
module ClaimEvaluator {
  import opened Dates
  import opened Numbers
  import opened ClaimDataTypes

  /** The pairs `validateClaimPolicyParams` accepts, as one conjunction. A check
      whose operand is NaN (an invalid date, a missing amount) passes, because
      every comparison with NaN is false. */
  ghost predicate WellFormedPair(claim: Claim, policy: Policy) {
    && policy.policyId != []
    && claim.policyId == policy.policyId
    && (claim.claimAmount.Num? ==> claim.claimAmount.value >= 0.0)
    && (policy.deductible.Num? ==> policy.deductible.value >= 0.0)
    && (policy.coverageLimit.Num? ==> policy.coverageLimit.value > 0.0)
    && (policy.deductible.Num? && policy.coverageLimit.Num? ==> policy.deductible.value <= policy.coverageLimit.value)
    && (policy.startDate.Valid? && policy.endDate.Valid? ==> policy.startDate.ms < policy.endDate.ms)
    && policy.coveredIncidents != []
  }

  /** `validateClaimPolicyParams`: the guard clauses in source order. */
  function ValidParams(claim: Claim, policy: Policy): (ok: bool)
    ensures ok <==> WellFormedPair(claim, policy)
  {
    if |policy.policyId| == 0 || claim.policyId != policy.policyId then false
    else if Less(claim.claimAmount, Zero) || Less(policy.deductible, Zero) || Less(policy.coverageLimit, Zero) then false
    else if TimeAtLeast(policy.startDate, policy.endDate) then false
    else if |policy.coveredIncidents| == 0 then false
    else if Less(policy.deductible, Zero) || LessEq(policy.coverageLimit, Zero) then false
    else if Less(policy.coverageLimit, policy.deductible) then false
    else true
  }

  /** `isPolicyActive`: all three dates are moved to midnight, then the incident
      must fall in the half-open window [start, end). */
  function IsPolicyActive(claim: Claim, policy: Policy): (active: bool)
    ensures active <==>
      && claim.incidentDate.Valid? && policy.startDate.Valid? && policy.endDate.Valid?
      && DayOf(policy.startDate.ms) <= DayOf(claim.incidentDate.ms) < DayOf(policy.endDate.ms)
  {
    var incident := StartOfDay(claim.incidentDate);
    var start := StartOfDay(policy.startDate);
    var end := StartOfDay(policy.endDate);
    TimeAtLeast(incident, start) && TimeBefore(incident, end)
  }

  /** `evaluateClaim`: the first failing check decides the reason code; when all
      pass, the payout is the claim less the deductible, capped at the limit. */
  function EvaluateClaim(claim: Claim, policy: Policy): (r: Evaluation)
    ensures r.reasonCode != UnknownError
    ensures r.approved <==> r.reasonCode == Approved
    ensures !r.approved ==> r.payout == Zero
    ensures r.approved ==>
      claim.claimAmount.Num? && policy.deductible.Num? && claim.claimAmount.value > policy.deductible.value
    ensures r.approved ==> (r.payout.NaN? <==> policy.coverageLimit.NaN?)
    ensures r.approved && policy.coverageLimit.Num? ==>
      var excess := claim.claimAmount.value - policy.deductible.value;
      && 0.0 < r.payout.value <= policy.coverageLimit.value
      && r.payout.value <= excess
      && (r.payout.value == excess || r.payout.value == policy.coverageLimit.value)
  {
    if !ValidParams(claim, policy) then
      Evaluation(false, Zero, InvalidParameters)
    else if !IsPolicyActive(claim, policy) then
      Evaluation(false, Zero, PolicyInactive)
    else if claim.incidentType !in policy.coveredIncidents then
      Evaluation(false, Zero, NotCovered)
    else
      var payout := Sub(claim.claimAmount, Abs(policy.deductible));
      if Less(Zero, payout) then
        Evaluation(true, Min(payout, policy.coverageLimit), Approved)
      else
        Evaluation(false, Zero, ZeroPayout)
  }

  /** Parameter validation comes first: it alone decides INVALID_PARAMETERS,
      whatever the dates, the coverage or the amounts would lead to. */
  lemma InvalidParametersFirst(claim: Claim, policy: Policy)
    ensures EvaluateClaim(claim, policy).reasonCode == InvalidParameters <==> !WellFormedPair(claim, policy)
    ensures !WellFormedPair(claim, policy) ==> EvaluateClaim(claim, policy) == Evaluation(false, Zero, InvalidParameters)
  { }

  /** With valid parameters, the policy is inactive exactly when the incident day
      lies outside [start day, end day) or one of the dates is invalid. */
  lemma PolicyInactiveSecond(claim: Claim, policy: Policy)
    requires WellFormedPair(claim, policy)
    ensures EvaluateClaim(claim, policy).reasonCode == PolicyInactive <==>
      !(&& claim.incidentDate.Valid? && policy.startDate.Valid? && policy.endDate.Valid?
        && DayOf(policy.startDate.ms) <= DayOf(claim.incidentDate.ms) < DayOf(policy.endDate.ms))
  { }

  /** With valid parameters and an active policy, an uncovered incident type is
      denied as NOT_COVERED with nothing paid. */
  lemma NotCoveredThird(claim: Claim, policy: Policy)
    requires WellFormedPair(claim, policy) && IsPolicyActive(claim, policy)
    ensures EvaluateClaim(claim, policy).reasonCode == NotCovered <==> claim.incidentType !in policy.coveredIncidents
    ensures claim.incidentType !in policy.coveredIncidents ==> EvaluateClaim(claim, policy).payout == Zero
  { }

  /** Once every earlier check passes, the claim is approved exactly when both
      amounts are numbers and the claim exceeds the deductible; otherwise it is
      ZERO_PAYOUT. */
  lemma PayoutFourth(claim: Claim, policy: Policy)
    requires WellFormedPair(claim, policy) && IsPolicyActive(claim, policy)
    requires claim.incidentType in policy.coveredIncidents
    ensures EvaluateClaim(claim, policy).approved <==>
      claim.claimAmount.Num? && policy.deductible.Num? && claim.claimAmount.value > policy.deductible.value
    ensures EvaluateClaim(claim, policy).reasonCode == ZeroPayout <==> !EvaluateClaim(claim, policy).approved
  { }

  /** A claim is approved exactly when all four checks pass. */
  lemma ApprovedIffAllChecksPass(claim: Claim, policy: Policy)
    ensures EvaluateClaim(claim, policy).approved <==>
      && WellFormedPair(claim, policy)
      && IsPolicyActive(claim, policy)
      && claim.incidentType in policy.coveredIncidents
      && claim.claimAmount.Num? && policy.deductible.Num?
      && claim.claimAmount.value > policy.deductible.value
  { }

  /** An empty covered list is rejected by validation, so the answer is
      INVALID_PARAMETERS and never NOT_COVERED. */
  lemma EmptyCoverageIsInvalid(claim: Claim, policy: Policy)
    requires policy.coveredIncidents == []
    ensures EvaluateClaim(claim, policy) == Evaluation(false, Zero, InvalidParameters)
  { }

  /** The window's start day is inclusive: an incident on the start day, at any time of day, is in force. */
  lemma StartDayInclusive(claim: Claim, policy: Policy)
    requires claim.incidentDate.Valid? && policy.startDate.Valid? && policy.endDate.Valid?
    requires DayOf(claim.incidentDate.ms) == DayOf(policy.startDate.ms)
    requires DayOf(policy.startDate.ms) < DayOf(policy.endDate.ms)
    ensures IsPolicyActive(claim, policy)
  { }

  /** The window's end day is exclusive: an incident on the end day, at any time
      of day, is denied as POLICY_INACTIVE once the parameters are valid. */
  lemma EndDayExclusive(claim: Claim, policy: Policy)
    requires WellFormedPair(claim, policy)
    requires claim.incidentDate.Valid? && policy.endDate.Valid?
    requires DayOf(claim.incidentDate.ms) == DayOf(policy.endDate.ms)
    ensures EvaluateClaim(claim, policy) == Evaluation(false, Zero, PolicyInactive)
  { }

  /** Validation compares exact times but the window compares days: a policy that
      starts and ends on the same day passes validation yet is never in force. */
  lemma SameDayWindowNeverActive(claim: Claim, policy: Policy)
    requires WellFormedPair(claim, policy)
    requires policy.startDate.Valid? && policy.endDate.Valid?
    requires DayOf(policy.startDate.ms) == DayOf(policy.endDate.ms)
    ensures EvaluateClaim(claim, policy).reasonCode == PolicyInactive
  { }

  /** A date that failed to parse passes the window-order validation but leaves
      the policy inactive. */
  lemma InvalidDateIsInactive(claim: Claim, policy: Policy)
    requires WellFormedPair(claim, policy)
    requires claim.incidentDate.Invalid? || policy.startDate.Invalid? || policy.endDate.Invalid?
    ensures EvaluateClaim(claim, policy) == Evaluation(false, Zero, PolicyInactive)
  { }

  /** A missing (NaN) amount passes validation. Past the first three checks, a
      NaN claim or deductible gives ZERO_PAYOUT, while a NaN coverage limit with
      a claim above the deductible is approved with a NaN payout. */
  lemma NaNAmountOutcomes(claim: Claim, policy: Policy)
    requires WellFormedPair(claim, policy) && IsPolicyActive(claim, policy)
    requires claim.incidentType in policy.coveredIncidents
    ensures claim.claimAmount.NaN? || policy.deductible.NaN? ==>
      EvaluateClaim(claim, policy) == Evaluation(false, Zero, ZeroPayout)
    ensures && claim.claimAmount.Num? && policy.deductible.Num? && policy.coverageLimit.NaN?
            && claim.claimAmount.value > policy.deductible.value ==>
      EvaluateClaim(claim, policy) == Evaluation(true, NaN, Approved)
  { }

  /** Payout boundaries once every check passes, for numeric amounts: a claim
      equal to the deductible gives ZERO_PAYOUT; up to deductible + limit the
      payout is the claim less the deductible; at or beyond it, exactly the limit. */
  lemma PayoutBoundaries(claim: Claim, policy: Policy)
    requires WellFormedPair(claim, policy) && IsPolicyActive(claim, policy)
    requires claim.incidentType in policy.coveredIncidents
    ensures claim.claimAmount.Num? && claim.claimAmount == policy.deductible ==>
      EvaluateClaim(claim, policy) == Evaluation(false, Zero, ZeroPayout)
    ensures claim.claimAmount.Num? && policy.deductible.Num? && policy.coverageLimit.Num? ==>
      var c, d, l := claim.claimAmount.value, policy.deductible.value, policy.coverageLimit.value;
      && (d < c <= d + l ==> EvaluateClaim(claim, policy) == Evaluation(true, Num(c - d), Approved))
      && (c >= d + l ==> EvaluateClaim(claim, policy) == Evaluation(true, Num(l), Approved))
  { }

  /** Claiming more never yields less: with everything else fixed, a larger
      claimed amount keeps an approval and, under a numeric limit, never lowers
      the payout. */
  lemma PayoutMonotoneInAmount(claim: Claim, policy: Policy, smaller: real, larger: real)
    requires smaller <= larger
    ensures var low := EvaluateClaim(claim.(claimAmount := Num(smaller)), policy);
      var high := EvaluateClaim(claim.(claimAmount := Num(larger)), policy);
      && (low.approved ==> high.approved)
      && (policy.coverageLimit.Num? ==> low.payout.value <= high.payout.value)
  { }

  /** Short-circuiting: once validation or the window has denied a claim, the
      incident type the claim reports makes no difference. */
  lemma EarlyDenialIgnoresIncidentType(claim: Claim, policy: Policy, other: IncidentType)
    requires EvaluateClaim(claim, policy).reasonCode in {InvalidParameters, PolicyInactive}
    ensures EvaluateClaim(claim.(incidentType := other), policy) == EvaluateClaim(claim, policy)
  { }
}
