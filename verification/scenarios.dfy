/** The fixtures and edge cases of the evaluator's test suite, stated as facts
    about the model. Dates are the fixtures' calendar days at midnight. */
module Scenarios {
  import opened Wrappers
  import opened Dates
  import opened Numbers
  import opened ClaimDataTypes
  import opened ClaimEvaluator
  import opened ClaimProcessing

  const Day20230101: int := 19358
  const Day20230515: int := 19492
  const Day20240101: int := 19723
  const Day20220601: int := 19144
  const Day20250601: int := 20240

  const Claim123: Claim := Claim("POL123", Accident, FromDay(Day20230101), Num(5000.0))
  const Policy123: Policy := Policy("POL123", FromDay(Day20230101), FromDay(Day20240101), Num(500.0), Num(10000.0), [Accident, Fire])
  const Claim456: Claim := Claim("POL456", Theft, FromDay(Day20230515), Num(2000.0))
  const Policy456: Policy := Policy("POL456", FromDay(Day20220601), FromDay(Day20250601), Num(250.0), Num(50000.0), [Theft, Water, Accident, Fire])

  const Denied: Evaluation := Evaluation(false, Zero, InvalidParameters)

  /** The fixtures match their own policies: both claims are approved for the
      amount above the deductible (the first one on the policy's start day). */
  lemma FixturesApproved()
    ensures EvaluateClaim(Claim123, Policy123) == Evaluation(true, Num(4500.0), Approved)
    ensures EvaluateClaim(Claim456, Policy456) == Evaluation(true, Num(1750.0), Approved)
  { }

  /** Each edge case of the suite is rejected as INVALID_PARAMETERS with nothing paid. */
  lemma EdgeCasesInvalid()
    ensures EvaluateClaim(Claim123, Policy456) == Denied
    ensures EvaluateClaim(Claim123.(policyId := ""), Policy123.(policyId := "")) == Denied
    ensures EvaluateClaim(Claim123, Policy123.(deductible := Num(-100.0))) == Denied
    ensures EvaluateClaim(Claim123, Policy123.(coverageLimit := Num(-5000.0))) == Denied
    ensures EvaluateClaim(Claim123.(claimAmount := Num(-2000.0)), Policy123) == Denied
    ensures EvaluateClaim(Claim123, Policy123.(deductible := Num(Policy123.coverageLimit.value + 1.0))) == Denied
  { }

  /** A policy with an empty covered list yields INVALID_PARAMETERS, not the
      NOT_COVERED that the suite's last case expects. */
  lemma EmptyCoverageCase()
    ensures EvaluateClaim(Claim123, Policy123.(coveredIncidents := [])) == Denied
    ensures EvaluateClaim(Claim123, Policy123.(coveredIncidents := [])).reasonCode != NotCovered
  { }

  /** The first fixture sent as a request whose policy section has no `coverageLimit`. */
  const PayloadWithoutLimit: Payload := Payload(
    Some(RawClaim(Some("POL123"), Some("accident"), FromDay(Day20230101), Some(5000.0))),
    Some(RawPolicy(None, FromDay(Day20230101), FromDay(Day20240101), Some(500.0), None, Some(["accident", "fire"]))))

  /** Validation lets the missing limit through, and the claim is approved with a NaN payout. */
  lemma MissingCoverageLimitCase()
    ensures ProcessClaim(PayloadWithoutLimit) == Evaluation(true, NaN, Approved)
  { }
}
