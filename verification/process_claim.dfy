/** `processClaim`: turns an untyped request payload into a typed claim and
    policy, evaluates them, and falls back to a fixed default result when the
    payload cannot be turned into typed records. */
module ClaimProcessing {
  import opened Wrappers
  import opened Dates
  import opened Numbers
  import opened ClaimDataTypes
  import opened ClaimEvaluator

  /** The `claim` section of a request. Absent fields are `None`. A date field
      holds the `Date` that `new Date(...)` makes of the raw text; an amount
      field holds the number the request carries. */
  datatype RawClaim = RawClaim(
    policyId: Option<string>,
    incidentType: Option<string>,
    incidentDate: Date,
    amountClaimed: Option<real>)

  /** The `policy` section of a request. Its `policyId` is carried but never read. */
  datatype RawPolicy = RawPolicy(
    policyId: Option<string>,
    startDate: Date,
    endDate: Date,
    deductible: Option<real>,
    coverageLimit: Option<real>,
    coveredIncidents: Option<seq<string>>)

  /** A whole request body. */
  datatype Payload = Payload(claim: Option<RawClaim>, policy: Option<RawPolicy>)

  /** Why a payload could not be turned into typed records. `MissingSection`
      stands for the `if (claim && policy)` test skipping the block without
      throwing; each other error stands for an exception that `processClaim`
      catches. */
  datatype NormalizeError =
    | MissingSection
    | MissingPolicyId
    | MissingIncidentType
    | MissingCoveredIncidents
    | InvalidIncidentType(value: string)

  /** The typed records handed to the evaluator. */
  datatype Typed = Typed(claim: Claim, policy: Policy)

  /** The result returned whenever processing fails. */
  const DefaultResult: Evaluation := Evaluation(false, Zero, UnknownError)

  /** `field as number`: the cast converts nothing, and an absent field stays
      `undefined`, which every later comparison and operation treats as NaN. */
  function AsNumber(field: Option<real>): (n: Number)
    ensures n.NaN? <==> field.None?
    ensures field.Some? ==> n.value == field.value
  {
    match field
    case None => NaN
    case Some(x) => Num(x)
  }

  /** `toClaimIncidentType`: accepts exactly the enum's string values and
      returns the member with that value. */
  function ToClaimIncidentType(value: string): (r: Result<IncidentType, NormalizeError>)
    ensures r.Success? <==> value in IncidentTypeNames
    ensures r.Success? ==> r.value.Name() == value
    ensures r.Failure? ==> r.error == InvalidIncidentType(value)
  {
    if value == "accident" then Success(Accident)
    else if value == "theft" then Success(Theft)
    else if value == "fire" then Success(Fire)
    else if value == "water damage" then Success(Water)
    else Failure(InvalidIncidentType(value))
  }

  /** `coveredIncidents.map(toClaimIncidentType)`: converts every string in order,
      and fails on the first one that is not an enum value. */
  function ToClaimIncidentTypes(values: seq<string>): (r: Result<seq<IncidentType>, NormalizeError>)
    ensures r.Success? <==> forall i :: 0 <= i < |values| ==> values[i] in IncidentTypeNames
    ensures r.Success? ==> |r.value| == |values|
    ensures r.Success? ==> forall i :: 0 <= i < |values| ==> r.value[i].Name() == values[i]
    ensures r.Failure? ==>
      exists i :: && 0 <= i < |values| && values[i] !in IncidentTypeNames
                  && r.error == InvalidIncidentType(values[i])
                  && (forall j :: 0 <= j < i ==> values[j] in IncidentTypeNames)
  {
    if values == [] then Success([])
    else
      var head :- ToClaimIncidentType(values[0]);
      var tail :- ToClaimIncidentTypes(values[1..]);
      Success([head] + tail)
  }

  /** The typed claim and policy built from the payload. The policy's id is the
      claim section's id; the policy section's own id is ignored. */
  function Normalize(payload: Payload): (r: Result<Typed, NormalizeError>)
    ensures payload.claim.None? || payload.policy.None? ==> r == Failure(MissingSection)
    ensures r.Success? <==>
      && payload.claim.Some? && payload.policy.Some?
      && payload.claim.value.policyId.Some?
      && payload.claim.value.incidentType.Some?
      && payload.claim.value.incidentType.value in IncidentTypeNames
      && payload.policy.value.coveredIncidents.Some?
      && (forall i :: 0 <= i < |payload.policy.value.coveredIncidents.value| ==>
            payload.policy.value.coveredIncidents.value[i] in IncidentTypeNames)
    ensures r.Success? ==>
      var raw, rawPolicy, c, p := payload.claim.value, payload.policy.value, r.value.claim, r.value.policy;
      && c.policyId == p.policyId == raw.policyId.value
      && c.incidentType.Name() == raw.incidentType.value
      && c.incidentDate == raw.incidentDate
      && c.claimAmount == AsNumber(raw.amountClaimed)
      && p.startDate == rawPolicy.startDate
      && p.endDate == rawPolicy.endDate
      && p.deductible == AsNumber(rawPolicy.deductible)
      && p.coverageLimit == AsNumber(rawPolicy.coverageLimit)
      && |p.coveredIncidents| == |rawPolicy.coveredIncidents.value|
      && forall i :: 0 <= i < |p.coveredIncidents| ==>
           p.coveredIncidents[i].Name() == rawPolicy.coveredIncidents.value[i]
  {
    if payload.claim.None? || payload.policy.None? then Failure(MissingSection)
    else
      var raw, rawPolicy := payload.claim.value, payload.policy.value;
      if raw.incidentType.None? then Failure(MissingIncidentType)
      else
        var incidentType :- ToClaimIncidentType(raw.incidentType.value);
        if rawPolicy.coveredIncidents.None? then Failure(MissingCoveredIncidents)
        else
          var covered :- ToClaimIncidentTypes(rawPolicy.coveredIncidents.value);
          if raw.policyId.None? then Failure(MissingPolicyId)
          else
            var id := raw.policyId.value;
            Success(Typed(
              Claim(id, incidentType, raw.incidentDate, AsNumber(raw.amountClaimed)),
              Policy(id, rawPolicy.startDate, rawPolicy.endDate, AsNumber(rawPolicy.deductible),
                     AsNumber(rawPolicy.coverageLimit), covered)))
  }

  /** `processClaim`: the evaluation of the typed records, or the default result
      when the payload cannot be normalized. */
  function ProcessClaim(payload: Payload): (r: Evaluation)
    ensures r.reasonCode == UnknownError <==> Normalize(payload).Failure?
    ensures r.reasonCode == UnknownError ==> r == DefaultResult
    ensures payload.claim.None? || payload.policy.None? ==> r == DefaultResult
    ensures r.approved <==> r.reasonCode == Approved
    ensures !r.approved ==> r.payout == Zero
    ensures r.approved ==> payload.policy.Some? && (r.payout.NaN? <==> payload.policy.value.coverageLimit.None?)
    ensures r.approved && payload.policy.value.coverageLimit.Some? ==>
      0.0 < r.payout.value <= payload.policy.value.coverageLimit.value
  {
    match Normalize(payload)
    case Success(typed) => EvaluateClaim(typed.claim, typed.policy)
    case Failure(_) => DefaultResult
  }

  /** An incident-type string that is not an enum value, in the claim or anywhere
      in the covered list, turns the whole call into the default result. */
  lemma UnknownIncidentTypeGivesDefault(payload: Payload)
    requires payload.claim.Some? && payload.policy.Some?
    requires || (payload.claim.value.incidentType.Some? && payload.claim.value.incidentType.value !in IncidentTypeNames)
             || (payload.policy.value.coveredIncidents.Some? &&
                 exists i :: 0 <= i < |payload.policy.value.coveredIncidents.value| &&
                   payload.policy.value.coveredIncidents.value[i] !in IncidentTypeNames)
    ensures ProcessClaim(payload) == DefaultResult
  { }

  /** When normalization succeeds, the result is exactly the evaluator's answer. */
  lemma ProcessClaimEvaluates(payload: Payload)
    requires Normalize(payload).Success?
    ensures ProcessClaim(payload) == EvaluateClaim(Normalize(payload).value.claim, Normalize(payload).value.policy)
    ensures ProcessClaim(payload).reasonCode != UnknownError
  { }

  /** Both typed records carry the claim section's id, so the id-mismatch guard
      of validation never fires through this path: INVALID_PARAMETERS here always
      has another cause in the payload. */
  lemma InvalidParametersNeverFromIdMismatch(payload: Payload)
    requires ProcessClaim(payload).reasonCode == InvalidParameters
    ensures payload.claim.Some? && payload.policy.Some? && payload.claim.value.policyId.Some?
    ensures var raw, rawPolicy := payload.claim.value, payload.policy.value;
      || raw.policyId.value == []
      || (raw.amountClaimed.Some? && raw.amountClaimed.value < 0.0)
      || (rawPolicy.deductible.Some? && rawPolicy.deductible.value < 0.0)
      || (rawPolicy.coverageLimit.Some? && rawPolicy.coverageLimit.value <= 0.0)
      || (rawPolicy.deductible.Some? && rawPolicy.coverageLimit.Some? &&
          rawPolicy.deductible.value > rawPolicy.coverageLimit.value)
      || TimeAtLeast(rawPolicy.startDate, rawPolicy.endDate)
      || rawPolicy.coveredIncidents.value == []
  { }

  /** The policy section's own `policyId` has no influence on the result. */
  lemma PolicySectionIdIgnored(payload: Payload, id: Option<string>)
    requires payload.policy.Some?
    ensures ProcessClaim(payload.(policy := Some(payload.policy.value.(policyId := id)))) == ProcessClaim(payload)
  { }

  /** Coverage is decided on the raw strings: after normalization the claim's
      incident type is covered exactly when its string occurs in the policy's list. */
  lemma CoverageFollowsRawStrings(payload: Payload)
    requires Normalize(payload).Success?
    ensures var typed := Normalize(payload).value;
      typed.claim.incidentType in typed.policy.coveredIncidents <==>
      payload.claim.value.incidentType.value in payload.policy.value.coveredIncidents.value
  { }
}
