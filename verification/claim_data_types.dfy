/** The entities the claim engine works on: incident types, reason codes,
    claims, policies and evaluations. */
module ClaimDataTypes {
  import opened Dates
  import opened Numbers

  /** The closed set of incident types a claim may report and a policy may cover. */
  datatype IncidentType = Accident | Theft | Fire | Water {

    /** The string value of the enum member, as it appears in a request. */
    function Name(): string {
      match this
      case Accident => "accident"
      case Theft => "theft"
      case Fire => "fire"
      case Water => "water damage"
    }
  }

  /** The enum's string values, in declaration order (what `Object.values` lists). */
  const IncidentTypeNames: seq<string> := ["accident", "theft", "fire", "water damage"]

  /** Distinct incident types have distinct names, and the names are exactly the enum's values. */
  lemma NameInjective(a: IncidentType, b: IncidentType)
    ensures a.Name() == b.Name() <==> a == b
    ensures a.Name() in IncidentTypeNames
  { }

  /** Why a claim was approved or denied. `UnknownError` is the catch-all that
      only the request boundary produces. */
  datatype ReasonCode =
    | Approved
    | PolicyInactive
    | NotCovered
    | ZeroPayout
    | InvalidParameters
    | UnknownError

  /** One reported loss event. */
  datatype Claim = Claim(
    policyId: string,
    incidentType: IncidentType,
    incidentDate: Date,
    claimAmount: Number)

  /** The coverage contract the claim is evaluated against. */
  datatype Policy = Policy(
    policyId: string,
    startDate: Date,
    endDate: Date,
    deductible: Number,
    coverageLimit: Number,
    coveredIncidents: seq<IncidentType>)

  /** The decision returned for one claim. */
  datatype Evaluation = Evaluation(approved: bool, payout: Number, reasonCode: ReasonCode)
}
