/** What the rules engine and the review of rule versions share: deadline definitions and the pinning of cases. */
module RuleBook {
  import opened DayCounting

  /** What a definition says; `wording` stands for its labels, roles, actions and reminder rule. */
  datatype DefinitionTerms = DefinitionTerms(days: int, kind: DayKind, wording: string)

  /** A deadline definition of a rule. */
  datatype Definition = Definition(ruleId: nat, key: string, terms: DefinitionTerms)

  /** A case is pinned once; a later attempt changes nothing. */
  function PinOnce(pins: map<nat, nat>, caseId: nat, version: nat): map<nat, nat> {
    if caseId in pins then pins else pins[caseId := version]
  }
}
