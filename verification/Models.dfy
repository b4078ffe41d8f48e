/** The wire types of a flag snapshot (models.go:12-106). */
module Models {
  import opened Text
  import CanonicalNumber

  datatype Variation = Variation(key: string, value: string)

  datatype WeightedVariation = WeightedVariation(key: string, weight: int)

  /** How a rule or a fallthrough picks its variation. */
  datatype ServeConfig = ServeConfig(
    kind: string, variation: string, bucketBy: string, salt: string, variations: seq<WeightedVariation>)

  datatype Condition = Condition(attribute: string, operator: string, values: seq<string>, negate: bool)

  datatype ConditionGroup = ConditionGroup(operator: string, conditions: seq<Condition>)

  /** Rules name a segment or carry their own condition groups; segmentKey "" means none. */
  datatype Rule = Rule(
    id: string, priority: int, conditionGroups: seq<ConditionGroup>, serve: ServeConfig, segmentKey: string)

  datatype Prerequisite = Prerequisite(flagKey: string, expectedVariation: string)

  datatype Flag = Flag(
    key: string, version: int, kind: string, enabled: bool, variations: seq<Variation>, rules: seq<Rule>,
    fallthrough: ServeConfig, offVariation: string, prerequisites: seq<Prerequisite>)

  datatype Segment = Segment(key: string, version: int, conditions: seq<Condition>, conditionLogic: string)

  /** An attribute value, told apart as far as bucketing tells it apart. */
  datatype AttributeValue =
    | Nil
    | Boolean(b: bool)
    | Number(float: CanonicalNumber.Float)
    | NumberLiteral(text: string, parsed: Option<CanonicalNumber.Float>)
    | Aggregate
    | Formatted(text: string)

  datatype Context = Context(userId: string, attributes: map<string, AttributeValue>)

  datatype Reason = RuleMatch | Fallthrough | FlagDisabled | FlagNotFound | Error | PrerequisiteFailed

  /** value is the raw JSON of the served variation; None is Go's nil. */
  datatype Detail = Detail(
    value: Option<string>, variation: string, reason: Reason, ruleId: string, prerequisiteKey: string)
}
