/** A parsed policy document: what policy/src/parser.rs deserializes. */
module PolicyTypes {
  import opened Options
  import opened Floats
  import opened Numerals

  datatype RuleAction = Allow | Block
  datatype FallbackMode = FallbackAllow | FallbackBlock | FallbackQueue
  datatype Engine = Dsl | OpaCompat

  datatype Metadata = Metadata(name: string, version: string, owner: string, lastReviewed: Option<string>)

  datatype AgentSpec = AgentSpec(name: string, tier: u32, allowedTools: seq<string>, blockedTools: seq<string>)

  datatype TimeWindow = TimeWindow(start: string, end: string)

  datatype RuleSpec = RuleSpec(
    id: string, description: string, condition: string, action: RuleAction,
    requireConfirmation: Option<bool>, timeWindow: Option<TimeWindow>, outsideWindowAction: Option<RuleAction>)

  datatype AdvancedRuleSpec = AdvancedRuleSpec(
    id: string, description: string, expression: string, action: RuleAction, requireConfirmation: Option<bool>)

  datatype VerificationSpec = VerificationSpec(threshold: Float, model: string, fallback: FallbackMode)

  datatype RuntimeSpec = RuntimeSpec(version: string, advancedMode: Option<Engine>)

  datatype PolicySpec = PolicySpec(
    agents: seq<AgentSpec>, rules: seq<RuleSpec>, verification: VerificationSpec,
    runtime: RuntimeSpec, advancedRules: seq<AdvancedRuleSpec>)

  datatype AgentPolicy = AgentPolicy(apiVersion: string, kind: string, metadata: Metadata, spec: PolicySpec)

  /** A YAML argument value; numbers are read through `as_f64`. */
  datatype Yaml =
    | YNull | YBool(flag: bool) | YNumber(number: Float) | YString(text: string)
    | YList(items: seq<Yaml>) | YMapping(fields: map<string, Yaml>)

  datatype PolicyContext = PolicyContext(
    agentName: string, toolName: string, args: map<string, Yaml>, nowUtc: Option<string>)

  datatype EvaluationResult = EvaluationResult(
    decision: RuleAction, matchedRuleId: Option<string>, threshold: Float,
    fallback: FallbackMode, requireConfirmation: bool)

  datatype EvaluationError = AgentNotFound

  function OrElse<T>(value: Option<T>, default: T): T {
    if value.Some? then value.value else default
  }
}
