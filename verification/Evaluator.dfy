/** The two rule languages and the evaluator of policy/src/evaluator.rs.

    `show` is Rust's `Display` for f64, which is not modelled: any rendering will
    do, except that where a tier is compared as text it is known to come out as
    its decimal digits. */
module Evaluator {
  import opened Options
  import opened Floats
  import opened Text
  import opened Numerals
  import opened PolicyTypes
  import opened TimeText

  type Show = Float -> string

  /** Whole numbers in the range of tiers are written without a fraction. */
  ghost predicate ShowsTiers(show: Show) {
    forall n: u32 :: show(Finite(n as real)) == Dec(n)
  }

  // ----- Clauses -----

  function NonEmpty(parts: seq<string>): seq<string> {
    if parts == [] then []
    else if parts[0] == "" then NonEmpty(parts[1..])
    else [parts[0]] + NonEmpty(parts[1..])
  }

  function TrimAll(parts: seq<string>): (r: seq<string>)
    ensures |r| == |parts| && forall i :: 0 <= i < |r| ==> r[i] == Trim(parts[i])
  {
    seq(|parts|, i requires 0 <= i < |parts| => Trim(parts[i]))
  }

  function SplitClauses(expression: string): seq<string> {
    NonEmpty(TrimAll(Split(Replace(expression, "&&", " AND "), "AND")))
  }

  /** The names in a bracketed list, brackets optional and repeatable. */
  function ListItems(list: string): (items: seq<string>)
    ensures items != []
  {
    Split(StripEnd(StripStart(Trim(list), One('[')), One(']')), ",")
  }

  // ----- The legacy language -----

  const TOOL_IS := "action.tool =="
  const TOOL_IN := "action.tool in"
  const AMOUNT_OVER := "action.args.amount >"
  const TIER_AT_LEAST := "agent_tier >="

  predicate AmountOver(args: map<string, Yaml>, threshold: Float) {
    "amount" in args && args["amount"].YNumber? && Less(threshold, args["amount"].number)
  }

  predicate MatchesClause(clause: string, context: PolicyContext, tier: u32) {
    if TOOL_IS <= clause then
      TrimValue(clause[|TOOL_IS|..]) == context.toolName
    else if TOOL_IN <= clause then
      exists item :: item in ListItems(clause[|TOOL_IN|..]) && TrimValue(item) == context.toolName
    else if AMOUNT_OVER <= clause then
      AmountOver(context.args, OrElse(ParseF64(TrimValue(clause[|AMOUNT_OVER|..])), PosInf))
    else if TIER_AT_LEAST <= clause then
      tier >= OrElse(ParseU32(TrimValue(clause[|TIER_AT_LEAST|..])), U32_MAX)
    else false
  }

  predicate MatchesCondition(condition: string, context: PolicyContext, tier: u32) {
    forall clause :: clause in SplitClauses(condition) ==> MatchesClause(clause, context, tier)
  }

  // ----- The advanced language -----

  const ARGS := "action.args."

  datatype ExprValue = Text(text: string) | Number(number: Float) | Bool(flag: bool)

  function ArgValue(value: Yaml): Option<ExprValue> {
    match value
    case YNumber(n) => Some(Number(n))
    case YBool(b) => Some(Bool(b))
    case YString(t) => Some(Text(t))
    case _ => None
  }

  function ResolveExprValue(expr: string, context: PolicyContext, tier: u32): Option<ExprValue> {
    var name := Trim(expr);
    if name == "action.tool" || name == "tool" then Some(Text(context.toolName))
    else if name == "agent_tier" || name == "agent.tier" then Some(Number(Finite(tier as real)))
    else if ARGS <= name && name[|ARGS|..] in context.args then ArgValue(context.args[name[|ARGS|..]])
    else None
  }

  predicate MatchesTextValue(left: ExprValue, expected: string, show: Show) {
    match left
    case Text(t) => t == expected
    case Number(n) => show(n) == expected
    case Bool(b) => (if b then "true" else "false") == expected
  }

  predicate CompareNumbers(left: ExprValue, operator: string, right: Float) {
    left.Number? &&
    match operator
    case "==" => Near(left.number, right)
    case "!=" => Apart(left.number, right)
    case ">" => Less(right, left.number)
    case ">=" => AtMost(right, left.number)
    case "<" => Less(left.number, right)
    case "<=" => AtMost(left.number, right)
    case _ => false
  }

  predicate CompareBools(left: ExprValue, operator: string, right: bool) {
    left.Bool? &&
    match operator
    case "==" => left.flag == right
    case "!=" => left.flag != right
    case _ => false
  }

  predicate CompareText(left: ExprValue, operator: string, right: string, show: Show) {
    match operator
    case "==" => MatchesTextValue(left, right, show)
    case "!=" => !MatchesTextValue(left, right, show)
    case _ => false
  }

  /** The right operand decides the comparison: a numeral, a flag or plain text. */
  predicate CompareValue(left: ExprValue, operator: string, right: string, show: Show) {
    var value := TrimValue(right);
    if ParseF64(value).Some? then CompareNumbers(left, operator, ParseF64(value).value)
    else if ParseBool(value).Some? then CompareBools(left, operator, ParseBool(value).value)
    else CompareText(left, operator, value, show)
  }

  /** A clause cut in two at the first occurrence of an operator. */
  datatype Cut = Cut(left: string, operator: string, right: string)

  function CutAt(clause: string, operator: string): Option<Cut>
    requires operator != ""
  {
    match SplitOnce(clause, operator)
    case None => None
    case Some((left, right)) => Some(Cut(Trim(left), operator, Trim(right)))
  }

  /** The operators are tried in this order; the first one present cuts the clause. */
  function CutComparison(clause: string): Option<Cut> {
    if Contains(clause, "==") then CutAt(clause, "==")
    else if Contains(clause, "!=") then CutAt(clause, "!=")
    else if Contains(clause, ">=") then CutAt(clause, ">=")
    else if Contains(clause, "<=") then CutAt(clause, "<=")
    else if Contains(clause, ">") then CutAt(clause, ">")
    else CutAt(clause, "<")
  }

  predicate IsAnyOf(left: ExprValue, list: string, show: Show) {
    exists item :: item in ListItems(list) && MatchesTextValue(left, TrimValue(item), show)
  }

  predicate MatchesAdvancedClause(clause: string, context: PolicyContext, tier: u32, show: Show) {
    var membership := CutAt(clause, " in ");
    var comparison := CutComparison(clause);
    if membership.Some? then
      var value := ResolveExprValue(membership.value.left, context, tier);
      value.Some? && IsAnyOf(value.value, membership.value.right, show)
    else if comparison.Some? then
      var value := ResolveExprValue(comparison.value.left, context, tier);
      value.Some? && CompareValue(value.value, comparison.value.operator, comparison.value.right, show)
    else false
  }

  function NormalizeExpressionForEngine(expression: string, engine: Engine): string {
    match engine
    case Dsl => expression
    case OpaCompat =>
      Replace(Replace(Replace(Replace(expression,
        "input.action.tool", "action.tool"),
        "input.agent.tier", "agent_tier"),
        "input.action.args.", "action.args."),
        "input.action.args", "action.args")
  }

  predicate MatchesAdvancedExpression(expression: string, engine: Engine, context: PolicyContext, tier: u32, show: Show) {
    var normalized := NormalizeExpressionForEngine(expression, engine);
    forall clause :: clause in SplitClauses(normalized) ==> MatchesAdvancedClause(clause, context, tier, show)
  }

  // ----- Whole policies -----

  function FindAgent(agents: seq<AgentSpec>, name: string): Option<AgentSpec> {
    if agents == [] then None
    else if agents[0].name == name then Some(agents[0])
    else FindAgent(agents[1..], name)
  }

  predicate IsBlockedTool(agent: AgentSpec, tool: string) {
    tool in agent.blockedTools || (agent.allowedTools != [] && tool !in agent.allowedTools)
  }

  function EvaluateTimeWindow(rule: RuleSpec, now: Option<string>): RuleAction {
    if rule.timeWindow.None? || now.None? || IsWithinTimeWindow(now.value, rule.timeWindow.value)
    then rule.action
    else OrElse(rule.outsideWindowAction, Block)
  }

  function FirstAdvanced(rules: seq<AdvancedRuleSpec>, engine: Engine, context: PolicyContext, tier: u32, show: Show): Option<AdvancedRuleSpec> {
    if rules == [] then None
    else if MatchesAdvancedExpression(rules[0].expression, engine, context, tier, show) then Some(rules[0])
    else FirstAdvanced(rules[1..], engine, context, tier, show)
  }

  function FirstLegacy(rules: seq<RuleSpec>, context: PolicyContext, tier: u32): Option<RuleSpec> {
    if rules == [] then None
    else if MatchesCondition(rules[0].condition, context, tier) then Some(rules[0])
    else FirstLegacy(rules[1..], context, tier)
  }

  function ResultFromPolicy(decision: RuleAction, id: Option<string>, v: VerificationSpec, confirm: bool): EvaluationResult {
    EvaluationResult(decision, id, v.threshold, v.fallback, confirm)
  }

  /** The outcome for a known agent, given the first rule that matches, if any. */
  function Outcome(policy: AgentPolicy, agent: AgentSpec, context: PolicyContext,
                   advanced: Option<AdvancedRuleSpec>, legacy: Option<RuleSpec>): EvaluationResult
  {
    var v := policy.spec.verification;
    if IsBlockedTool(agent, context.toolName) then ResultFromPolicy(Block, None, v, false)
    else if advanced.Some? then
      var rule := advanced.value;
      ResultFromPolicy(rule.action, Some(rule.id), v, OrElse(rule.requireConfirmation, false))
    else if legacy.Some? then
      var rule := legacy.value;
      ResultFromPolicy(EvaluateTimeWindow(rule, context.nowUtc), Some(rule.id), v, OrElse(rule.requireConfirmation, false))
    else ResultFromPolicy(Allow, None, v, false)
  }

  function EvaluatePolicy(policy: AgentPolicy, context: PolicyContext, advancedMode: bool, show: Show): Result<EvaluationResult, EvaluationError> {
    match FindAgent(policy.spec.agents, context.agentName)
    case None => Err(AgentNotFound)
    case Some(agent) =>
      var advanced :=
        if advancedMode && policy.spec.runtime.advancedMode.Some?
        then FirstAdvanced(policy.spec.advancedRules, policy.spec.runtime.advancedMode.value, context, agent.tier, show)
        else None;
      Ok(Outcome(policy, agent, context, advanced, FirstLegacy(policy.spec.rules, context, agent.tier)))
  }
}
