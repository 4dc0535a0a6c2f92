/** The translator of policy/src/bin/policy_migrate.rs: legacy rule conditions
    rewritten as advanced expressions. */
module Migrate {
  import opened Options
  import opened Text
  import opened Numerals
  import opened PolicyTypes
  import opened Evaluator

  function MaybeQuoteLiteral(value: string): string {
    var trimmed := Trim(value);
    if trimmed != "" && (trimmed[0] == '"' || trimmed[0] == '\'') then trimmed
    else if ParseBool(trimmed).Some? || ParseF64(trimmed).Some? then trimmed
    else "\"" + trimmed + "\""
  }

  /** What follows the operator, if exactly `action.tool` precedes it. */
  function ToolOperand(clause: string, operator: string): Option<string>
    requires operator != ""
  {
    match SplitOnce(clause, operator)
    case None => None
    case Some((left, right)) => if Trim(left) == "action.tool" then Some(right) else None
  }

  function QuoteItems(items: seq<string>): (r: seq<string>)
    ensures |r| == |items| && forall i :: 0 <= i < |r| ==> r[i] == MaybeQuoteLiteral(Trim(items[i]))
  {
    seq(|items|, i requires 0 <= i < |items| => MaybeQuoteLiteral(Trim(items[i])))
  }

  function QuoteClause(clause: string): string {
    var equal := ToolOperand(clause, "==");
    var member := ToolOperand(clause, " in ");
    if equal.Some? then "action.tool == " + MaybeQuoteLiteral(Trim(equal.value))
    else if member.Some? then "action.tool in [" + Join(QuoteItems(ListItems(member.value)), ", ") + "]"
    else clause
  }

  function QuoteAll(parts: seq<string>): (r: seq<string>)
    ensures |r| == |parts| && forall i :: 0 <= i < |r| ==> r[i] == QuoteClause(Trim(parts[i]))
  {
    seq(|parts|, i requires 0 <= i < |parts| => QuoteClause(Trim(parts[i])))
  }

  function QuotedExpression(expression: string): string {
    Join(QuoteAll(Split(expression, "&&")), " && ")
  }

  function ToOpaDialect(expression: string): string {
    Replace(Replace(Replace(expression,
      "action.tool", "input.action.tool"),
      "action.args.", "input.action.args."),
      "agent_tier", "input.agent.tier")
  }

  function MigratedExpression(condition: string, engine: Engine): string {
    var quoted := QuotedExpression(Replace(Replace(condition, " AND ", " && "), "AND", "&&"));
    match engine
    case Dsl => quoted
    case OpaCompat => ToOpaDialect(quoted)
  }

  predicate IsQuoted(clause: string, part: string) {
    clause == QuoteClause(Trim(part))
  }

  predicate AreQuoted(clauses: seq<string>, parts: seq<string>, n: nat) {
    n <= |parts| && |clauses| == n && forall i :: 0 <= i < n ==> IsQuoted(clauses[i], parts[i])
  }

  lemma OneMoreQuoted(clauses: seq<string>, parts: seq<string>, clause: string)
    requires |clauses| < |parts| && AreQuoted(clauses, parts, |clauses|) && IsQuoted(clause, parts[|clauses|])
    ensures AreQuoted(clauses + [clause], parts, |clauses| + 1)
  {
  }

  lemma QuotedAll(clauses: seq<string>, parts: seq<string>)
    requires AreQuoted(clauses, parts, |parts|)
    ensures clauses == QuoteAll(parts)
  {
    forall i | 0 <= i < |parts| ensures clauses[i] == QuoteAll(parts)[i] { assert IsQuoted(clauses[i], parts[i]); }
  }

  method QuotePiece(part: string) returns (clause: string)
    ensures IsQuoted(clause, part)
  {
    clause := QuoteClause(Trim(part));
  }

  /** The loop over clauses, collecting the rewritten ones. */
  method QuotePieces(parts: seq<string>) returns (clauses: seq<string>)
    ensures clauses == QuoteAll(parts)
  {
    clauses := [];
    for i := 0 to |parts|
      invariant AreQuoted(clauses, parts, i)
    {
      var clause := QuotePiece(parts[i]);
      OneMoreQuoted(clauses, parts, clause);
      clauses := clauses + [clause];
    }
    QuotedAll(clauses, parts);
  }

  method QuoteLegacyLiterals(expression: string) returns (quoted: string)
    ensures quoted == QuotedExpression(expression)
  {
    var clauses := QuotePieces(Split(expression, "&&"));
    quoted := Join(clauses, " && ");
  }

  method MigrateExpression(condition: string, engine: Engine) returns (expression: string)
    ensures expression == MigratedExpression(condition, engine)
  {
    expression := Replace(Replace(condition, " AND ", " && "), "AND", "&&");
    expression := QuoteLegacyLiterals(expression);
    match engine {
      case Dsl =>
      case OpaCompat =>
        expression := ToOpaDialect(expression);
    }
  }

  function MigrateRule(rule: RuleSpec, engine: Engine): AdvancedRuleSpec {
    AdvancedRuleSpec(rule.id, "migrated: " + rule.description, MigratedExpression(rule.condition, engine),
                     rule.action, rule.requireConfirmation)
  }

  function MigrateRules(rules: seq<RuleSpec>, engine: Engine): (r: seq<AdvancedRuleSpec>)
    ensures |r| == |rules| && forall i :: 0 <= i < |r| ==> r[i] == MigrateRule(rules[i], engine)
  {
    seq(|rules|, i requires 0 <= i < |rules| => MigrateRule(rules[i], engine))
  }

  /** The policy rewrite of `main`: the legacy rules stay, the advanced ones are added. */
  function MigratePolicy(policy: AgentPolicy, engine: Engine): AgentPolicy {
    policy.(spec := policy.spec.(
      runtime := RuntimeSpec("v2", Some(engine)),
      advancedRules := MigrateRules(policy.spec.rules, engine)))
  }
}
