/** What a policy answers, stated on the agent's lists and on positions in the
    rule lists: policy/src/evaluator.rs. Every call falls under exactly one of
    the lemmas below the first. */
module PolicyAnswers {
  import opened Options
  import opened Floats
  import opened PolicyTypes
  import opened TimeText
  import opened Evaluator

  // ----- Firsts -----

  /** The agent at `a` is the one the evaluator reads. */
  predicate Speaks(agents: seq<AgentSpec>, name: string, a: nat) {
    a < |agents| && agents[a].name == name && forall b :: 0 <= b < a ==> agents[b].name != name
  }

  predicate AdvancedMatch(policy: AgentPolicy, context: PolicyContext, agent: AgentSpec, show: Show, i: nat)
    requires policy.spec.runtime.advancedMode.Some? && i < |policy.spec.advancedRules|
  {
    MatchesAdvancedExpression(policy.spec.advancedRules[i].expression, policy.spec.runtime.advancedMode.value, context, agent.tier, show)
  }

  /** No advanced rule is looked at, or none matches. */
  predicate AdvancedSilent(policy: AgentPolicy, context: PolicyContext, agent: AgentSpec, advancedMode: bool, show: Show) {
    advancedMode && policy.spec.runtime.advancedMode.Some? ==>
      forall i :: 0 <= i < |policy.spec.advancedRules| ==> !AdvancedMatch(policy, context, agent, show, i)
  }

  predicate LegacyMatch(policy: AgentPolicy, context: PolicyContext, agent: AgentSpec, i: nat)
    requires i < |policy.spec.rules|
  {
    MatchesCondition(policy.spec.rules[i].condition, context, agent.tier)
  }

  // ----- What the searches find -----

  lemma {:induction false} AgentFound(agents: seq<AgentSpec>, name: string, a: nat)
    requires Speaks(agents, name, a)
    ensures FindAgent(agents, name) == Some(agents[a])
  {
    if a > 0 {
      forall b | 0 <= b < a - 1 ensures agents[1..][b].name != name { assert agents[1..][b] == agents[b + 1]; }
      assert agents[0].name != name;
      AgentFound(agents[1..], name, a - 1);
    }
  }

  lemma {:induction false} AgentMissing(agents: seq<AgentSpec>, name: string)
    ensures FindAgent(agents, name).None? <==> forall agent :: agent in agents ==> agent.name != name
  {
    if agents != [] {
      AgentMissing(agents[1..], name);
      assert agents == [agents[0]] + agents[1..];
    }
  }

  lemma {:induction false} AdvancedFound(rules: seq<AdvancedRuleSpec>, engine: Engine, context: PolicyContext, tier: Numerals.u32, show: Show, i: nat)
    requires i < |rules| && MatchesAdvancedExpression(rules[i].expression, engine, context, tier, show)
    requires forall j :: 0 <= j < i ==> !MatchesAdvancedExpression(rules[j].expression, engine, context, tier, show)
    ensures FirstAdvanced(rules, engine, context, tier, show) == Some(rules[i])
    decreases |rules|
  {
    if i > 0 {
      var rest := rules[1..];
      forall j | 0 <= j < i - 1 ensures !MatchesAdvancedExpression(rest[j].expression, engine, context, tier, show) {
        assert rest[j] == rules[j + 1];
      }
      AdvancedFound(rest, engine, context, tier, show, i - 1);
    }
  }

  lemma {:induction false} AdvancedMissing(rules: seq<AdvancedRuleSpec>, engine: Engine, context: PolicyContext, tier: Numerals.u32, show: Show)
    requires forall j :: 0 <= j < |rules| ==> !MatchesAdvancedExpression(rules[j].expression, engine, context, tier, show)
    ensures FirstAdvanced(rules, engine, context, tier, show) == None
    decreases |rules|
  {
    if rules != [] {
      var rest := rules[1..];
      forall j | 0 <= j < |rest| ensures !MatchesAdvancedExpression(rest[j].expression, engine, context, tier, show) {
        assert rest[j] == rules[j + 1];
      }
      AdvancedMissing(rest, engine, context, tier, show);
    }
  }

  lemma {:induction false} LegacyFound(rules: seq<RuleSpec>, context: PolicyContext, tier: Numerals.u32, i: nat)
    requires i < |rules| && MatchesCondition(rules[i].condition, context, tier)
    requires forall j :: 0 <= j < i ==> !MatchesCondition(rules[j].condition, context, tier)
    ensures FirstLegacy(rules, context, tier) == Some(rules[i])
    decreases |rules|
  {
    if i > 0 {
      var rest := rules[1..];
      forall j | 0 <= j < i - 1 ensures !MatchesCondition(rest[j].condition, context, tier) { assert rest[j] == rules[j + 1]; }
      LegacyFound(rest, context, tier, i - 1);
    }
  }

  lemma {:induction false} LegacyMissing(rules: seq<RuleSpec>, context: PolicyContext, tier: Numerals.u32)
    requires forall j :: 0 <= j < |rules| ==> !MatchesCondition(rules[j].condition, context, tier)
    ensures FirstLegacy(rules, context, tier) == None
    decreases |rules|
  {
    if rules != [] {
      var rest := rules[1..];
      forall j | 0 <= j < |rest| ensures !MatchesCondition(rest[j].condition, context, tier) { assert rest[j] == rules[j + 1]; }
      LegacyMissing(rest, context, tier);
    }
  }

  // ----- The answers -----

  /** A call is refused for its agent exactly when no agent has the name. */
  lemma UnknownAgentExactly(policy: AgentPolicy, context: PolicyContext, advancedMode: bool, show: Show)
    ensures EvaluatePolicy(policy, context, advancedMode, show) == Err(AgentNotFound)
        <==> forall agent :: agent in policy.spec.agents ==> agent.name != context.agentName
    ensures EvaluatePolicy(policy, context, advancedMode, show).Ok?
        <==> exists agent :: agent in policy.spec.agents && agent.name == context.agentName
  {
    AgentMissing(policy.spec.agents, context.agentName);
  }

  /** The agent's two lists come before every rule, and only they block without
      naming a rule. */
  lemma ListsBlockExactly(policy: AgentPolicy, context: PolicyContext, advancedMode: bool, show: Show, a: nat)
    requires Speaks(policy.spec.agents, context.agentName, a)
    ensures var agent, v := policy.spec.agents[a], policy.spec.verification;
            var blocked := context.toolName in agent.blockedTools || (agent.allowedTools != [] && context.toolName !in agent.allowedTools);
            var answer := EvaluatePolicy(policy, context, advancedMode, show);
            && answer.Ok?
            && (blocked ==> answer.value == EvaluationResult(Block, None, v.threshold, v.fallback, false))
            && (blocked <==> answer.value.decision == Block && answer.value.matchedRuleId == None)
  {
    AgentFound(policy.spec.agents, context.agentName, a);
  }

  predicate MayUse(agent: AgentSpec, tool: string) {
    tool !in agent.blockedTools && (agent.allowedTools == [] || tool in agent.allowedTools)
  }

  /** With the flag on and an engine, the first advanced rule that matches decides. */
  lemma FirstAdvancedRuleDecides(policy: AgentPolicy, context: PolicyContext, show: Show, a: nat, i: nat)
    requires Speaks(policy.spec.agents, context.agentName, a) && MayUse(policy.spec.agents[a], context.toolName)
    requires policy.spec.runtime.advancedMode.Some? && i < |policy.spec.advancedRules|
    requires AdvancedMatch(policy, context, policy.spec.agents[a], show, i)
    requires forall j :: 0 <= j < i ==> !AdvancedMatch(policy, context, policy.spec.agents[a], show, j)
    ensures var rule, v := policy.spec.advancedRules[i], policy.spec.verification;
            EvaluatePolicy(policy, context, true, show)
            == Ok(EvaluationResult(rule.action, Some(rule.id), v.threshold, v.fallback, rule.requireConfirmation == Some(true)))
  {
    var agent, rules := policy.spec.agents[a], policy.spec.advancedRules;
    AgentFound(policy.spec.agents, context.agentName, a);
    forall j | 0 <= j < i ensures !MatchesAdvancedExpression(rules[j].expression, policy.spec.runtime.advancedMode.value, context, agent.tier, show) {
      assert !AdvancedMatch(policy, context, agent, show, j);
    }
    AdvancedFound(rules, policy.spec.runtime.advancedMode.value, context, agent.tier, show, i);
  }

  lemma SilenceFindsNone(policy: AgentPolicy, context: PolicyContext, agent: AgentSpec, advancedMode: bool, show: Show)
    requires AdvancedSilent(policy, context, agent, advancedMode, show)
    ensures advancedMode && policy.spec.runtime.advancedMode.Some? ==>
              FirstAdvanced(policy.spec.advancedRules, policy.spec.runtime.advancedMode.value, context, agent.tier, show) == None
  {
    if advancedMode && policy.spec.runtime.advancedMode.Some? {
      var rules, engine := policy.spec.advancedRules, policy.spec.runtime.advancedMode.value;
      forall j | 0 <= j < |rules| ensures !MatchesAdvancedExpression(rules[j].expression, engine, context, agent.tier, show) {
        assert !AdvancedMatch(policy, context, agent, show, j);
      }
      AdvancedMissing(rules, engine, context, agent.tier, show);
    }
  }

  /** Otherwise the first legacy rule that matches decides: by its action, or,
      when its window is known to be missed, by what it says for that, or Block. */
  lemma FirstLegacyRuleDecides(policy: AgentPolicy, context: PolicyContext, advancedMode: bool, show: Show, a: nat, i: nat)
    requires Speaks(policy.spec.agents, context.agentName, a) && MayUse(policy.spec.agents[a], context.toolName)
    requires AdvancedSilent(policy, context, policy.spec.agents[a], advancedMode, show)
    requires i < |policy.spec.rules| && LegacyMatch(policy, context, policy.spec.agents[a], i)
    requires forall j :: 0 <= j < i ==> !LegacyMatch(policy, context, policy.spec.agents[a], j)
    ensures var rule, v := policy.spec.rules[i], policy.spec.verification;
            var missed := rule.timeWindow.Some? && context.nowUtc.Some? && !IsWithinTimeWindow(context.nowUtc.value, rule.timeWindow.value);
            var decision := if !missed then rule.action
                            else if rule.outsideWindowAction.Some? then rule.outsideWindowAction.value else Block;
            EvaluatePolicy(policy, context, advancedMode, show)
            == Ok(EvaluationResult(decision, Some(rule.id), v.threshold, v.fallback, rule.requireConfirmation == Some(true)))
  {
    var agent, rules := policy.spec.agents[a], policy.spec.rules;
    AgentFound(policy.spec.agents, context.agentName, a);
    SilenceFindsNone(policy, context, agent, advancedMode, show);
    forall j | 0 <= j < i ensures !MatchesCondition(rules[j].condition, context, agent.tier) {
      assert !LegacyMatch(policy, context, agent, j);
    }
    LegacyFound(rules, context, agent.tier, i);
  }

  /** A call no rule speaks to is allowed, under no rule. */
  lemma SilentRulesAllow(policy: AgentPolicy, context: PolicyContext, advancedMode: bool, show: Show, a: nat)
    requires Speaks(policy.spec.agents, context.agentName, a) && MayUse(policy.spec.agents[a], context.toolName)
    requires AdvancedSilent(policy, context, policy.spec.agents[a], advancedMode, show)
    requires forall i :: 0 <= i < |policy.spec.rules| ==> !LegacyMatch(policy, context, policy.spec.agents[a], i)
    ensures var v := policy.spec.verification;
            EvaluatePolicy(policy, context, advancedMode, show) == Ok(EvaluationResult(Allow, None, v.threshold, v.fallback, false))
  {
    var agent, rules := policy.spec.agents[a], policy.spec.rules;
    AgentFound(policy.spec.agents, context.agentName, a);
    SilenceFindsNone(policy, context, agent, advancedMode, show);
    forall j | 0 <= j < |rules| ensures !MatchesCondition(rules[j].condition, context, agent.tier) {
      assert !LegacyMatch(policy, context, agent, j);
    }
    LegacyMissing(rules, context, agent.tier);
  }
}
