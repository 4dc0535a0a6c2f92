/** The text the translator writes, piece by piece: policy/src/bin/policy_migrate.rs.
    Much of it makes no difference to the evaluator, and is promised all the same. */
module MigratedTexts {
  import opened Options
  import opened Text
  import opened Numerals
  import opened NumeralText
  import opened PolicyTypes
  import opened Evaluator
  import opened ClauseShapes
  import opened ClauseMeanings
  import opened Migrate
  import opened MigrationTheorem
  import D = OpaDialect

  // ----- Literals -----

  /** A literal already quoted, a flag or a number is written as it stands, any
      other in double quotes. */
  ghost predicate StandsAsItIs(t: string) {
    || (t != "" && (t[0] == '"' || t[0] == '\''))
    || Spells(t, "true") || Spells(t, "false")
    || IsNumeral(t) || IsWord(t)
  }

  ghost predicate WrittenLiteral(t: string, q: string) {
    q == if StandsAsItIs(t) then t else "\"" + t + "\""
  }

  lemma LiteralWritten(value: string)
    ensures WrittenLiteral(Trim(value), MaybeQuoteLiteral(value))
  {
    FlagSpells(Trim(value));
    NumbersExactly(Trim(value));
  }

  lemma TrimmedLiteralWritten(value: string)
    ensures WrittenLiteral(Trim(value), MaybeQuoteLiteral(Trim(value)))
  {
    StripIdempotent(value, Space);
    LiteralWritten(Trim(value));
  }

  // ----- Clauses -----

  /** The clause is `action.tool`, the operator at its first occurrence, and the operand. */
  predicate NamesTool(clause: string, operator: string, l: string, operand: string)
    requires operator != ""
  {
    clause == l + operator + operand && Find(clause, operator) == Some(|l|) && Trim(l) == "action.tool"
  }

  ghost predicate NamesToolBy(clause: string, operator: string)
    requires operator != ""
  {
    exists l, operand :: NamesTool(clause, operator, l, operand)
  }

  lemma OperandIs(clause: string, operator: string, l: string, operand: string)
    requires operator != "" && NamesTool(clause, operator, l, operand)
    ensures ToolOperand(clause, operator) == Some(operand)
  {
    assert clause[..|l|] == l && clause[|l| + |operator|..] == operand;
  }

  lemma OperandIsNone(clause: string, operator: string)
    requires operator != "" && !NamesToolBy(clause, operator)
    ensures ToolOperand(clause, operator) == None
  {
    if ToolOperand(clause, operator).Some? {
      FindMeets(clause, operator);
      var i := Find(clause, operator).value;
      FoundParts(clause, operator, i);
      assert NamesTool(clause, operator, clause[..i], clause[i + |operator|..]);
    }
  }

  lemma FoundParts(s: string, p: string, i: nat)
    requires At(s, p, i) && i + |p| <= |s|
    ensures s == s[..i] + p + s[i + |p|..]
  {
    assert s == s[..i] + s[i..] && s[i..] == p + s[i..][|p|..];
  }

  /** An equality on the tool gets its operand quoted. */
  lemma EqualityWritten(clause: string, l: string, operand: string)
    requires NamesTool(clause, "==", l, operand)
    ensures exists q :: WrittenLiteral(Trim(operand), q) && QuoteClause(clause) == "action.tool == " + q
  {
    OperandIs(clause, "==", l, operand);
    TrimmedLiteralWritten(operand);
  }

  ghost predicate WrittenItems(items: seq<string>, qs: seq<string>) {
    |qs| == |items| && forall i :: 0 <= i < |items| ==> WrittenLiteral(Trim(items[i]), qs[i])
  }

  lemma ItemsWritten(items: seq<string>)
    ensures WrittenItems(items, QuoteItems(items))
  {
    forall i | 0 <= i < |items| ensures WrittenLiteral(Trim(items[i]), QuoteItems(items)[i]) { TrimmedLiteralWritten(items[i]); }
  }

  /** A membership of the tool gets brackets, and each item quoted, one blank apart. */
  lemma MembershipWritten(clause: string, l: string, operand: string)
    requires !NamesToolBy(clause, "==") && NamesTool(clause, " in ", l, operand)
    ensures exists qs :: WrittenItems(ListItems(operand), qs) && QuoteClause(clause) == "action.tool in [" + Join(qs, ", ") + "]"
  {
    OperandIsNone(clause, "==");
    OperandIs(clause, " in ", l, operand);
    ItemsWritten(ListItems(operand));
  }

  lemma OtherWritten(clause: string)
    requires !NamesToolBy(clause, "==") && !NamesToolBy(clause, " in ")
    ensures QuoteClause(clause) == clause
  {
    OperandIsNone(clause, "==");
    OperandIsNone(clause, " in ");
  }

  // ----- Expressions, rules and policies -----

  /** The pieces are written in order, trimmed and quoted, with ` && ` between them;
      for the OPA dialect, with each name in its `input.` form. */
  lemma ExpressionWritten(condition: string)
    ensures var plain := Join(QuoteAll(Split(Replace(condition, "AND", "&&"), "&&")), " && ");
            && MigratedExpression(condition, Dsl) == plain
            && MigratedExpression(condition, OpaCompat) == D.Render(D.Scan(plain), D.OPA)
  {
    ClauseSplit.OneReplacement(condition);
    D.DialectAsModes(QuotedExpression(Replace(condition, "AND", "&&")));
  }

  lemma PieceWritten(parts: seq<string>, i: nat)
    requires i < |parts|
    ensures |QuoteAll(parts)| == |parts| && QuoteAll(parts)[i] == QuoteClause(Trim(parts[i]))
  {
  }

  /** The policy keeps everything but its runtime and its advanced rules; each rule
      gets one advanced rule, with all it says but its window. */
  lemma PolicyWritten(policy: AgentPolicy, engine: Engine)
    ensures var spec, spec' := policy.spec, MigratePolicy(policy, engine).spec;
            && MigratePolicy(policy, engine).(spec := spec) == policy
            && spec'.agents == spec.agents && spec'.rules == spec.rules && spec'.verification == spec.verification
            && spec'.runtime == RuntimeSpec("v2", Some(engine))
            && |spec'.advancedRules| == |spec.rules|
            && forall i :: 0 <= i < |spec.rules| ==>
                 var rule := spec.rules[i];
                 spec'.advancedRules[i] == AdvancedRuleSpec(rule.id, "migrated: " + rule.description,
                                                            MigratedExpression(rule.condition, engine), rule.action, rule.requireConfirmation)
  {
  }
}
