/** The exact condition under which one clause survives migration. */
module ClauseTheorem {
  import opened Options
  import opened Floats
  import opened Text
  import opened Counting
  import opened Numerals
  import opened PolicyTypes
  import opened Evaluator
  import opened Migrate
  import opened OpaReading
  import D = OpaDialect
  import opened ClauseShapes
  import opened ClauseForms
  import opened ClauseLists

  // ----- Advanced clauses that are true in no context -----

  predicate Equality(operator: string) {
    operator == "==" || operator == "!="
  }

  /** No number stands in this relation to n. */
  predicate NoNumber(operator: string, n: Float) {
    match operator
    case "==" => !n.Finite?
    case "!=" => n.NaN?
    case ">" => n.PosInf? || n.NaN?
    case ">=" => n.NaN?
    case "<" => n.NegInf? || n.NaN?
    case "<=" => n.NaN?
    case _ => true
  }

  predicate NoValue(operator: string, right: string) {
    if ParseF64(TrimValue(right)).Some? then NoNumber(operator, ParseF64(TrimValue(right)).value) else !Equality(operator)
  }

  function TierValue(tier: u32): ExprValue {
    Number(Finite(tier as real))
  }

  const TOP_TIER := Finite(U32_MAX as real)

  /** Some whole number in the range of tiers equals n, as nearly as the source asks. */
  predicate NearTier(n: Float) {
    n.Finite? && (IsNear(n.r.Floor, n) || IsNear(n.r.Floor + 1, n))
  }

  predicate IsNear(tier: int, n: Float) {
    0 <= tier <= U32_MAX && Near(Finite(tier as real), n)
  }

  /** No tier stands in this relation to n. */
  predicate NoTierNumber(operator: string, n: Float) {
    match operator
    case "==" => !NearTier(n)
    case "!=" => n.NaN?
    case ">" => !Less(n, TOP_TIER)
    case ">=" => !AtMost(n, TOP_TIER)
    case "<" => !Less(Finite(0.0), n)
    case "<=" => !AtMost(Finite(0.0), n)
    case _ => true
  }

  /** A tier is a number: it is never a flag, and as text it is only ever unequal to
      what is no numeral. */
  predicate NoTier(operator: string, right: string) {
    var value := TrimValue(right);
    if ParseF64(value).Some? then NoTierNumber(operator, ParseF64(value).value)
    else ParseBool(value).Some? || operator != "!="
  }

  predicate NoTierItem(list: string) {
    forall item :: item in ListItems(list) ==> !CanonicalU32(TrimValue(item))
  }

  predicate DeadMembership(cut: Cut) {
    match OperandOf(cut.left)
    case Unknown => true
    case Tier => NoTierItem(cut.right)
    case _ => false
  }

  predicate DeadComparison(cut: Cut) {
    var value := TrimValue(cut.right);
    match OperandOf(cut.left)
    case Unknown => true
    case Tool => ParseF64(value).Some? || ParseBool(value).Some? || !Equality(cut.operator)
    case Arg(_) => NoValue(cut.operator, cut.right)
    case Tier => NoTier(cut.operator, cut.right)
  }

  /** Read off the clause: its left operand is no operand, or no value of that
      operand satisfies it. */
  predicate DeadClause(clause: string) {
    var membership := CutAt(clause, " in ");
    var comparison := CutComparison(clause);
    if membership.Some? then DeadMembership(membership.value)
    else if comparison.Some? then DeadComparison(comparison.value)
    else true
  }

  ghost predicate NeverMatches(clause: string, show: Show) {
    forall context: PolicyContext, tier: u32 :: !MatchesAdvancedClause(clause, context, tier, show)
  }

  function WithArg(key: string, value: Yaml): PolicyContext {
    PolicyContext("", "", map[key := value], None)
  }

  lemma OperandResolves(name: string, context: PolicyContext, tier: u32)
    ensures ResolveExprValue(name, context, tier) ==
              match OperandOf(name)
              case Tool => Some(ExprValue.Text(context.toolName))
              case Tier => Some(TierValue(tier))
              case Arg(key) => if key in context.args then ArgValue(context.args[key]) else None
              case Unknown => None
  {
  }

  /** A number in relation to n, when there is one. */
  function Witness(operator: string, n: Float): Float {
    match operator
    case "!=" => if n.Finite? then Finite(n.r + 1.0) else Finite(0.0)
    case ">" => if n.Finite? then Finite(n.r + 1.0) else Finite(0.0)
    case "<" => if n.Finite? then Finite(n.r - 1.0) else Finite(0.0)
    case _ => n
  }

  lemma NoNumberExactly(operator: string, n: Float)
    ensures NoNumber(operator, n) ==> forall x: Float :: !CompareNumbers(Number(x), operator, n)
    ensures !NoNumber(operator, n) ==> CompareNumbers(Number(Witness(operator, n)), operator, n)
  {
  }

  function ArgWitness(operator: string, right: string): Yaml {
    var value := TrimValue(right);
    if ParseF64(value).Some? then YNumber(Witness(operator, ParseF64(value).value))
    else if ParseBool(value).Some? then YBool(if operator == "==" then ParseBool(value).value else !ParseBool(value).value)
    else YString(if operator == "==" then value else value + "x")
  }

  predicate Satisfied(cut: Cut, context: PolicyContext, tier: u32, show: Show) {
    var left := ResolveExprValue(cut.left, context, tier);
    left.Some? && CompareValue(left.value, cut.operator, cut.right, show)
  }

  /** Text never stands in a numeric, boolean or ordering comparison. */
  lemma TextCompares(text: string, operator: string, right: string, show: Show)
    ensures CompareValue(ExprValue.Text(text), operator, right, show) ==
              (ParseF64(TrimValue(right)).None? && ParseBool(TrimValue(right)).None? &&
               ((operator == "==" && text == TrimValue(right)) || (operator == "!=" && text != TrimValue(right))))
  {
  }

  lemma NoValueCompares(left: ExprValue, operator: string, right: string, show: Show)
    requires NoValue(operator, right)
    ensures !CompareValue(left, operator, right, show)
  {
    var number := ParseF64(TrimValue(right));
    if number.Some? && left.Number? { NoNumberExactly(operator, number.value); }
  }

  lemma FlagCompares(operator: string, flag: bool)
    requires Equality(operator)
    ensures CompareBools(Bool(if operator == "==" then flag else !flag), operator, flag)
  {
  }

  lemma WitnessCompares(operator: string, right: string, show: Show)
    requires !NoValue(operator, right)
    ensures ArgValue(ArgWitness(operator, right)).Some?
    ensures CompareValue(ArgValue(ArgWitness(operator, right)).value, operator, right, show)
  {
    var value := TrimValue(right);
    if ParseF64(value).Some? {
      NoNumberExactly(operator, ParseF64(value).value);
    } else if ParseBool(value).Some? {
      FlagCompares(operator, ParseBool(value).value);
    } else {
      TextCompares(if operator == "==" then value else value + "x", operator, right, show);
      assert |value + "x"| != |value|;
    }
  }

  // ----- Tiers -----

  lemma NearestTier(tier: u32, n: Float)
    requires Near(Finite(tier as real), n)
    ensures NearTier(n)
  {
    var low := n.r.Floor;
    assert low as real <= n.r < low as real + 1.0;
    assert tier == low || tier == low + 1;
  }

  lemma TierRelation(operator: string, n: Float, tier: u32)
    requires CompareNumbers(TierValue(tier), operator, n)
    ensures !NoTierNumber(operator, n)
  {
    if operator == "==" { NearestTier(tier, n); }
  }

  /** A tier in relation to n, when there is one. */
  function TierWitness(operator: string, n: Float): u32 {
    match operator
    case "==" => if n.Finite? && IsNear(n.r.Floor, n) then n.r.Floor else if n.Finite? && IsNear(n.r.Floor + 1, n) then n.r.Floor + 1 else 0
    case "!=" => if Near(Finite(0.0), n) then 1 else 0
    case ">" => U32_MAX
    case ">=" => U32_MAX
    case _ => 0
  }

  lemma TierWitnessCompares(operator: string, n: Float)
    requires !NoTierNumber(operator, n)
    ensures CompareNumbers(TierValue(TierWitness(operator, n)), operator, n)
  {
  }

  lemma TierIsNumeral(tier: u32)
    ensures ParseF64(Dec(tier)) == Some(Finite(tier as real))
  {
    DecParses(tier);
    U32IsF64(Dec(tier));
  }

  lemma NoTierCompares(tier: u32, operator: string, right: string, show: Show)
    requires ShowsTiers(show) && NoTier(operator, right)
    ensures !CompareValue(TierValue(tier), operator, right, show)
  {
    var value := ParseF64(TrimValue(right));
    if value.Some? {
      if CompareNumbers(TierValue(tier), operator, value.value) { TierRelation(operator, value.value, tier); }
    } else {
      TierIsNumeral(tier);
      assert show(Finite(tier as real)) == Dec(tier);
    }
  }

  lemma SomeTierCompares(operator: string, right: string, show: Show) returns (tier: u32)
    requires ShowsTiers(show) && !NoTier(operator, right)
    ensures CompareValue(TierValue(tier), operator, right, show)
  {
    var value := ParseF64(TrimValue(right));
    if value.Some? {
      tier := TierWitness(operator, value.value);
      TierWitnessCompares(operator, value.value);
    } else {
      tier := 0;
      TierIsNumeral(0);
      assert show(Finite(0 as real)) == Dec(0);
    }
  }

  lemma NoTierListed(tier: u32, list: string, show: Show)
    requires ShowsTiers(show) && NoTierItem(list)
    ensures !IsAnyOf(TierValue(tier), list, show)
  {
    DecIsCanonical(tier);
    assert show(Finite(tier as real)) == Dec(tier);
  }

  lemma SomeTierListed(list: string, show: Show) returns (tier: u32)
    requires ShowsTiers(show) && !NoTierItem(list)
    ensures IsAnyOf(TierValue(tier), list, show)
  {
    var item :| item in ListItems(list) && CanonicalU32(TrimValue(item));
    tier := DigitsValue(TrimValue(item));
    CanonicalIsDec(TrimValue(item));
    assert show(Finite(tier as real)) == Dec(tier);
    assert MatchesTextValue(TierValue(tier), TrimValue(item), show);
  }

  // ----- Clauses -----

  lemma DeadComparisonNever(cut: Cut, context: PolicyContext, tier: u32, show: Show)
    requires ShowsTiers(show) && DeadComparison(cut)
    ensures !Satisfied(cut, context, tier, show)
  {
    OperandResolves(cut.left, context, tier);
    match OperandOf(cut.left)
    case Tool => TextCompares(context.toolName, cut.operator, cut.right, show);
    case Tier => NoTierCompares(tier, cut.operator, cut.right, show);
    case Arg(key) =>
      if key in context.args && ArgValue(context.args[key]).Some? {
        NoValueCompares(ArgValue(context.args[key]).value, cut.operator, cut.right, show);
      }
    case _ =>
  }

  lemma LiveComparisonSometimes(cut: Cut, show: Show) returns (context: PolicyContext, tier: u32)
    requires ShowsTiers(show) && !DeadComparison(cut)
    ensures Satisfied(cut, context, tier, show)
  {
    var value := TrimValue(cut.right);
    context, tier := CallOf(""), 0;
    match OperandOf(cut.left) {
      case Tool =>
        context := CallOf(if cut.operator == "==" then value else value + "x");
        TextCompares(context.toolName, cut.operator, cut.right, show);
      case Arg(key) =>
        context := WithArg(key, ArgWitness(cut.operator, cut.right));
        WitnessCompares(cut.operator, cut.right, show);
      case Tier =>
        tier := SomeTierCompares(cut.operator, cut.right, show);
    }
    OperandResolves(cut.left, context, tier);
  }

  predicate IsMember(cut: Cut, context: PolicyContext, tier: u32, show: Show) {
    var left := ResolveExprValue(cut.left, context, tier);
    left.Some? && IsAnyOf(left.value, cut.right, show)
  }

  lemma LiveMembershipSometimes(cut: Cut, show: Show) returns (context: PolicyContext, tier: u32)
    requires ShowsTiers(show) && !DeadMembership(cut)
    ensures IsMember(cut, context, tier, show)
  {
    var item := ListItems(cut.right)[0];
    assert item in ListItems(cut.right);
    context, tier := CallOf(TrimValue(item)), 0;
    match OperandOf(cut.left) {
      case Tool =>
      case Arg(key) => context := WithArg(key, YString(TrimValue(item)));
      case Tier => tier := SomeTierListed(cut.right, show);
    }
    OperandResolves(cut.left, context, tier);
  }

  lemma DeadMembershipNever(cut: Cut, context: PolicyContext, tier: u32, show: Show)
    requires ShowsTiers(show) && DeadMembership(cut)
    ensures !IsMember(cut, context, tier, show)
  {
    OperandResolves(cut.left, context, tier);
    if OperandOf(cut.left) == Tier { NoTierListed(tier, cut.right, show); }
  }

  lemma DeadClauseNever(clause: string, context: PolicyContext, tier: u32, show: Show)
    requires ShowsTiers(show) && DeadClause(clause)
    ensures !MatchesAdvancedClause(clause, context, tier, show)
  {
    var membership := CutAt(clause, " in ");
    var comparison := CutComparison(clause);
    if membership.Some? { DeadMembershipNever(membership.value, context, tier, show); }
    else if comparison.Some? { DeadComparisonNever(comparison.value, context, tier, show); }
  }

  /** The test on the clause's text is exact: a clause it passes is true in no
      context, and any other clause is true in some context. */
  lemma DeadClauseExactly(clause: string, show: Show)
    requires ShowsTiers(show)
    ensures DeadClause(clause) <==> NeverMatches(clause, show)
  {
    var membership := CutAt(clause, " in ");
    var comparison := CutComparison(clause);
    if DeadClause(clause) {
      forall context: PolicyContext, tier: u32 { DeadClauseNever(clause, context, tier, show); }
    } else if membership.Some? {
      var context, tier := LiveMembershipSometimes(membership.value, show);
      assert MatchesAdvancedClause(clause, context, tier, show);
    } else {
      var context, tier := LiveComparisonSometimes(comparison.value, show);
      assert MatchesAdvancedClause(clause, context, tier, show);
    }
  }

  // ----- One clause -----

  /** The legacy clause is true in no context. */
  predicate LegacyDead(clause: string) {
    && !(TOOL_IS <= clause) && !(TOOL_IN <= clause) && !(TIER_AT_LEAST <= clause)
    && (AMOUNT_OVER <= clause ==> ParseF64(TrimValue(clause[|AMOUNT_OVER|..])).None?)
  }

  /** What a caller can check: the migrated clause means what the legacy clause meant. */
  predicate ClausePreserved(clause: string, engine: Engine) {
    if TOOL_IS <= clause then ToolIsPreserved(clause[|TOOL_IS|..]) && Intact(clause[|TOOL_IS|..], engine)
    else if TOOL_IN <= clause then ToolInPreserved(clause[|TOOL_IN|..]) && Intact(clause[|TOOL_IN|..], engine)
    else if TIER_AT_LEAST <= clause then TierPreserved(clause[|TIER_AT_LEAST|..])
    else LegacyDead(clause) ==> DeadClause(Migrated(clause, engine))
  }

  lemma LegacyDeadNever(clause: string, context: PolicyContext, tier: u32)
    requires LegacyDead(clause)
    ensures !MatchesClause(clause, context, tier)
  {
  }

  lemma TailIsTrimmed(u: string, clause: string)
    requires u <= clause && Bare(clause, Space)
    ensures var w := clause[|u|..]; clause == u + w && (w == "" || !IsSpace(w[|w| - 1]))
  {
  }

  lemma LegacyDeadExactly(clause: string, engine: Engine, show: Show)
    requires ShowsTiers(show) && LegacyDead(clause)
    ensures SameMeaning(clause, engine, show) <==> DeadClause(Migrated(clause, engine))
  {
    forall context: PolicyContext, tier: u32 ensures !MatchesClause(clause, context, tier) {
      LegacyDeadNever(clause, context, tier);
    }
    DeadClauseExactly(Migrated(clause, engine), show);
    assert SameMeaning(clause, engine, show) <==> NeverMatches(Migrated(clause, engine), show);
  }

  /** For every trimmed clause and either engine: it and its migrated form agree
      in every context exactly when ClausePreserved holds. */
  lemma ClausePreservedExactly(clause: string, engine: Engine, show: Show)
    requires ShowsTiers(show) && Bare(clause, Space)
    ensures SameMeaning(clause, engine, show) <==> ClausePreserved(clause, engine)
  {
    if TOOL_IS <= clause {
      ToolIsCase(clause, engine, show);
    } else if TOOL_IN <= clause {
      ToolInCase(clause, engine, show);
    } else if TIER_AT_LEAST <= clause {
      TierCase(clause, engine, show);
    } else if !LegacyDead(clause) {
      AmountCase(clause, engine, show);
    } else {
      LegacyDeadExactly(clause, engine, show);
    }
  }

  lemma ToolIsCase(clause: string, engine: Engine, show: Show)
    requires Bare(clause, Space) && TOOL_IS <= clause
    ensures SameMeaning(clause, engine, show) <==> ClausePreserved(clause, engine)
  {
    TailIsTrimmed(TOOL_IS, clause);
    ToolIsExactly(clause[|TOOL_IS|..], engine, show);
  }

  lemma ToolInCase(clause: string, engine: Engine, show: Show)
    requires Bare(clause, Space) && TOOL_IN <= clause && !(TOOL_IS <= clause)
    ensures SameMeaning(clause, engine, show) <==> ClausePreserved(clause, engine)
  {
    TailIsTrimmed(TOOL_IN, clause);
    ToolInExactly(clause[|TOOL_IN|..], engine, show);
  }

  lemma TierCase(clause: string, engine: Engine, show: Show)
    requires ShowsTiers(show) && Bare(clause, Space) && TIER_AT_LEAST <= clause && !(TOOL_IS <= clause) && !(TOOL_IN <= clause)
    ensures SameMeaning(clause, engine, show) <==> ClausePreserved(clause, engine)
  {
    TailIsTrimmed(TIER_AT_LEAST, clause);
    TierExactly(clause[|TIER_AT_LEAST|..], engine, show);
  }

  lemma AmountCase(clause: string, engine: Engine, show: Show)
    requires Bare(clause, Space) && !LegacyDead(clause)
    requires !(TOOL_IS <= clause) && !(TOOL_IN <= clause) && !(TIER_AT_LEAST <= clause)
    ensures SameMeaning(clause, engine, show) <==> ClausePreserved(clause, engine)
  {
    TailIsTrimmed(AMOUNT_OVER, clause);
    AmountKeepsMeaning(clause[|AMOUNT_OVER|..], engine, show);
  }

  // ----- Two clauses that the OPA dialect alone changes -----

  lemma PlainName(s: string, i: nat)
    requires TrimValue(s) == s && |s| > 5 && i < |s| && s[i] == 'p' && Absent(' ', s)
    ensures !Contains(s, " in ") && ParseF64(s).None? && ParseBool(s).None?
  {
    FindSkip(s, "", " in ");
    assert s + "" == s;
    assert |Lower(s)| == |s|;
    SomeCounted('p', s);
    if ParseF64(s).Some? { NumeralLacks(s, 'p'); }
  }

  lemma TierTextIsPlain()
    ensures Trim(" " + D.INPUT_TIER) == D.INPUT_TIER == TrimValue(" " + D.INPUT_TIER)
    ensures !Contains(D.INPUT_TIER, " in ") && ParseF64(D.INPUT_TIER).None? && ParseBool(D.INPUT_TIER).None?
  {
    TrimValueOfSpaced(D.INPUT_TIER);
    TierTextIsBare();
    PlainName(D.INPUT_TIER, 2);
  }

  lemma TierTextIsBare()
    ensures Trim(D.INPUT_TIER) == D.INPUT_TIER == TrimValue(D.INPUT_TIER)
  {
    StripBare(D.INPUT_TIER, Space);
    StripBare(D.INPUT_TIER, One('"'));
    StripBare(D.INPUT_TIER, One('\''));
  }

  lemma TierTextDoesNotReadBack(l: string, r: string)
    ensures !ReadsBack(l + D.INPUT_TIER + r)
  {
    var s := l + D.INPUT_TIER + r;
    assert s[|l|..] == D.INPUT_TIER + r;
    assert At(s, D.INPUT_TIER, |l|);
    FindMeets(s, D.INPUT_TIER);
  }

  /** The clause keeps its meaning in the plain dialect; the OPA dialect reads it as
      naming a tool called agent_tier. */
  lemma NamedToolIsRenamed(show: Show)
    ensures SameMeaning("action.tool == input.agent.tier", Dsl, show)
    ensures !SameMeaning("action.tool == input.agent.tier", OpaCompat, show)
  {
    assert TOOL_IS + (" " + D.INPUT_TIER) == "action.tool == input.agent.tier";
    TierTextIsPlain();
    TierTextDoesNotReadBack(" ", "");
    assert " " + D.INPUT_TIER + "" == " " + D.INPUT_TIER;
    OnlyRenamed(" " + D.INPUT_TIER, show);
  }

  lemma OnlyRenamed(name: string, show: Show)
    requires ToolIsPreserved(name) && !ReadsBack(name)
    ensures SameMeaning(TOOL_IS + name, Dsl, show) && !SameMeaning(TOOL_IS + name, OpaCompat, show)
  {
    ToolIsExactly(name, Dsl, show);
    ToolIsExactly(name, OpaCompat, show);
  }

  lemma InputTierIsMisspelt()
    ensures Misspelt(D.INPUT_TIER)
    ensures Absent('=', D.INPUT_TIER) && Absent('!', D.INPUT_TIER) && Absent(' ', D.INPUT_TIER)
    ensures Absent('<', D.INPUT_TIER) && Absent('>', D.INPUT_TIER)
  {
    assert D.INPUT_TIER[0] == 'i' && ARGS[0] == 'a';
  }

  lemma InputTierIsQuoted()
    ensures QuoteClause(D.INPUT_TIER + " >= 3") == D.INPUT_TIER + " >= 3"
  {
    InputTierIsMisspelt();
    OperatorLater(D.INPUT_TIER, " >= 3", "=="); MisspeltCut(D.INPUT_TIER, " >= 3", "==", CallOf(""), 0);
    OperatorLater(D.INPUT_TIER, " >= 3", " in "); MisspeltCut(D.INPUT_TIER, " >= 3", " in ", CallOf(""), 0);
  }

  lemma InputTierIsRead()
    ensures Migrated(D.INPUT_TIER + " >= 3", OpaCompat) == TIER_AT_LEAST + " 3"
  {
    InputTierIsQuoted();
    OutsideMarks();
    ReadBackAcross(D.INPUT_TIER, ' ', ">= 3");
    NoPReadsBack(">= 3");
    InputTierBecomesTier();
    TierTexts();
  }

  lemma TierTexts()
    ensures D.INPUT_TIER + [' '] + ">= 3" == D.INPUT_TIER + " >= 3"
    ensures D.TIER + [' '] + ">= 3" == TIER_AT_LEAST + " 3"
  {
  }

  lemma InputTierBecomesTier()
    ensures ReadBack(D.INPUT_TIER) == D.TIER
  {
    ReplaceWhole(D.INPUT_TIER, D.TIER);
    TierHasNoArgs();
  }

  lemma TierHasNoArgs()
    ensures Replace(D.TIER, INPUT_WHOLE_ARGS, WHOLE_ARGS) == D.TIER
  {
    LongKeepsOut(D.TIER, INPUT_WHOLE_ARGS);
    ReplaceAbsent(D.TIER, INPUT_WHOLE_ARGS, WHOLE_ARGS);
  }

  lemma ReplaceWhole(p: string, r: string)
    requires p != ""
    ensures Replace(p, p, r) == r
  {
    assert p[|p|..] == "";
    assert r + "" == r;
  }

  lemma ThreeIsABound(tier: u32)
    ensures ReachesBound(tier, " 3") <==> tier >= 3
  {
    assert Dec(3) == "3";
    DecParses(3);
    U32IsF64("3");
    TrimValueOfSpaced("3");
    StripBare("3", Space); StripBare("3", One('"')); StripBare("3", One('\''));
  }

  lemma DeadTierStaysDead(context: PolicyContext, tier: u32, show: Show)
    ensures !MatchesClause(D.INPUT_TIER + " >= 3", context, tier)
    ensures !MatchesAdvancedClause(D.INPUT_TIER + " >= 3", context, tier, show)
  {
    assert (D.INPUT_TIER + " >= 3")[0] == 'i';
    InputTierIsMisspelt();
    OperatorLater(D.INPUT_TIER, " >= 3", " in ");
    MisspeltNeverMatches(D.INPUT_TIER, " >= 3", context, tier, show);
  }

  lemma ReadTierMatches(context: PolicyContext, tier: u32, show: Show)
    ensures MatchesAdvancedClause(TIER_AT_LEAST + " 3", context, tier, show) <==> tier >= 3
  {
    TierAdvanced(" 3", context, tier, show);
    ThreeIsABound(tier);
  }

  /** A clause that is never true in the legacy language and in the plain dialect,
      and true of the upper tiers in the OPA dialect. */
  lemma DeadTierComesAlive(context: PolicyContext, tier: u32, show: Show)
    ensures !MatchesClause("input.agent.tier >= 3", context, tier)
    ensures !MatchesAdvancedClause(Migrated("input.agent.tier >= 3", Dsl), context, tier, show)
    ensures MatchesAdvancedClause(Migrated("input.agent.tier >= 3", OpaCompat), context, tier, show) <==> tier >= 3
  {
    assert D.INPUT_TIER + " >= 3" == "input.agent.tier >= 3";
    DeadTierStaysDead(context, tier, show);
    InputTierIsQuoted();
    InputTierIsRead();
    ReadTierMatches(context, tier, show);
  }
}
