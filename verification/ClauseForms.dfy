/** The four legacy clause forms, each with the exact condition under which its
    translation means the same in every context. */
module ClauseForms {
  import opened Options
  import opened Floats
  import opened Text
  import opened Counting
  import opened Numerals
  import opened PolicyTypes
  import opened Evaluator
  import opened Migrate
  import opened OpaReading
  import D = OpaDialect
  import opened ClauseShapes

  /** The clause as the advanced evaluator gets to see it. */
  function Migrated(clause: string, engine: Engine): string {
    Reading(QuoteClause(clause), engine)
  }

  /** In every context the clause and its translation agree. */
  ghost predicate SameMeaning(clause: string, engine: Engine, show: Show) {
    forall context: PolicyContext, tier: u32 ::
      MatchesClause(clause, context, tier) == MatchesAdvancedClause(Migrated(clause, engine), context, tier, show)
  }

  /** The engine hands the evaluator the text as it is. */
  predicate Intact(e: string, engine: Engine) {
    engine == OpaCompat ==> ReadsBack(e)
  }

  function CallOf(tool: string): PolicyContext {
    PolicyContext("", tool, map[], None)
  }

  // ----- action.tool == <name> -----

  /** The name must not contain " in " and must not read as a numeral or a flag. */
  predicate ToolIsPreserved(name: string) {
    !Contains(Trim(name), " in ") && ParseF64(TrimValue(name)).None? && ParseBool(TrimValue(name)).None?
  }

  lemma ToolIsQuoted(name: string)
    ensures QuoteClause(TOOL_IS + name) == "action.tool == " + MaybeQuoteLiteral(Trim(name))
  {
    CutAtFirst("action.tool ", "==", name);
    assert "action.tool " + "==" + name == TOOL_IS + name;
    ToolNameTrims();
  }

  lemma ToolIsFind(q: string)
    requires !("in " <= q)
    ensures Find("action.tool == " + q, " in ") ==
              match Find(q, " in ") case None => None case Some(i) => Some(15 + i)
  {
    var rest := " " + q;
    SpacedFind(q);
    FindSkip("==", rest, " in ");
    NoMembershipYet("==" + rest);
    FindSkip("action.tool", " " + ("==" + rest), " in ");
    EqualityText(q);
  }

  lemma SpacedFind(q: string)
    requires !("in " <= q)
    ensures Find(" " + q, " in ") == match Find(q, " in ") case None => None case Some(i) => Some(i + 1)
  {
    var rest := " " + q;
    assert rest[1..] == q;
    assert !(" in " <= rest);
  }

  lemma EqualityText(q: string)
    ensures "action.tool == " + q == "action.tool" + (" " + ("==" + (" " + q)))
  {
  }

  lemma ToolNameTrims()
    ensures Trim("action.tool ") == "action.tool"
  {
    StripUnique("", "action.tool", " ", Space);
    assert "" + "action.tool" + " " == "action.tool ";
  }

  lemma MisspeltToolIs()
    ensures Misspelt(TOOL_IS) && Misspelt(TOOL_IN)
  {
    assert TOOL_IS[7] == 't' && TOOL_IN[7] == 't' && ARGS[7] == 'a';
  }

  lemma ToolIsMembershipIsDead(q: string, context: PolicyContext, tier: u32)
    requires !("in " <= q)
    ensures CutAt("action.tool == " + q, " in ").Some? ==>
              ResolveExprValue(CutAt("action.tool == " + q, " in ").value.left, context, tier).None?
  {
    assert "action.tool == " + q == TOOL_IS + (" " + q);
    ToolIsFind(q);
    MisspeltToolIs();
    MisspeltCut(TOOL_IS, " " + q, " in ", context, tier);
  }

  lemma ToolIsComparison(q: string)
    requires Bare(q, Space)
    ensures CutComparison("action.tool == " + q) == Some(Cut("action.tool", "==", q))
  {
    CutAtFirst("action.tool ", "==", " " + q);
    assert "action.tool " + "==" + (" " + q) == "action.tool == " + q;
    ToolNameTrims();
    TrimValueOfSpaced(q);
    StripBare(q, Space);
  }

  lemma ToolResolves(context: PolicyContext, tier: u32)
    ensures ResolveExprValue("action.tool", context, tier) == Some(ExprValue.Text(context.toolName))
  {
    StripBare("action.tool", Space);
  }

  lemma ToolIsAdvanced(q: string, context: PolicyContext, tier: u32, show: Show)
    requires q != "" && Bare(q, Space) && !("in " <= q)
    ensures MatchesAdvancedClause("action.tool == " + q, context, tier, show)
        <==> !Contains(q, " in ") && CompareValue(ExprValue.Text(context.toolName), "==", q, show)
  {
    ToolIsFind(q);
    ToolIsMembershipIsDead(q, context, tier);
    ToolIsComparison(q);
    ToolResolves(context, tier);
  }

  lemma ToolIsRead(name: string, engine: Engine)
    ensures Migrated(TOOL_IS + name, engine) == "action.tool == " + Reading(MaybeQuoteLiteral(Trim(name)), engine)
  {
    var q := MaybeQuoteLiteral(Trim(name));
    ToolIsQuoted(name);
    OutsideMarks();
    NoPInToolIs();
    ReadBackAfter("action.tool ==", ' ', q);
    SpacedEquality(q); SpacedEquality(ReadBack(q));
  }

  lemma SpacedEquality(x: string)
    ensures "action.tool ==" + [' '] + x == "action.tool == " + x
  {
  }

  lemma NoPInToolIs()
    ensures Absent('p', "action.tool ==")
  {
  }

  /** The literal is read as text, and the text is this. */
  predicate IsPlainly(text: string, r: string) {
    !Contains(r, " in ") && ParseF64(TrimValue(r)).None? && ParseBool(TrimValue(r)).None? && text == TrimValue(r)
  }

  /** What a comparison with a quoted name comes to. */
  lemma ToolIsMeets(name: string, engine: Engine, context: PolicyContext, tier: u32, show: Show)
    ensures MatchesAdvancedClause(Migrated(TOOL_IS + name, engine), context, tier, show)
        <==> IsPlainly(context.toolName, Reading(MaybeQuoteLiteral(Trim(name)), engine))
  {
    var r := Reading(MaybeQuoteLiteral(Trim(name)), engine);
    ToolIsRead(name, engine);
    ReadLiteral(Trim(name), engine);
    ToolIsAdvanced(r, context, tier, show);
  }

  lemma ToolIsLegacy(name: string, context: PolicyContext, tier: u32)
    ensures MatchesClause(TOOL_IS + name, context, tier) <==> TrimValue(name) == context.toolName
  {
    assert (TOOL_IS + name)[|TOOL_IS|..] == name;
  }

  lemma IntactLiteral(name: string, engine: Engine)
    requires Intact(name, engine)
    ensures Reading(MaybeQuoteLiteral(Trim(name)), engine) == MaybeQuoteLiteral(Trim(name))
  {
    SpaceOutside();
    StripReadsBack(name, Space);
    QuotedReadsBack(Trim(name));
    ReadingIsSame(MaybeQuoteLiteral(Trim(name)));
  }

  /** An equality clause keeps its meaning exactly when its name is so written,
      and reads back as it was. */
  lemma ToolIsExactly(name: string, engine: Engine, show: Show)
    ensures SameMeaning(TOOL_IS + name, engine, show) <==> ToolIsPreserved(name) && Intact(name, engine)
  {
    if Intact(name, engine) { ToolIsIntact(name, engine, show); } else { ToolIsRenamed(name, engine, show); }
  }

  lemma ToolIsBoth(name: string, engine: Engine, context: PolicyContext, tier: u32, show: Show)
    requires Intact(name, engine)
    ensures MatchesClause(TOOL_IS + name, context, tier) <==> TrimValue(name) == context.toolName
    ensures MatchesAdvancedClause(Migrated(TOOL_IS + name, engine), context, tier, show)
        <==> ToolIsPreserved(name) && TrimValue(name) == context.toolName
  {
    IntactLiteral(name, engine);
    ToolIsLegacy(name, context, tier);
    ToolIsMeets(name, engine, context, tier, show);
    QuotedIsPlainly(name, context.toolName);
  }

  lemma QuotedIsPlainly(name: string, tool: string)
    ensures IsPlainly(tool, MaybeQuoteLiteral(Trim(name))) <==> ToolIsPreserved(name) && TrimValue(name) == tool
  {
    QuotedValue(Trim(name));
    TrimValueOfTrim(name);
    StripIdempotent(name, Space);
    QuotedContains(Trim(name), " in ");
  }

  lemma ToolIsIntact(name: string, engine: Engine, show: Show)
    requires Intact(name, engine)
    ensures SameMeaning(TOOL_IS + name, engine, show) <==> ToolIsPreserved(name)
  {
    var clause, value := TOOL_IS + name, TrimValue(name);
    forall context: PolicyContext, tier: u32
      ensures MatchesClause(clause, context, tier) <==> value == context.toolName
      ensures MatchesAdvancedClause(Migrated(clause, engine), context, tier, show)
          <==> ToolIsPreserved(name) && value == context.toolName
    {
      ToolIsBoth(name, engine, context, tier, show);
    }
    if SameMeaning(clause, engine, show) {
      assert MatchesClause(clause, CallOf(value), 0);
      assert MatchesAdvancedClause(Migrated(clause, engine), CallOf(value), 0, show);
    }
  }

  lemma ToolIsRenamed(name: string, engine: Engine, show: Show)
    requires !Intact(name, engine)
    ensures !SameMeaning(TOOL_IS + name, engine, show)
  {
    var value := TrimValue(name);
    SpaceOutside();
    StripReadsBack(name, Space);
    RereadNameDiffers(Trim(name));
    TrimValueOfTrim(name);
    ToolIsLegacy(name, CallOf(value), 0);
    ToolIsMeets(name, engine, CallOf(value), 0, show);
    assert MatchesClause(TOOL_IS + name, CallOf(value), 0);
    assert !MatchesAdvancedClause(Migrated(TOOL_IS + name, engine), CallOf(value), 0, show);
  }

  // ----- agent_tier >= <n> -----

  /** A u32 numeral, or an f64 numeral that only the largest tier reaches. */
  predicate TierPreserved(bound: string) {
    var value := TrimValue(bound);
    ParseU32(value).Some? ||
    match ParseF64(value)
    case Some(Finite(r)) => (U32_MAX - 1) as real < r <= U32_MAX as real
    case _ => false
  }

  /** White space, quotes and the characters of numerals. */
  predicate NumeralOrPeel(s: string) {
    forall i :: 0 <= i < |s| ==> NumeralChar(s[i]) || IsPeel(s[i])
  }

  lemma MembershipAt(s: string) returns (i: nat)
    ensures Contains(s, " in ") ==>
              i + 4 <= |s| && s[i] == ' ' && s[i + 1] == 'i' && s[i + 2] == 'n' && s[i + 3] == ' '
  {
    var p := " in ";
    i := Occurrence(s, p);
    assert p[0] == ' ' && p[1] == 'i' && p[2] == 'n' && p[3] == ' ';
  }

  lemma NumeralOperand(s: string)
    requires s == "" || !IsSpace(s[|s| - 1])
    requires ParseF64(TrimValue(s)).Some?
    ensures NumeralOrPeel(s)
    ensures !Contains(s, " in ")
  {
    var l, r := TrimValueParts(s);
    var m := TrimValue(s);
    NumeralChars(m);
    PeeledNumeral(l, m, r);
    var i := MembershipAt(s);
    if Contains(s, " in ") { NoBlankAfterN(l, m, r, i + 2); }
  }

  lemma NoBlankAfterN(l: string, m: string, r: string, n: nat)
    requires AllPeel(l) && NumeralText(m) && forall i :: 0 <= i < |r| ==> r[i] == '"' || r[i] == '\''
    requires n + 1 < |l + m + r| && (l + m + r)[n] == 'n'
    ensures (l + m + r)[n + 1] != ' '
  {
    assert |l| <= n < |l| + |m|;
    if n + 1 < |l| + |m| { assert NumeralChar(m[n + 1 - |l|]); }
  }

  predicate AllPeel(s: string) {
    forall i :: 0 <= i < |s| ==> IsPeel(s[i])
  }

  lemma PeeledNumeral(l: string, m: string, r: string)
    requires AllPeel(l) && AllPeel(r) && NumeralText(m)
    ensures NumeralOrPeel(l + m + r)
  {
  }

  lemma NoSymbol(u: string, s: string, p: string, k: nat)
    requires k < |p| && NumeralOrPeel(s)
    requires !NumeralChar(p[k]) && !IsPeel(p[k]) && Absent(p[k], u)
    ensures !Contains(u + s, p)
  {
    var i := Occurrence(u + s, p);
  }

  lemma TierNameTrims()
    ensures Trim("agent_tier ") == "agent_tier" && Trim("agent_tier") == "agent_tier"
  {
    StripUnique("", "agent_tier", " ", Space);
    assert "" + "agent_tier" + " " == "agent_tier ";
    StripBare("agent_tier", Space);
  }

  lemma MisspeltTier()
    ensures Misspelt("agent_tier >")
  {
    assert "agent_tier >"[1] == 'g' && ARGS[1] == 'c' && "agent.tier"[5] == '.' && "agent_tier >"[5] == '_';
  }

  lemma TierMembership(bound: string)
    ensures FoundFrom(TIER_AT_LEAST + bound, " in ", |TIER_AT_LEAST|)
    ensures Contains(TIER_AT_LEAST + bound, " in ") <==> Contains(bound, " in ")
  {
    FindSkip(">=", bound, " in ");
    NoMembershipYet(">=" + bound);
    FindSkip("agent_tier", " " + (">=" + bound), " in ");
    TierText(bound);
  }

  lemma TierText(bound: string)
    ensures TIER_AT_LEAST + bound == "agent_tier" + (" " + (">=" + bound)) && |TIER_AT_LEAST| == 13
  {
  }

  lemma NoMembershipYet(w: string)
    requires w != "" && w[0] != 'i'
    ensures Find(" " + w, " in ") == match Find(w, " in ") case None => None case Some(i) => Some(i + 1)
  {
    assert (" " + w)[1] == w[0] && (" " + w)[1..] == w;
  }

  lemma TierCut(bound: string)
    ensures CutAt(TIER_AT_LEAST + bound, ">=") == Some(Cut("agent_tier", ">=", Trim(bound)))
    ensures Contains(TIER_AT_LEAST + bound, ">=")
  {
    CutAtFirst("agent_tier ", ">=", bound);
    assert "agent_tier " + ">=" + bound == TIER_AT_LEAST + bound;
    TierNameTrims();
  }

  lemma TierNoEquality(bound: string)
    requires NumeralOrPeel(bound)
    ensures !Contains(TIER_AT_LEAST + bound, "==")
  {
    NoSymbol("", bound, "==", 0);
    assert "" + bound == bound;
    NoSecondEquals(bound);
    TierSkipsEquality(bound);
  }

  lemma TierSkipsEquality(bound: string)
    ensures Contains(TIER_AT_LEAST + bound, "==") <==> Contains("=" + bound, "==")
  {
    FindSkip("agent_tier >", "=" + bound, "==");
    assert TIER_AT_LEAST + bound == "agent_tier >" + ("=" + bound);
  }

  lemma NoSecondEquals(bound: string)
    requires NumeralOrPeel(bound) && !Contains(bound, "==")
    ensures !Contains("=" + bound, "==")
  {
    var w := "=" + bound;
    assert w[1..] == bound;
    if bound != "" { assert w[1] == bound[0]; }
  }

  lemma TierNumeralCut(bound: string)
    requires NumeralOrPeel(bound)
    ensures CutComparison(TIER_AT_LEAST + bound) == Some(Cut("agent_tier", ">=", Trim(bound)))
  {
    TierCut(bound);
    NoSymbol(TIER_AT_LEAST, bound, "!=", 0);
    TierNoEquality(bound);
  }

  /** Before the bound, only membership and the equality operators come first,
      and they leave an unknown operand on the left. */
  lemma TierOtherCuts(bound: string, op: string, context: PolicyContext, tier: u32)
    requires op == " in " || op == "==" || op == "!="
    ensures CutAt(TIER_AT_LEAST + bound, op).Some? ==>
              ResolveExprValue(CutAt(TIER_AT_LEAST + bound, op).value.left, context, tier).None?
    ensures ToolOperand(TIER_AT_LEAST + bound, op).None?
  {
    var u := "agent_tier >";
    assert TIER_AT_LEAST + bound == u + ("=" + bound);
    MisspeltTier();
    if op == " in " { TierMembership(bound); } else { OperatorLater(u, "=" + bound, op); }
    MisspeltCut(u, "=" + bound, op, context, tier);
  }

  lemma TierResolves(context: PolicyContext, tier: u32)
    ensures ResolveExprValue("agent_tier", context, tier) == Some(Number(Finite(tier as real)))
  {
    TierNameTrims();
  }

  /** The translated tier clause: a numeral bound is compared, anything else never matches. */
  lemma TierAdvanced(bound: string, context: PolicyContext, tier: u32, show: Show)
    requires bound == "" || !IsSpace(bound[|bound| - 1])
    ensures MatchesAdvancedClause(TIER_AT_LEAST + bound, context, tier, show)
        <==> ParseF64(TrimValue(bound)).Some? && AtMost(ParseF64(TrimValue(bound)).value, Finite(tier as real))
  {
    TierComparesExactly(bound, tier, show);
    TierAdvancedOther(bound, context, tier, show);
    if ParseF64(TrimValue(bound)).Some? {
      NumeralOperand(bound);
      TierAdvancedNumeral(bound, context, tier, show);
    }
  }

  /** The bound as the right operand of a comparison with a tier. */
  predicate TierReaches(bound: string, tier: u32, show: Show) {
    CompareValue(Number(Finite(tier as real)), ">=", Trim(bound), show)
  }

  lemma TierComparesExactly(bound: string, tier: u32, show: Show)
    ensures TierReaches(bound, tier, show)
        <==> ParseF64(TrimValue(bound)).Some? && AtMost(ParseF64(TrimValue(bound)).value, Finite(tier as real))
  {
    TrimValueOfTrim(bound);
  }

  lemma TierAdvancedNumeral(bound: string, context: PolicyContext, tier: u32, show: Show)
    requires NumeralOrPeel(bound) && !Contains(bound, " in ")
    ensures MatchesAdvancedClause(TIER_AT_LEAST + bound, context, tier, show) <==> TierReaches(bound, tier, show)
  {
    TierNumeralCut(bound);
    TierMembership(bound);
    TierResolves(context, tier);
  }

  /** Whatever cuts the clause first, the match is the comparison or fails. */
  lemma TierAdvancedOther(bound: string, context: PolicyContext, tier: u32, show: Show)
    ensures MatchesAdvancedClause(TIER_AT_LEAST + bound, context, tier, show) ==> TierReaches(bound, tier, show)
  {
    TierOtherCuts(bound, " in ", context, tier);
    TierOtherCuts(bound, "==", context, tier);
    TierOtherCuts(bound, "!=", context, tier);
    TierCut(bound);
    TierResolves(context, tier);
  }

  predicate TierAgrees(value: string, tier: u32) {
    tier >= OrElse(ParseU32(value), U32_MAX)
    <==> ParseF64(value).Some? && AtMost(ParseF64(value).value, Finite(tier as real))
  }

  lemma TierAgreesExactly(bound: string)
    ensures (forall tier: u32 :: TierAgrees(TrimValue(bound), tier)) <==> TierPreserved(bound)
  {
    var value := TrimValue(bound);
    if ParseU32(value).Some? {
      U32IsF64(value);
    } else {
      NoTierNumeralAgrees(value);
    }
  }

  lemma NoTierNumeralAgrees(value: string)
    requires ParseU32(value).None?
    ensures (forall tier: u32 :: TierAgrees(value, tier)) <==>
              match ParseF64(value)
              case Some(Finite(r)) => (U32_MAX - 1) as real < r <= U32_MAX as real
              case _ => false
  {
    forall tier: u32 ensures TierAgrees(value, tier) <==> OnlyTop(ParseF64(value), tier) { }
    OnlyTopExactly(ParseF64(value));
  }

  /** A bound that only the largest tier reaches. */
  predicate OnlyTop(bound: Option<Float>, tier: u32) {
    tier == U32_MAX <==> bound.Some? && AtMost(bound.value, Finite(tier as real))
  }

  lemma OnlyTopExactly(bound: Option<Float>)
    ensures (forall tier: u32 :: OnlyTop(bound, tier)) <==>
              match bound
              case Some(Finite(r)) => (U32_MAX - 1) as real < r <= U32_MAX as real
              case _ => false
  {
    if forall tier: u32 :: OnlyTop(bound, tier) {
      assert OnlyTop(bound, 0) && OnlyTop(bound, U32_MAX - 1) && OnlyTop(bound, U32_MAX);
    }
  }

  lemma TierRead(bound: string, engine: Engine)
    requires bound == "" || !IsSpace(bound[|bound| - 1])
    ensures Migrated(TIER_AT_LEAST + bound, engine) == TIER_AT_LEAST + Reading(bound, engine)
    ensures EndsSolid(Reading(bound, engine))
  {
    TierIsQuoted(bound);
    TierMigrated(bound, engine);
    ReadingEndsSolid(bound, engine);
  }

  predicate EndsSolid(s: string) {
    s == "" || !IsSpace(s[|s| - 1])
  }

  lemma ReadingEndsSolid(e: string, engine: Engine)
    requires EndsSolid(e)
    ensures EndsSolid(Reading(e, engine))
  {
    ReadBackEnds(e);
  }

  lemma TierMigrated(bound: string, engine: Engine)
    requires QuoteClause(TIER_AT_LEAST + bound) == TIER_AT_LEAST + bound
    ensures Migrated(TIER_AT_LEAST + bound, engine) == TIER_AT_LEAST + Reading(bound, engine)
  {
    TierReadsBack(bound);
  }

  lemma TierReadsBack(bound: string)
    ensures ReadBack(TIER_AT_LEAST + bound) == TIER_AT_LEAST + ReadBack(bound)
  {
    OutsideMarks();
    NoPInTierAtLeast();
    ReadBackAfter("agent_tier >", '=', bound);
    TierThen(bound); TierThen(ReadBack(bound));
  }

  lemma TierThen(x: string)
    ensures "agent_tier >" + ['='] + x == TIER_AT_LEAST + x
  {
  }

  lemma NoPInTierAtLeast()
    ensures Absent('p', "agent_tier >")
  {
  }

  lemma TierIsQuoted(bound: string)
    ensures QuoteClause(TIER_AT_LEAST + bound) == TIER_AT_LEAST + bound
  {
    TierOtherCuts(bound, " in ", CallOf(""), 0);
    TierOtherCuts(bound, "==", CallOf(""), 0);
  }

  /** A numeral has no p and no g, so it is neither of the two texts nor what they become. */
  lemma NumeralLacks(s: string, c: char)
    requires ParseF64(TrimValue(s)).Some? && (c == 'p' || c == 'g')
    ensures Count(c, s) == 0
  {
    NumeralIsText(TrimValue(s));
    TextLacks(s, c);
  }

  lemma TextLacks(s: string, c: char)
    requires NumeralText(TrimValue(s)) && (c == 'p' || c == 'g')
    ensures Count(c, s) == 0
  {
    NumeralTextLacks(TrimValue(s), c);
    CountTrimValue(c, s);
  }

  lemma NumeralIsText(t: string)
    requires ParseF64(t).Some?
    ensures NumeralText(t)
  {
    NumeralChars(t);
  }

  lemma NumeralTextLacks(t: string, c: char)
    requires NumeralText(t) && (c == 'p' || c == 'g')
    ensures Count(c, t) == 0
  {
    CountNone(c, t);
  }

  lemma TextsHaveG(s: string)
    requires !ReadsBack(s)
    ensures Count('g', s) > 0
  {
    if Absent('g', s) {
      assert D.INPUT_TIER[7] == 'g' && INPUT_WHOLE_ARGS[15] == 'g';
      var i := Occurrence(s, D.INPUT_TIER);
      var j := Occurrence(s, INPUT_WHOLE_ARGS);
      assert false;
    }
    SomeCounted('g', s);
  }

  /** A bound that does not read back as it was is no numeral, before or after. */
  lemma RereadBoundIsNoNumeral(bound: string)
    requires !ReadsBack(bound)
    ensures ParseF64(TrimValue(bound)).None? && ParseF64(TrimValue(ReadBack(bound))).None?
  {
    TextsHaveG(bound);
    GsReadBack(bound);
    if ParseF64(TrimValue(bound)).Some? { NumeralLacks(bound, 'g'); }
    if ParseF64(TrimValue(ReadBack(bound))).Some? { NumeralLacks(ReadBack(bound), 'g'); }
  }

  lemma TierLegacy(bound: string, context: PolicyContext, tier: u32)
    ensures MatchesClause(TIER_AT_LEAST + bound, context, tier) <==> tier >= OrElse(ParseU32(TrimValue(bound)), U32_MAX)
  {
    var clause := TIER_AT_LEAST + bound;
    assert clause[|TIER_AT_LEAST|..] == bound;
    assert clause[1] == 'g' && TOOL_IS[1] == 'c' && TOOL_IN[1] == 'c' && AMOUNT_OVER[1] == 'c';
  }

  predicate ReachesBound(tier: u32, bound: string) {
    ParseF64(TrimValue(bound)).Some? && AtMost(ParseF64(TrimValue(bound)).value, Finite(tier as real))
  }

  lemma TierMeets(bound: string, engine: Engine, context: PolicyContext, tier: u32, show: Show)
    requires bound == "" || !IsSpace(bound[|bound| - 1])
    ensures MatchesAdvancedClause(Migrated(TIER_AT_LEAST + bound, engine), context, tier, show)
        <==> ReachesBound(tier, Reading(bound, engine))
  {
    TierRead(bound, engine);
    TierAdvanced(Reading(bound, engine), context, tier, show);
  }

  /** A tier clause keeps its meaning exactly when its bound is such a numeral;
      a numeral always reads back as it was. */
  lemma TierExactly(bound: string, engine: Engine, show: Show)
    requires bound == "" || !IsSpace(bound[|bound| - 1])
    ensures SameMeaning(TIER_AT_LEAST + bound, engine, show) <==> TierPreserved(bound)
  {
    if Intact(bound, engine) { TierIntact(bound, engine, show); } else { TierChanged(bound, engine, show); }
  }

  lemma TierIntact(bound: string, engine: Engine, show: Show)
    requires (bound == "" || !IsSpace(bound[|bound| - 1])) && Intact(bound, engine)
    ensures SameMeaning(TIER_AT_LEAST + bound, engine, show) <==> TierPreserved(bound)
  {
    var clause, value := TIER_AT_LEAST + bound, TrimValue(bound);
    ReadingIsSame(bound);
    forall context: PolicyContext, tier: u32
      ensures (MatchesClause(clause, context, tier) == MatchesAdvancedClause(Migrated(clause, engine), context, tier, show))
          <==> TierAgrees(value, tier)
    {
      TierLegacy(bound, context, tier);
      TierMeets(bound, engine, context, tier, show);
    }
    TierAgreesExactly(bound);
    if SameMeaning(clause, engine, show) {
      forall tier: u32 ensures TierAgrees(value, tier) {
        assert MatchesClause(clause, CallOf(""), tier) == MatchesAdvancedClause(Migrated(clause, engine), CallOf(""), tier, show);
      }
    }
  }

  lemma TierChanged(bound: string, engine: Engine, show: Show)
    requires (bound == "" || !IsSpace(bound[|bound| - 1])) && !Intact(bound, engine)
    ensures !SameMeaning(TIER_AT_LEAST + bound, engine, show) && !TierPreserved(bound)
  {
    RereadBoundIsNoNumeral(bound);
    if ParseU32(TrimValue(bound)).Some? { U32IsF64(TrimValue(bound)); }
    TierLegacy(bound, CallOf(""), U32_MAX);
    TierMeets(bound, engine, CallOf(""), U32_MAX, show);
    assert MatchesClause(TIER_AT_LEAST + bound, CallOf(""), U32_MAX);
    assert !MatchesAdvancedClause(Migrated(TIER_AT_LEAST + bound, engine), CallOf(""), U32_MAX, show);
  }

  // ----- action.args.amount > <n> -----

  lemma AmountName()
    ensures Trim("action.args.amount ") == "action.args.amount"
    ensures Trim("action.args.amount") == "action.args.amount"
    ensures ARGS <= "action.args.amount" && "action.args.amount"[|ARGS|..] == "amount"
  {
    StripUnique("", "action.args.amount", " ", Space);
    assert "" + "action.args.amount" + " " == "action.args.amount ";
    StripBare("action.args.amount", Space);
    assert ARGS + "amount" == "action.args.amount";
  }

  lemma AmountMembership(bound: string)
    ensures Contains(AMOUNT_OVER + bound, " in ") <==> Contains(bound, " in ")
  {
    FindSkip(">", bound, " in ");
    var w := ">" + bound;
    assert (" " + w)[1] == '>' && (" " + w)[1..] == w;
    FindSkip("action.args.amount", " " + w, " in ");
    assert AMOUNT_OVER + bound == "action.args.amount" + (" " + w);
  }

  lemma AmountSymbols(bound: string)
    requires NumeralOrPeel(bound)
    ensures var s := AMOUNT_OVER + bound; !Contains(s, "==") && !Contains(s, "!=") && !Contains(s, ">=") && !Contains(s, "<=")
  {
    NoSymbol(AMOUNT_OVER, bound, "==", 0);
    NoSymbol(AMOUNT_OVER, bound, "!=", 0);
    NoSymbol(AMOUNT_OVER, bound, ">=", 1);
    NoSymbol(AMOUNT_OVER, bound, "<=", 0);
  }

  lemma AmountCut(bound: string)
    requires NumeralOrPeel(bound)
    ensures CutComparison(AMOUNT_OVER + bound) == Some(Cut("action.args.amount", ">", Trim(bound)))
    ensures !Contains(AMOUNT_OVER + bound, "==")
  {
    AmountSymbols(bound);
    CutAtFirst("action.args.amount ", ">", bound);
    assert "action.args.amount " + ">" + bound == AMOUNT_OVER + bound;
    AmountName();
  }

  lemma AmountResolves(context: PolicyContext, tier: u32)
    ensures ResolveExprValue("action.args.amount", context, tier) ==
              if "amount" in context.args then ArgValue(context.args["amount"]) else None
  {
    AmountName();
    assert "action.args.amount"[7] == 'a' && "action.tool"[7] == 't';
  }

  lemma AmountLegacy(bound: string, context: PolicyContext, tier: u32)
    ensures MatchesClause(AMOUNT_OVER + bound, context, tier)
        <==> AmountOver(context.args, OrElse(ParseF64(TrimValue(bound)), PosInf))
  {
    var clause := AMOUNT_OVER + bound;
    assert clause[|AMOUNT_OVER|..] == bound;
    assert clause[7] == 'a' && TOOL_IS[7] == 't' && TOOL_IN[7] == 't';
  }

  lemma AmountCompares(bound: string, n: Float, value: Yaml, show: Show)
    requires ParseF64(TrimValue(bound)) == Some(n)
    ensures ArgValue(value).Some? && CompareValue(ArgValue(value).value, ">", Trim(bound), show)
        <==> value.YNumber? && Less(n, value.number)
  {
    TrimValueOfTrim(bound);
  }

  lemma AmountIsQuoted(bound: string)
    requires bound == "" || !IsSpace(bound[|bound| - 1])
    requires ParseF64(TrimValue(bound)).Some?
    ensures QuoteClause(AMOUNT_OVER + bound) == AMOUNT_OVER + bound
  {
    NumeralOperand(bound);
    AmountMembership(bound);
    AmountCut(bound);
  }

  lemma AmountAdvanced(bound: string, context: PolicyContext, tier: u32, show: Show)
    requires bound == "" || !IsSpace(bound[|bound| - 1])
    requires ParseF64(TrimValue(bound)).Some?
    ensures MatchesAdvancedClause(AMOUNT_OVER + bound, context, tier, show)
        <==> AmountOver(context.args, ParseF64(TrimValue(bound)).value)
  {
    NumeralOperand(bound);
    AmountMembership(bound);
    AmountCut(bound);
    AmountResolves(context, tier);
    if "amount" in context.args {
      AmountCompares(bound, ParseF64(TrimValue(bound)).value, context.args["amount"], show);
    }
  }

  lemma NoPInAmountOver()
    ensures Absent('p', "action.args.amount ")
  {
  }

  lemma NumeralReadsBack(bound: string)
    requires ParseF64(TrimValue(bound)).Some?
    ensures ReadsBack(bound)
  {
    if !ReadsBack(bound) { RereadBoundIsNoNumeral(bound); }
  }

  lemma AmountRead(bound: string, engine: Engine)
    requires bound == "" || !IsSpace(bound[|bound| - 1])
    requires ParseF64(TrimValue(bound)).Some?
    ensures Migrated(AMOUNT_OVER + bound, engine) == AMOUNT_OVER + bound
  {
    AmountIsQuoted(bound);
    NumeralReadsBack(bound);
    AmountStays(bound, engine);
  }

  lemma AmountReadsBack(bound: string)
    ensures ReadBack(AMOUNT_OVER + bound) == AMOUNT_OVER + ReadBack(bound)
  {
    OutsideMarks();
    NoPInAmountOver();
    ReadBackAfter("action.args.amount ", '>', bound);
    AmountThen(bound);
    AmountThen(ReadBack(bound));
  }

  lemma AmountThen(x: string)
    ensures "action.args.amount " + ['>'] + x == AMOUNT_OVER + x
  {
  }

  lemma AmountStays(bound: string, engine: Engine)
    requires QuoteClause(AMOUNT_OVER + bound) == AMOUNT_OVER + bound && ReadsBack(bound)
    ensures Migrated(AMOUNT_OVER + bound, engine) == AMOUNT_OVER + bound
  {
    AmountReadsBack(bound);
    ReadingIsSame(bound);
  }

  /** An amount clause with a numeral for threshold is translated to itself and
      keeps its meaning. */
  lemma AmountKeepsMeaning(bound: string, engine: Engine, show: Show)
    requires bound == "" || !IsSpace(bound[|bound| - 1])
    requires ParseF64(TrimValue(bound)).Some?
    ensures SameMeaning(AMOUNT_OVER + bound, engine, show)
  {
    AmountRead(bound, engine);
    forall context: PolicyContext, tier: u32
      ensures MatchesClause(AMOUNT_OVER + bound, context, tier)
           == MatchesAdvancedClause(Migrated(AMOUNT_OVER + bound, engine), context, tier, show)
    {
      AmountLegacy(bound, context, tier);
      AmountAdvanced(bound, context, tier, show);
    }
  }
}
