/** What a clause of either language says, read off its text: policy/src/evaluator.rs. */
module ClauseMeanings {
  import opened Options
  import opened Floats
  import opened Text
  import opened Numerals
  import opened PolicyTypes
  import opened Evaluator
  import opened ClauseShapes

  // ----- Comparisons of the advanced language -----

  predicate IsOperator(op: string) {
    op == "==" || op == "!=" || op == ">=" || op == "<=" || op == ">" || op == "<"
  }

  /** No part of an operator. */
  predicate Plain(text: string) {
    Absent('=', text) && Absent('!', text) && Absent('<', text) && Absent('>', text)
  }

  /** What an operand stands for: the tool, the tier, or an argument that is a
      text, a number or a flag. */
  predicate Denotes(operand: string, context: PolicyContext, tier: u32, v: ExprValue) {
    if operand == "action.tool" || operand == "tool" then v == Text(context.toolName)
    else if operand == "agent_tier" || operand == "agent.tier" then v == Number(Finite(tier as real))
    else
      && "action.args." <= operand && operand[12..] in context.args
      && match context.args[operand[12..]]
         case YString(t) => v == Text(t)
         case YNumber(n) => v == Number(n)
         case YBool(b) => v == Bool(b)
         case _ => false
  }

  /** Numbers are compared to within a billionth where they should be equal. */
  predicate NumbersSay(op: string, x: Float, y: Float) {
    && (op == "==" ==> x.Finite? && y.Finite? && -0.000000001 < x.r - y.r < 0.000000001)
    && (op == "!=" ==> x != NaN && y != NaN && x != y && (x.Finite? && y.Finite? ==> x.r - y.r <= -0.000000001 || 0.000000001 <= x.r - y.r))
    && (op == ">" ==> Less(y, x))
    && (op == "<" ==> Less(x, y))
    && (op == ">=" ==> Less(y, x) || (x == y && x != NaN))
    && (op == "<=" ==> Less(x, y) || (x == y && x != NaN))
  }

  predicate Reads(v: ExprValue, text: string, show: Show) {
    || v == Text(text)
    || (v.Number? && show(v.number) == text)
    || (v == Bool(true) && text == "true")
    || (v == Bool(false) && text == "false")
  }

  /** The word in any mixture of capitals. */
  predicate Spells(text: string, word: string) {
    |text| == |word| && forall i :: 0 <= i < |text| ==> text[i] == word[i] || text[i] as int + 32 == word[i] as int
  }

  /** A numeral asks for a number, a flag for a flag under the two equalities, any
      other text for a value that reads so, or does not. */
  predicate Says(op: string, v: ExprValue, text: string, show: Show) {
    if ParseF64(text).Some? then v.Number? && NumbersSay(op, v.number, ParseF64(text).value)
    else if Spells(text, "true") || Spells(text, "false") then
      v.Bool? && (op == "==" || op == "!=") && (v == Bool(Spells(text, "true")) <==> op == "==")
    else (op == "==" && Reads(v, text, show)) || (op == "!=" && !Reads(v, text, show))
  }

  lemma OperandDenotes(operand: string, context: PolicyContext, tier: u32)
    ensures forall v :: Denotes(Trim(operand), context, tier, v) <==> ResolveExprValue(operand, context, tier) == Some(v)
  {
    assert |"action.args."| == 12;
    assert !("action.args." <= "action.tool") && !("action.args." <= "tool") && !("action.args." <= "agent_tier") && !("action.args." <= "agent.tier");
  }

  lemma ReadsAsText(v: ExprValue, text: string, show: Show)
    ensures MatchesTextValue(v, text, show) <==> Reads(v, text, show)
  {
    assert "true" != "false";
  }

  lemma OperatorsDiffer()
    ensures "==" != "!=" && "==" != ">=" && "==" != "<=" && "==" != ">" && "==" != "<"
    ensures "!=" != ">=" && "!=" != "<=" && "!=" != ">" && "!=" != "<" && ">=" != "<=" && ">" != "<"
    ensures ">=" != ">" && "<=" != "<" && ">=" != "<" && "<=" != ">"
  {
    assert "=="[0] == '=' && "!="[0] == '!' && ">="[0] == '>' && "<="[0] == '<' && ">"[0] == '>' && "<"[0] == '<';
  }

  lemma NumbersCompare(op: string, v: ExprValue, y: Float)
    requires IsOperator(op)
    ensures CompareNumbers(v, op, y) <==> v.Number? && NumbersSay(op, v.number, y)
  {
    OperatorsDiffer();
  }

  lemma BoolsCompare(op: string, v: ExprValue, flag: bool)
    requires IsOperator(op)
    ensures CompareBools(v, op, flag) <==> v.Bool? && (op == "==" || op == "!=") && (v == Bool(flag) <==> op == "==")
  {
    OperatorsDiffer();
  }

  lemma TextsCompare(op: string, v: ExprValue, text: string, show: Show)
    requires IsOperator(op)
    ensures CompareText(v, op, text, show) <==> (op == "==" && Reads(v, text, show)) || (op == "!=" && !Reads(v, text, show))
  {
    OperatorsDiffer();
    ReadsAsText(v, text, show);
  }

  lemma LowerSpells(text: string, word: string)
    requires forall i :: 0 <= i < |word| ==> 'a' <= word[i] <= 'z'
    ensures Lower(text) == word <==> Spells(text, word)
  {
    if Lower(text) == word {
      forall i | 0 <= i < |text| ensures text[i] == word[i] || text[i] as int + 32 == word[i] as int { assert word[i] == LowerChar(text[i]); }
    }
    if Spells(text, word) {
      forall i | 0 <= i < |text| ensures Lower(text)[i] == word[i] { assert 'a' <= word[i] <= 'z'; }
    }
  }

  lemma FlagSpells(text: string)
    ensures ParseBool(text).Some? <==> Spells(text, "true") || Spells(text, "false")
    ensures ParseBool(text).Some? ==> ParseBool(text).value == Spells(text, "true")
  {
    LowerSpells(text, "true");
    LowerSpells(text, "false");
  }

  lemma ComparisonSays(op: string, v: ExprValue, right: string, show: Show)
    requires IsOperator(op)
    ensures CompareValue(v, op, right, show) <==> Says(op, v, TrimValue(right), show)
  {
    var text := TrimValue(right);
    FlagSpells(text);
    if ParseF64(text).Some? {
      NumbersCompare(op, v, ParseF64(text).value);
    } else if ParseBool(text).Some? {
      BoolsCompare(op, v, ParseBool(text).value);
    } else {
      TextsCompare(op, v, text, show);
    }
  }

  // ----- Finding the operator -----

  predicate PlainChar(c: char) {
    c != '=' && c != '!' && c != '<' && c != '>'
  }

  /** The other operators are not in the clause, or are tried after this one. */
  lemma NotEarlier(l: string, op: string, r: string, p: string)
    requires IsOperator(op) && IsOperator(p) && Plain(l) && Plain(r)
    requires p != op && !(|p| == 1 && p[0] == op[0])
    ensures !Contains(l + op + r, p)
  {
    OperatorShape(op);
    OperatorShape(p);
    var text := l + op + r;
    var i := Occurrence(text, p);
    if Contains(text, p) {
      OperatorChar(l, op, r, i);
      assert text[i + 0] == p[0];
      if |p| == 2 {
        assert text[i + 1] == p[1];
        OperatorChar(l, op, r, i + 1);
      }
      assert false;
    }
  }

  lemma OperatorShape(op: string)
    requires IsOperator(op)
    ensures 1 <= |op| <= 2 && !PlainChar(op[0]) && (|op| == 2 ==> op[1] == '=') && (|op| == 1 ==> op[0] != '=')
  {
  }

  lemma OperatorChar(l: string, op: string, r: string, i: nat)
    requires IsOperator(op) && Plain(l) && Plain(r) && i < |l + op + r|
    ensures i < |l| || i >= |l| + |op| ==> PlainChar((l + op + r)[i])
    ensures |l| <= i < |l| + |op| ==> (l + op + r)[i] == op[i - |l|]
  {
  }

  lemma OperatorCuts(l: string, op: string, r: string)
    requires IsOperator(op) && Plain(l) && Plain(r)
    ensures CutComparison(l + op + r) == Some(Cut(Trim(l), op, Trim(r)))
  {
    OperatorsDiffer();
    CutAtFirst(l, op, r);
    if op != "==" { NotEarlier(l, op, r, "=="); }
    if op != "==" && op != "!=" { NotEarlier(l, op, r, "!="); }
    if op == "<=" || op == ">" || op == "<" { NotEarlier(l, op, r, ">="); }
    if op == ">" || op == "<" { NotEarlier(l, op, r, "<="); }
    if op == "<" { NotEarlier(l, op, r, ">"); }
  }

  /** Around an operator, with no membership before it: the clause holds exactly
      when its operand denotes a value of which the comparison says so. */
  lemma ComparisonExactly(l: string, op: string, r: string, context: PolicyContext, tier: u32, show: Show)
    requires IsOperator(op) && Plain(l) && Plain(r) && !Contains(l + op + r, " in ")
    ensures MatchesAdvancedClause(l + op + r, context, tier, show)
        <==> exists v :: Denotes(Trim(l), context, tier, v) && Says(op, v, TrimValue(Trim(r)), show)
  {
    OperatorCuts(l, op, r);
    OperandDenotes(Trim(l), context, tier);
    StripIdempotent(l, Space);
    var value := ResolveExprValue(Trim(l), context, tier);
    if value.Some? { ComparisonSays(op, value.value, Trim(r), show); }
  }

  /** The value reads as an item of the list. */
  predicate Lists(list: string, v: ExprValue, show: Show) {
    exists i: nat :: i < |ListItems(list)| && Reads(v, TrimValue(ListItems(list)[i]), show)
  }

  lemma ListedReads(list: string, v: ExprValue, show: Show)
    ensures IsAnyOf(v, list, show) <==> Lists(list, v, show)
  {
    var items := ListItems(list);
    forall i: nat | i < |items| ensures MatchesTextValue(v, TrimValue(items[i]), show) <==> Reads(v, TrimValue(items[i]), show) {
      ReadsAsText(v, TrimValue(items[i]), show);
    }
    if IsAnyOf(v, list, show) {
      var item :| item in items && MatchesTextValue(v, TrimValue(item), show);
      var i: nat :| i < |items| && items[i] == item;
      assert Reads(v, TrimValue(items[i]), show);
    }
    if Lists(list, v, show) {
      var i: nat :| i < |items| && Reads(v, TrimValue(items[i]), show);
      assert items[i] in items;
    }
  }

  /** A membership clause holds exactly when its operand denotes a listed value. */
  lemma MembershipExactly(l: string, r: string, context: PolicyContext, tier: u32, show: Show)
    requires Find(l + " in " + r, " in ") == Some(|l|)
    ensures MatchesAdvancedClause(l + " in " + r, context, tier, show)
        <==> exists v :: Denotes(Trim(l), context, tier, v) && Lists(Trim(r), v, show)
  {
    MembershipCut(l, r);
    OperandDenotes(Trim(l), context, tier);
    StripIdempotent(l, Space);
    var value := ResolveExprValue(Trim(l), context, tier);
    if value.Some? { ListedReads(Trim(r), value.value, show); }
  }

  lemma MembershipCut(l: string, r: string)
    requires Find(l + " in " + r, " in ") == Some(|l|)
    ensures CutAt(l + " in " + r, " in ") == Some(Cut(Trim(l), " in ", Trim(r)))
  {
    var clause := l + " in " + r;
    assert clause[..|l|] == l && clause[|l| + 4..] == r;
  }

  lemma PlainLacks(text: string, op: string)
    requires IsOperator(op) && Plain(text)
    ensures !Contains(text, op)
  {
    OperatorShape(op);
    var i := Occurrence(text, op);
    assert i < |text| ==> text[i] != op[0];
  }

  /** Outer blanks and brackets, any number of them, are no part of a list. */
  lemma ListIs(l: string, opens: string, inner: string, closes: string, r: string)
    requires Space.All(l) && Space.All(r) && One('[').All(opens) && One(']').All(closes)
    requires Bare(opens + inner + closes, Space)
    requires inner != "" && inner[0] != '[' && inner[|inner| - 1] != ']'
    ensures ListItems(l + (opens + inner + closes) + r) == Split(inner, ",")
  {
    StripUnique(l, opens + inner + closes, r, Space);
    assert opens + inner + closes == opens + (inner + closes);
    StripStartSkips(opens, inner + closes, One('['));
    StripEndSkips(inner, closes, One(']'));
  }

  /** Without membership and operator a clause never holds. */
  lemma PlainClauseNever(text: string, context: PolicyContext, tier: u32, show: Show)
    requires Plain(text) && !Contains(text, " in ")
    ensures !MatchesAdvancedClause(text, context, tier, show)
  {
    PlainLacks(text, "==");
    PlainLacks(text, "!=");
    PlainLacks(text, ">=");
    PlainLacks(text, "<=");
    PlainLacks(text, ">");
    PlainLacks(text, "<");
  }

  // ----- The legacy language -----

  lemma LegacyToolIs(name: string, context: PolicyContext, tier: u32)
    ensures MatchesClause("action.tool ==" + name, context, tier) <==> TrimValue(name) == context.toolName
  {
    assert ("action.tool ==" + name)[14..] == name;
  }

  lemma PrefixesDiffer(rest: string)
    ensures !("action.tool ==" <= "action.tool in" + rest) && !("action.tool ==" <= "action.args.amount >" + rest)
    ensures !("action.tool in" <= "action.args.amount >" + rest) && !("action.tool ==" <= "agent_tier >=" + rest)
    ensures !("action.tool in" <= "agent_tier >=" + rest) && !("action.args.amount >" <= "agent_tier >=" + rest)
  {
    assert ("action.tool in" + rest)[12] == 'i' && "action.tool =="[12] == '=';
    assert ("action.args.amount >" + rest)[7] == 'a' && "action.tool =="[7] == 't' && "action.tool in"[7] == 't';
    assert ("agent_tier >=" + rest)[1] == 'g' && "action.tool =="[1] == 'c' && "action.tool in"[1] == 'c' && "action.args.amount >"[1] == 'c';
  }

  lemma LegacyToolIn(list: string, context: PolicyContext, tier: u32)
    ensures MatchesClause("action.tool in" + list, context, tier)
        <==> exists i: nat :: i < |ListItems(list)| && TrimValue(ListItems(list)[i]) == context.toolName
  {
    PrefixesDiffer(list);
    assert ("action.tool in" + list)[14..] == list;
    var items := ListItems(list);
    if item :| item in items && TrimValue(item) == context.toolName {
      var i: nat :| i < |items| && items[i] == item;
    }
  }

  /** A bound that is no numeral is never exceeded. */
  lemma LegacyAmount(bound: string, context: PolicyContext, tier: u32)
    ensures MatchesClause("action.args.amount >" + bound, context, tier)
        <==> var limit := ParseF64(TrimValue(bound));
             && "amount" in context.args && context.args["amount"].YNumber?
             && Less(if limit.Some? then limit.value else PosInf, context.args["amount"].number)
  {
    PrefixesDiffer(bound);
    assert ("action.args.amount >" + bound)[20..] == bound;
  }

  /** A bound that is no tier is met by the highest tier there is. */
  lemma LegacyTier(bound: string, context: PolicyContext, tier: u32)
    ensures MatchesClause("agent_tier >=" + bound, context, tier)
        <==> var least := ParseU32(TrimValue(bound)); tier >= if least.Some? then least.value else 0xFFFF_FFFF
  {
    PrefixesDiffer(bound);
    assert ("agent_tier >=" + bound)[13..] == bound;
  }

  lemma LegacyOther(clause: string, context: PolicyContext, tier: u32)
    requires !("action.tool ==" <= clause) && !("action.tool in" <= clause)
    requires !("action.args.amount >" <= clause) && !("agent_tier >=" <= clause)
    ensures !MatchesClause(clause, context, tier)
  {
  }
}
