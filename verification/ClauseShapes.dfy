/** How one clause is cut by the translator and by the advanced evaluator. */
module ClauseShapes {
  import opened Options
  import opened Text
  import opened Counting
  import opened Numerals
  import opened PolicyTypes
  import opened Evaluator
  import opened Migrate
  import opened OpaReading

  // ----- Operands -----

  datatype Operand = Tool | Tier | Arg(key: string) | Unknown

  function OperandOf(name: string): Operand {
    var n := Trim(name);
    if n == "action.tool" || n == "tool" then Tool
    else if n == "agent_tier" || n == "agent.tier" then Tier
    else if ARGS <= n then Arg(n[|ARGS|..])
    else Unknown
  }

  /** A name opening with a bare text that is no operand, and is not extended to one. */
  predicate Misspelt(u: string) {
    && u != "" && Bare(u, Space)
    && !(u <= "action.tool") && !(u <= "tool") && !(u <= "agent_tier") && !(u <= "agent.tier")
    && !(u <= ARGS) && !(ARGS <= u)
  }

  lemma MisspeltIsUnknown(u: string, left: string)
    requires Misspelt(u) && u <= left
    ensures OperandOf(Trim(left)) == Unknown && Trim(left) != "action.tool"
  {
    TrimKeepsPrefix(u, left[|u|..]);
    assert left == u + left[|u|..];
    StripIdempotent(left, Space);
    var n := Trim(left);
    PrefixesNest(u, ARGS, n);
  }

  lemma PrefixesNest(a: string, b: string, n: string)
    ensures a <= n && b <= n ==> a <= b || b <= a
  {
  }

  // ----- Cutting at the first occurrence of an operator -----

  lemma CutAtFirst(u: string, op: string, w: string)
    requires op != "" && Absent(op[0], u)
    ensures SplitOnce(u + op + w, op) == Some((u, w))
    ensures CutAt(u + op + w, op) == Some(Cut(Trim(u), op, Trim(w)))
    ensures Contains(u + op + w, op)
  {
    assert u + op + w == u + (op + w);
    FindSkip(u, op + w, op);
    assert (u + op + w)[..|u|] == u && (u + op + w)[|u| + |op|..] == w;
  }

  /** The operator is not found before position n. */
  predicate FoundFrom(s: string, op: string, n: nat)
    requires op != ""
  {
    Find(s, op).Some? ==> Find(s, op).value >= n
  }

  lemma MisspeltCut(u: string, w: string, op: string, context: PolicyContext, tier: u32)
    requires op != "" && Misspelt(u) && FoundFrom(u + w, op, |u|)
    ensures CutAt(u + w, op).Some? ==> ResolveExprValue(CutAt(u + w, op).value.left, context, tier).None?
    ensures ToolOperand(u + w, op).None?
  {
    if Find(u + w, op).Some? {
      FindMeets(u + w, op);
      var left := (u + w)[..Find(u + w, op).value];
      assert left[..|u|] == u;
      MisspeltIsUnknown(u, left);
    }
  }

  lemma OperatorLater(u: string, w: string, op: string)
    requires op != "" && Absent(op[0], u)
    ensures FoundFrom(u + w, op, |u|)
  {
    FindSkip(u, w, op);
  }

  /** A clause that opens with a misspelt operand: nothing in it is ever true. */
  lemma MisspeltNeverMatches(u: string, w: string, context: PolicyContext, tier: u32, show: Show)
    requires Misspelt(u)
    requires FoundFrom(u + w, " in ", |u|)
    requires Absent('=', u) && Absent('!', u) && Absent('<', u) && Absent('>', u)
    ensures !MatchesAdvancedClause(u + w, context, tier, show)
  {
    MisspeltCut(u, w, " in ", context, tier);
    OperatorLater(u, w, "=="); MisspeltCut(u, w, "==", context, tier);
    OperatorLater(u, w, "!="); MisspeltCut(u, w, "!=", context, tier);
    OperatorLater(u, w, ">="); MisspeltCut(u, w, ">=", context, tier);
    OperatorLater(u, w, "<="); MisspeltCut(u, w, "<=", context, tier);
    OperatorLater(u, w, ">"); MisspeltCut(u, w, ">", context, tier);
    OperatorLater(u, w, "<"); MisspeltCut(u, w, "<", context, tier);
  }

  // ----- Quoted literals -----

  lemma QuotedIsBare(value: string)
    ensures var q := MaybeQuoteLiteral(value);
            q != "" && Bare(q, Space) && q[0] != '[' && !("in " <= q)
  {
    StripIdempotent(value, Space);
    var t := Trim(value);
    var q := MaybeQuoteLiteral(value);
    if q == t && !(t != "" && (t[0] == '"' || t[0] == '\'')) {
      if ParseF64(t).Some? {
        NumeralChars(t);
        assert |t| > 2 ==> NumeralChar(t[2]);
        assert NumeralChar(t[0]);
      } else {
        assert LowerChar(t[0]) == Lower(t)[0];
      }
    }
  }

  /** Quoting a literal does not change its value. */
  lemma QuotedValue(value: string)
    ensures TrimValue(MaybeQuoteLiteral(value)) == TrimValue(value)
  {
    StripIdempotent(value, Space);
    var t := Trim(value);
    var q := MaybeQuoteLiteral(value);
    if q != t {
      QuotedIsBare(value);
      StripBare(q, Space);
      StripPad("\"", t, "\"", One('"'));
    }
  }

  lemma QuotedContains(value: string, p: string)
    requires p != "" && Absent('"', p)
    ensures Contains(MaybeQuoteLiteral(value), p) <==> Contains(Trim(value), p)
  {
    var t := Trim(value);
    var q := MaybeQuoteLiteral(value);
    if q != t {
      ContainsAcross("\"" + t, '"', "", p);
      ContainsAcross("", '"', t, p);
      assert "" + ['"'] + t == "\"" + t;
      assert "\"" + t + ['"'] + "" == q;
      FindMeets("", p);
    }
  }

  lemma TrimValueOfTrim(s: string)
    ensures TrimValue(Trim(s)) == TrimValue(s)
  {
    StripIdempotent(s, Space);
  }

  lemma TrimValueOfSpaced(s: string)
    ensures TrimValue(" " + s) == TrimValue(s)
    ensures Trim(" " + s) == Trim(s)
  {
    StripPad(" ", s, "", Space);
    assert " " + s + "" == " " + s;
  }

  // ----- Reading quoted literals back -----

  lemma QuotedReadsBack(value: string)
    ensures ReadsBack(MaybeQuoteLiteral(value)) <==> ReadsBack(value)
  {
    QuotedValue(value);
    TrimValueReadsBack(value);
    TrimValueReadsBack(MaybeQuoteLiteral(value));
  }

  lemma QuotedDots(value: string)
    ensures Dots(MaybeQuoteLiteral(value)) == Dots(value)
  {
    QuotedValue(value);
    CountTrimValue('.', value);
    CountTrimValue('.', MaybeQuoteLiteral(value));
  }

  /** A name that does not read back as it was is another name afterwards. */
  lemma RereadNameDiffers(value: string)
    requires !ReadsBack(value)
    ensures TrimValue(ReadBack(MaybeQuoteLiteral(value))) != TrimValue(value)
  {
    var q := MaybeQuoteLiteral(value);
    QuotedReadsBack(value);
    QuotedDots(value);
    DotsReadBack(q);
    CountTrimValue('.', ReadBack(q));
    CountTrimValue('.', value);
  }

  /** What the evaluator reads of a quoted literal. */
  lemma ReadLiteral(value: string, engine: Engine)
    ensures var r := Reading(MaybeQuoteLiteral(value), engine);
            r != "" && Bare(r, Space) && r[0] != '[' && !("in " <= r)
  {
    var q := MaybeQuoteLiteral(value);
    QuotedIsBare(value);
    ReadBackEnds(q);
    ReadBackIsBare(q);
    NotInReadsBack(q);
  }
}
