/** Migration preserves the meaning of whole policies. */
module MigrationTheorem {
  import opened Options
  import opened Text
  import opened Numerals
  import opened PolicyTypes
  import opened TimeText
  import opened TimeTheorem
  import opened Evaluator
  import opened Migrate
  import D = OpaDialect
  import opened OpaReading
  import opened ClauseShapes
  import opened ClauseForms
  import opened ClauseLists
  import opened ClauseTheorem
  import opened ClauseSplit
  import opened ClauseStrays

  // ----- The clauses of the migrated expression -----

  lemma {:induction false} NonEmptyHas(parts: seq<string>, x: string)
    ensures x in NonEmpty(parts) <==> x in parts && x != ""
  {
    if parts != [] {
      NonEmptyHas(parts[1..], x);
      assert parts == [parts[0]] + parts[1..];
    }
  }

  lemma SolidAmpersands()
    ensures Solid("&&")
  {
    SolidByFirst("&&");
  }

  lemma SolidAnd()
    ensures Solid("AND")
  {
    SolidByFirst("AND");
  }

  predicate Clean(s: string) {
    !Contains(s, "&&") && !Contains(s, "AND")
  }

  lemma PiecesAfterSeparator(w: string)
    ensures Pieces(" && " + w) == [" ", " " + Pieces(w)[0]] + Pieces(w)[1..]
  {
    var v := " " + w;
    var u := "&&" + v;
    assert " && " + w == " " + u;
    assert (" " + u)[0] == ' ' && (" " + u)[1..] == u;
    assert u[2..] == v;
    assert v[0] == ' ' && v[1..] == w;
    assert Pieces(v) == ConsHead(' ', Pieces(w));
    assert Pieces(u) == [""] + Pieces(v);
    assert Pieces(" " + u) == ConsHead(' ', Pieces(u));
    assert ConsHead(' ', [""] + Pieces(v)) == [" "] + Pieces(v) by {
      assert [' '] + "" == " ";
    }
  }

  lemma {:induction false} PiecesOfClean(q: string, w: string)
    requires Clean(q)
    ensures Pieces(q + " && " + w) == [q + " ", " " + Pieces(w)[0]] + Pieces(w)[1..]
  {
    var s := q + " && " + w;
    if q == "" {
      assert s == " && " + w && q + " " == " ";
      PiecesAfterSeparator(w);
    } else {
      CleanTail(q);
      PiecesOfClean(q[1..], w);
      CleanSpaced(q, w);
      PiecesStep(s);
      ConsHeadOfPieces(q, Pieces(w));
    }
  }

  lemma CleanSpaced(q: string, w: string)
    requires q != "" && Clean(q)
    ensures var s := q + " && " + w;
            s != "" && !("&&" <= s) && !("AND" <= s) && s[0] == q[0] && s[1..] == q[1..] + " && " + w
  {
    var v := "&& " + w;
    assert q + " " + v == q + " && " + w;
    CleanStart(q, v, "&&"); CleanStart(q, v, "AND");
  }

  lemma PiecesStep(s: string)
    requires s != "" && !("&&" <= s) && !("AND" <= s)
    ensures Pieces(s) == ConsHead(s[0], Pieces(s[1..]))
  {
  }

  lemma ConsHeadOfPieces(q: string, rest: seq<string>)
    requires q != "" && rest != []
    ensures ConsHead(q[0], [q[1..] + " ", " " + rest[0]] + rest[1..]) == [q + " ", " " + rest[0]] + rest[1..]
  {
    assert [q[0]] + (q[1..] + " ") == q + " ";
  }

  lemma CleanTail(q: string)
    requires q != "" && Clean(q)
    ensures Clean(q[1..])
  {
  }

  lemma CleanStart(q: string, w: string, p: string)
    requires p != "" && q != "" && Absent(' ', p) && !Contains(q, p)
    ensures !(p <= q + " " + w)
  {
    var s := q + [' '] + w;
    if p <= s {
      assert s[0..] == s;
      AtAcross(q, ' ', w, p, 0);
      FindMeets(q, p);
    }
  }

  lemma {:induction false} PiecesOfOneClean(q: string)
    requires Clean(q)
    ensures Pieces(q) == [q]
  {
    if q != "" {
      CleanTail(q);
      PiecesOfOneClean(q[1..]);
      FindMeets(q, "&&"); FindMeets(q, "AND");
      assert q[0..] == q;
      assert !At(q, "&&", 0) && !At(q, "AND", 0);
      assert [q[0]] + q[1..] == q;
    }
  }

  /** Joining clean clauses and splitting again gives the clauses. */
  lemma {:induction false} PiecesOfJoin(qs: seq<string>)
    requires qs != [] && forall i :: 0 <= i < |qs| ==> Clean(qs[i])
    ensures TrimAll(Pieces(Join(qs, " && "))) == TrimAll(qs)
  {
    if |qs| == 1 {
      PiecesOfOneClean(qs[0]);
    } else {
      var rest := Join(qs[1..], " && ");
      PiecesOfJoin(qs[1..]);
      PiecesOfClean(qs[0], rest);
      TrimAfterBlank(qs[0]); TrimAfterBlank(Pieces(rest)[0]);
      var a, b := TrimAll(Pieces(qs[0] + " && " + rest)), TrimAll(qs);
      forall i | 0 <= i < |a| ensures i < |b| && a[i] == b[i] {
        if i > 0 { assert TrimAll(Pieces(rest))[i - 1] == TrimAll(qs[1..])[i - 1]; }
      }
      assert |a| == |b|;
    }
  }

  lemma {:induction false} NoAndLeft(c: string)
    ensures !Contains(Replace(c, "AND", "&&"), "AND")
  {
    if c == "" {
    } else if "AND" <= c {
      NoAndLeft(c[3..]);
      FindSkip("&&", Replace(c[3..], "AND", "&&"), "AND");
    } else {
      NoAndLeft(c[1..]);
      var t := Replace(c, "AND", "&&");
      assert t[1..] == Replace(c[1..], "AND", "&&");
      if "AND" <= t { UnreplacedPrefix(c, "AND", "&&", "AND"); }
    }
  }

  lemma CutIsClean(c: string, n: nat)
    requires n < |MigratedCut(c)|
    ensures Clean(MigratedCut(c)[n])
  {
    var t := Replace(c, "AND", "&&");
    NoAndLeft(c);
    SplitPieces(t, "&&", n);
    var i, j :| 0 <= i <= j <= |t| && MigratedCut(c)[n] == t[i..j];
    if Contains(t[i..j], "AND") { ContainsSlice(t, i, j, "AND"); }
  }

  lemma ReadIsClean(piece: string, engine: Engine)
    requires Clean(piece)
    ensures Clean(Migrated(Trim(piece), engine)) && Trim(Migrated(Trim(piece), engine)) == Migrated(Trim(piece), engine)
  {
    QuotedIsClean(piece);
    ReadBackIsClean(QuoteClause(Trim(piece)));
    ReadIsTrimmed(piece, engine);
  }

  lemma QuotedIsClean(piece: string)
    requires Clean(piece)
    ensures Clean(QuoteClause(Trim(piece)))
  {
    SolidAmpersands(); SolidAnd();
    TrimKeepsOut(piece, "&&"); TrimKeepsOut(piece, "AND");
    QuoteKeepsOut(Trim(piece), "&&"); QuoteKeepsOut(Trim(piece), "AND");
  }

  lemma ReadBackIsClean(q: string)
    requires Clean(q)
    ensures Clean(ReadBack(q))
  {
    ReadBackKeepsOut(q, "&&");
    ReadBackKeepsOut(q, "AND");
  }

  lemma ReadIsTrimmed(piece: string, engine: Engine)
    ensures Trim(Migrated(Trim(piece), engine)) == Migrated(Trim(piece), engine)
  {
    var k := Trim(piece);
    StripIdempotent(piece, Space);
    QuotedClauseIsTrimmed(k);
    StripIdempotent(QuoteClause(k), Space);
    ReadBackIsBare(QuoteClause(k));
    StripBare(ReadBack(QuoteClause(k)), Space);
  }

  lemma {:induction false} ReadJoinedAnd(items: seq<string>)
    ensures ReadBack(Join(items, " && ")) == Join(ReadItems(items), " && ")
  {
    if items == [] {
      NoPReadsBack("");
    } else if |items| > 1 {
      var rest := Join(items[1..], " && ");
      ReadJoinedAnd(items[1..]);
      OutsideMarks();
      NoPInJoint();
      assert items[0] + " && " + rest == items[0] + [' '] + ("&&" + [' '] + rest);
      ReadBackAcross(items[0], ' ', "&&" + [' '] + rest);
      ReadBackAfter("&&", ' ', rest);
      assert ReadItems(items)[1..] == ReadItems(items[1..]);
      assert ReadBack(items[0]) + [' '] + ("&&" + [' '] + ReadBack(rest)) == ReadBack(items[0]) + " && " + ReadBack(rest);
    }
  }

  lemma NoPInJoint()
    ensures Absent('p', "&&")
  {
  }

  /** What the evaluator makes of the migrated text. */
  lemma EvaluatedText(c: string, engine: Engine)
    ensures NormalizeExpressionForEngine(MigratedExpression(c, engine), engine) == Join(ReadAll(MigratedCut(c), engine), " && ")
  {
    OneReplacement(c);
    var qs := QuoteAll(MigratedCut(c));
    match engine
    case Dsl =>
      assert ReadAll(MigratedCut(c), Dsl) == qs;
    case OpaCompat =>
      DialectReadsBack(Join(qs, " && "));
      ReadJoinedAnd(qs);
      assert ReadAll(MigratedCut(c), OpaCompat) == ReadItems(qs);
  }

  /** For every condition and either engine: the clauses the evaluator finds are
      the translations of the pieces the translator cut, in order. */
  lemma MigratedClauses(c: string, engine: Engine)
    ensures SplitClauses(NormalizeExpressionForEngine(MigratedExpression(c, engine), engine))
         == NonEmpty(ReadAll(MigratedCut(c), engine))
  {
    EvaluatedText(c, engine);
    var qs := ReadAll(MigratedCut(c), engine);
    forall i | 0 <= i < |qs| ensures Clean(qs[i]) && Trim(qs[i]) == qs[i] {
      CutIsClean(c, i);
      ReadIsClean(MigratedCut(c)[i], engine);
    }
    PiecesOfJoin(qs);
    SplitClausesAre(Join(qs, " && "));
    assert TrimAll(qs) == qs;
  }

  /** They are the translations of the condition's own clauses exactly when every
      `&` before an `AND` stands alone. */
  lemma ClausesKeptExactly(c: string, engine: Engine)
    ensures SplitClauses(NormalizeExpressionForEngine(MigratedExpression(c, engine), engine)) == NonEmpty(ReadAll(Pieces(c), engine))
        <==> StraysAlone(Pieces(c), false)
  {
    MigratedClauses(c, engine);
    CutShowsPieces(c, engine);
  }

  lemma PairPieces()
    ensures Pieces("&AND&AND") == ["&", "&", ""]
  {
    PiecesOfAmpersand("");
    PiecesOfAmpersand("&AND");
    assert "&AND" + "" == "&AND" && "&AND" + "&AND" == "&AND&AND";
    assert ["&"] + Pieces("") == ["&", ""];
    assert ["&"] + ["&", ""] == ["&", "&", ""];
  }

  lemma PiecesOfAmpersand(d: string)
    ensures Pieces("&AND" + d) == ["&"] + Pieces(d)
  {
    var v := "AND" + d;
    assert "&AND" + d == ['&'] + v;
    assert v[3..] == d && "AND" <= v;
    assert v[0] == 'A' && ("&AND" + d)[1] == 'A';
    assert Pieces(v) == [""] + Pieces(d);
    assert ("&AND" + d)[1..] == v;
    assert Pieces("&AND" + d) == ConsHead('&', Pieces(v));
    assert ['&'] + "" == "&";
  }

  lemma PairCut()
    ensures MigratedCut("&AND&AND") == ["", "", "", ""]
  {
    MigratedIsJoined("&AND&AND");
    PairPieces();
    PairCarried();
    assert "" + Join(["&", "&", ""], "&&") == Join(["&", "&", ""], "&&");
  }

  lemma PairCarried()
    ensures Cuts(false, ["&", "&", ""]) == ["", "", "", ""]
  {
    LongKeepsOut("" + "&", "&&"); LongKeepsOut("", "&&");
    CutStray("", ["&", ""]);
    CarryMeets("", [""]);
    CutPlain("", [""]);
    SplitWhole("");
    assert "" + "&" == "&" == "&" + "" && "" + "" == "";
    assert ["&"] + ["&", ""] == ["&", "&", ""] && ["&"] + [""] == ["&", ""] && [""] + [""] == ["", ""];
  }

  lemma PairIsNeverTrue(context: PolicyContext, tier: u32)
    ensures !MatchesCondition("&AND&AND", context, tier)
  {
    PairPieces();
    SplitClausesAre("&AND&AND");
    StripBare("&", Space);
    assert TrimAll(["&", "&", ""])[0] == "&";
    NonEmptyHas(TrimAll(["&", "&", ""]), "&");
    assert !MatchesClause("&", context, tier);
  }

  /** Two strays meet and are gone: no call satisfies the condition, and every
      call satisfies its translation. */
  lemma StrayPairIsLost(engine: Engine, context: PolicyContext, tier: u32, show: Show)
    ensures !MatchesCondition("&AND&AND", context, tier)
    ensures MatchesAdvancedExpression(MigratedExpression("&AND&AND", engine), engine, context, tier, show)
  {
    PairIsNeverTrue(context, tier);
    PairHasNoClauses(engine);
    NothingToMeet(MigratedExpression("&AND&AND", engine), engine, context, tier, show);
  }

  lemma NothingToMeet(expression: string, engine: Engine, context: PolicyContext, tier: u32, show: Show)
    requires SplitClauses(NormalizeExpressionForEngine(expression, engine)) == []
    ensures MatchesAdvancedExpression(expression, engine, context, tier, show)
  {
  }

  lemma PairHasNoClauses(engine: Engine)
    ensures SplitClauses(NormalizeExpressionForEngine(MigratedExpression("&AND&AND", engine), engine)) == []
  {
    PairCut();
    BlankCutHasNoClauses("&AND&AND", engine);
  }

  lemma BlankCutHasNoClauses(c: string, engine: Engine)
    requires forall i :: 0 <= i < |MigratedCut(c)| ==> MigratedCut(c)[i] == ""
    ensures SplitClauses(NormalizeExpressionForEngine(MigratedExpression(c, engine), engine)) == []
  {
    MigratedClauses(c, engine);
    NoneOfBlanks(MigratedCut(c), engine);
  }

  lemma NoneOfBlanks(parts: seq<string>, engine: Engine)
    requires forall i :: 0 <= i < |parts| ==> parts[i] == ""
    ensures NonEmpty(ReadAll(parts, engine)) == []
  {
    StripBare("", Space);
    ShownExactly("", engine);
    NoneShown(ReadAll(parts, engine));
  }

  lemma {:induction false} NoneShown(parts: seq<string>)
    requires forall i :: 0 <= i < |parts| ==> parts[i] == ""
    ensures NonEmpty(parts) == []
  {
    if parts != [] { NoneShown(parts[1..]); }
  }

  // ----- Whether the OPA form reads back as the plain form -----

  lemma {:induction false} PrefixStays(s: string, q: string, r: string, p: string)
    requires q != "" && p <= s && Absent(q[0], p)
    ensures p <= Replace(s, q, r)
  {
    if p != "" {
      assert s[0] == p[0] && s[1..][..|p| - 1] == p[1..];
      PrefixStays(s[1..], q, r, p[1..]);
      assert Replace(s, q, r)[1..] == Replace(s[1..], q, r);
      assert p == [p[0]] + p[1..];
    }
  }

  /** Replacing one text by another leaves alone what shares no character with either. */
  lemma {:induction false} ReplaceNeutral(s: string, q: string, r: string, p: string)
    requires p != "" && q != "" && r != ""
    requires Absent(p[0], q) && Absent(p[0], r) && Absent(q[0], p) && Absent(r[0], p)
    ensures Contains(Replace(s, q, r), p) <==> Contains(s, p)
  {
    if s == "" {
    } else if q <= s {
      ReplaceNeutral(s[|q|..], q, r, p);
      assert s == q + s[|q|..];
      FindSkip(q, s[|q|..], p);
      FindSkip(r, Replace(s[|q|..], q, r), p);
    } else {
      ReplaceNeutral(s[1..], q, r, p);
      var t := Replace(s, q, r);
      assert t[1..] == Replace(s[1..], q, r);
      if p <= s { PrefixStays(s, q, r, p); }
      if p <= t { UnreplacedPrefix(s, q, r, p); }
    }
  }

  lemma RespelledReadsBack(c: string)
    ensures ReadsBack(Replace(c, "AND", "&&")) <==> ReadsBack(c)
  {
    ReplaceNeutral(c, "AND", "&&", D.INPUT_TIER);
    ReplaceNeutral(c, "AND", "&&", INPUT_WHOLE_ARGS);
  }

  lemma AcrossReadsBack(u: string, c: char, v: string)
    requires Outside(c)
    ensures ReadsBack(u + [c] + v) <==> ReadsBack(u) && ReadsBack(v)
  {
    ContainsAcross(u, c, v, D.INPUT_TIER);
    ContainsAcross(u, c, v, INPUT_WHOLE_ARGS);
  }

  predicate AllReadBack(parts: seq<string>) {
    forall i :: 0 <= i < |parts| ==> ReadsBack(parts[i])
  }

  lemma AllReadBackFirst(p: string, rest: seq<string>)
    ensures AllReadBack([p] + rest) <==> ReadsBack(p) && AllReadBack(rest)
  {
    if AllReadBack([p] + rest) {
      assert ([p] + rest)[0] == p;
      forall i | 0 <= i < |rest| ensures ReadsBack(rest[i]) { assert ([p] + rest)[i + 1] == rest[i]; }
    }
  }

  lemma {:induction false} JoinedAmpersandsReadBack(parts: seq<string>)
    requires parts != []
    ensures ReadsBack(Join(parts, "&&")) <==> AllReadBack(parts)
  {
    OutsideMarks();
    if |parts| > 1 {
      var p, rest := parts[0], parts[1..];
      JoinedAmpersandsReadBack(rest);
      var j := Join(rest, "&&");
      assert p + "&&" + j == p + ['&'] + ("" + ['&'] + j);
      AcrossReadsBack(p, '&', "" + ['&'] + j);
      AcrossReadsBack("", '&', j);
      NoPReadsBack("");
      AllReadBackFirst(p, rest);
      assert parts == [p] + rest;
    } else {
      assert parts == [parts[0]];
    }
  }

  lemma {:induction false} JoinedReadsBack(parts: seq<string>, mark: char)
    requires parts != [] && Outside(mark)
    ensures ReadsBack(Join(parts, [mark] + " ")) <==> AllReadBack(parts)
  {
    OutsideMarks();
    if |parts| > 1 {
      var p, rest := parts[0], parts[1..];
      JoinedReadsBack(rest, mark);
      var j := Join(rest, [mark] + " ");
      assert p + ([mark] + " ") + j == p + [mark] + ("" + [' '] + j);
      AcrossReadsBack(p, mark, "" + [' '] + j);
      AcrossReadsBack("", ' ', j);
      NoPReadsBack("");
      AllReadBackFirst(p, rest);
      assert parts == [p] + rest;
    } else {
      assert parts == [parts[0]];
    }
  }

  lemma {:induction false} JoinedAndReadsBack(parts: seq<string>)
    requires parts != []
    ensures ReadsBack(Join(parts, " && ")) <==> AllReadBack(parts)
  {
    OutsideMarks();
    NoPInJoint();
    if |parts| > 1 {
      var p, rest := parts[0], parts[1..];
      JoinedAndReadsBack(rest);
      var j := Join(rest, " && ");
      assert p + " && " + j == p + [' '] + ("&&" + [' '] + j);
      AcrossReadsBack(p, ' ', "&&" + [' '] + j);
      AcrossReadsBack("&&", ' ', j);
      NoPReadsBack("&&");
      AllReadBackFirst(p, rest);
      assert parts == [p] + rest;
    } else {
      assert parts == [parts[0]];
    }
  }

  lemma OperandReadsBack(clause: string, operator: string)
    requires operator == "==" || operator == " in "
    requires ToolOperand(clause, operator).Some?
    ensures ReadsBack(ToolOperand(clause, operator).value) <==> ReadsBack(clause)
  {
    FindMeets(clause, operator);
    var i := Find(clause, operator).value;
    var left, right := clause[..i], clause[i + |operator|..];
    assert clause[i..][..|operator|] == operator;
    assert clause == left + operator + right;
    ToolNameReadsBack(left);
    OperatorReadsBack(left, operator, right);
  }

  lemma ToolNameReadsBack(left: string)
    requires Trim(left) == "action.tool"
    ensures ReadsBack(left)
  {
    SpaceOutside();
    StripReadsBack(left, Space);
    NoPInTool();
    NoPReadsBack(Trim(left));
  }

  lemma OperatorReadsBack(left: string, operator: string, right: string)
    requires operator == "==" || operator == " in "
    ensures ReadsBack(left + operator + right) <==> ReadsBack(left) && ReadsBack(right)
  {
    OutsideMarks();
    if operator == "==" {
      assert left + "==" + right == left + ['='] + ("" + ['='] + right);
      AcrossReadsBack(left, '=', "" + ['='] + right);
      AcrossReadsBack("", '=', right);
      NoPReadsBack("");
    } else {
      assert left + " in " + right == left + [' '] + ("in" + [' '] + right);
      AcrossReadsBack(left, ' ', "in" + [' '] + right);
      AcrossReadsBack("in", ' ', right);
      NoPReadsBack("in");
    }
  }

  lemma ItemsReadBack(list: string)
    ensures AllReadBack(QuoteItems(ListItems(list))) <==> ReadsBack(list)
  {
    var items, q := ListItems(list), QuoteItems(ListItems(list));
    SpaceOutside();
    forall i | 0 <= i < |q| ensures ReadsBack(q[i]) <==> ReadsBack(items[i]) {
      StripReadsBack(items[i], Space);
      QuotedReadsBack(Trim(items[i]));
    }
    if ReadsBack(list) {
      forall i | 0 <= i < |items| { ItemReadsBack(list, i); }
    } else {
      ListHasRenamed(list);
    }
  }

  lemma MemberReadsBack(body: string)
    ensures ReadsBack("action.tool in [" + body + "]") <==> ReadsBack(body)
  {
    OutsideMarks();
    NoPInToolIn();
    assert "action.tool in [" + body + "]" == (TOOL_IN + " ") + ['['] + (body + [']'] + "");
    AcrossReadsBack(TOOL_IN + " ", '[', body + [']'] + "");
    AcrossReadsBack(body, ']', "");
    NoPReadsBack(TOOL_IN + " "); NoPReadsBack("");
  }

  lemma EqualityReadsBack(body: string)
    ensures ReadsBack("action.tool == " + body) <==> ReadsBack(body)
  {
    OutsideMarks();
    NoPInToolIs();
    assert "action.tool == " + body == "action.tool ==" + [' '] + body;
    AcrossReadsBack("action.tool ==", ' ', body);
    NoPReadsBack("action.tool ==");
  }

  lemma ClauseReadsBack(clause: string)
    ensures ReadsBack(QuoteClause(clause)) <==> ReadsBack(clause)
  {
    var equal, member := ToolOperand(clause, "=="), ToolOperand(clause, " in ");
    SpaceOutside();
    if equal.Some? {
      OperandReadsBack(clause, "==");
      StripReadsBack(equal.value, Space);
      QuotedReadsBack(Trim(equal.value));
      EqualityReadsBack(MaybeQuoteLiteral(Trim(equal.value)));
    } else if member.Some? {
      OperandReadsBack(clause, " in ");
      ItemsReadBack(member.value);
      OutsideMarks();
      assert [','] + " " == ", ";
      JoinedReadsBack(QuoteItems(ListItems(member.value)), ',');
      MemberReadsBack(Join(QuoteItems(ListItems(member.value)), ", "));
    }
  }

  lemma MigratedReadsBack(c: string)
    ensures ReadsBack(MigratedExpression(c, Dsl)) <==> ReadsBack(c)
  {
    var parts, qs := MigratedCut(c), QuoteAll(MigratedCut(c));
    OneReplacement(c);
    SpaceOutside();
    forall i | 0 <= i < |qs| ensures ReadsBack(qs[i]) <==> ReadsBack(parts[i]) {
      StripReadsBack(parts[i], Space);
      ClauseReadsBack(Trim(parts[i]));
    }
    JoinedAndReadsBack(qs);
    JoinSplit(Replace(c, "AND", "&&"), "&&", "&&");
    ReplaceSame(Replace(c, "AND", "&&"), "&&");
    JoinedAmpersandsReadBack(parts);
    RespelledReadsBack(c);
  }

  /** For every condition: the evaluator reads its OPA form back to the plain form
      exactly when the condition holds neither of the two texts. */
  lemma OpaReadsBack(c: string)
    ensures NormalizeExpressionForEngine(MigratedExpression(c, OpaCompat), OpaCompat) == MigratedExpression(c, Dsl)
        <==> !Contains(c, "input.agent.tier") && !Contains(c, "input.action.args")
  {
    MigratedReadsBack(c);
    D.OpaRoundTripExactly(MigratedExpression(c, Dsl));
  }

  // ----- The stray ampersand -----

  /** After a single `&` before `AND`, one piece has lost that `&`. */
  lemma {:induction false} StrayAmpersand(c: string) returns (n: nat)
    requires !SplitSafe(c)
    ensures n < |MigratedCut(c)| && n < |Pieces(c)| && MigratedCut(c)[n] + "&" == Pieces(c)[n]
  {
    var t := Replace(c, "AND", "&&");
    if "&&" <= c {
      assert c == "&&" + c[2..];
      ReplaceSkip("&&", c[2..], "AND", "&&");
      assert t[2..] == Replace(c[2..], "AND", "&&");
      n := StrayAmpersand(c[2..]);
      n := n + 1;
    } else if "AND" <= c {
      assert t[2..] == Replace(c[3..], "AND", "&&");
      n := StrayAmpersand(c[3..]);
      n := n + 1;
    } else if c[0] == '&' && "AND" <= c[1..] {
      n := 0;
      StrayHere(c);
    } else {
      n := StrayAmpersand(c[1..]);
      StrayLater(c, n);
    }
  }

  lemma StrayLater(c: string, n: nat)
    requires c != "" && !("&&" <= c) && !("AND" <= c) && !(c[0] == '&' && "AND" <= c[1..])
    requires n < |MigratedCut(c[1..])| && n < |Pieces(c[1..])| && MigratedCut(c[1..])[n] + "&" == Pieces(c[1..])[n]
    ensures n < |MigratedCut(c)| && n < |Pieces(c)| && MigratedCut(c)[n] + "&" == Pieces(c)[n]
  {
    CutLater(c);
    HeadStrays(c[0], MigratedCut(c[1..]), Pieces(c[1..]), n);
  }

  lemma CutLater(c: string)
    requires c != "" && !("&&" <= c) && !("AND" <= c) && !(c[0] == '&' && "AND" <= c[1..])
    ensures MigratedCut(c) == ConsHead(c[0], MigratedCut(c[1..])) && Pieces(c) == ConsHead(c[0], Pieces(c[1..]))
  {
    var t, u := Replace(c, "AND", "&&"), Replace(c[1..], "AND", "&&");
    assert t == [c[0]] + u;
    if c[0] == '&' && c[1..] != "" {
      assert c == [c[0]] + c[1..];
      assert c[1..][0] != '&' && u[0] == c[1..][0];
    }
    assert t[1..] == u;
    assert !("&&" <= t);
  }

  lemma HeadStrays(c: char, cut: seq<string>, pieces: seq<string>, n: nat)
    requires n < |cut| && n < |pieces| && cut[n] + "&" == pieces[n]
    ensures ConsHead(c, cut)[n] + "&" == ConsHead(c, pieces)[n]
  {
    assert [c] + cut[0] + "&" == [c] + (cut[0] + "&");
  }

  lemma StrayHere(c: string)
    requires c != "" && c[0] == '&' && "AND" <= c[1..]
    ensures MigratedCut(c)[0] == "" && Pieces(c)[0] == "&"
  {
    var t := Replace(c, "AND", "&&");
    assert c[1..][0] == 'A';
    var u := Replace(c[1..], "AND", "&&");
    assert u == "&&" + Replace(c[1..][3..], "AND", "&&");
    assert t == ['&'] + u;
    assert u[0] == '&' && t[1] == u[0];
    assert "&&" <= t;
    assert Pieces(c[1..])[0] == "";
    assert ['&'] + "" == "&";
  }

  lemma TrimLosesAmpersand(u: string)
    ensures Trim(u + "&") != Trim(u)
  {
    var i := StripStartCut(u, Space);
    if i < |u| {
      assert u + "&" == u[..i] + (u[i..] + "&");
      StripStartSkips(u[..i], u[i..] + "&", Space);
      assert StripStart(u[i..] + "&", Space) == u[i..] + "&";
      var j := StripEndCut(u[i..], Space);
    } else {
      assert u[..i] == u;
      StripStartSkips(u, "&", Space);
      StripStartSkips(u, "", Space);
      assert u + "" == u;
    }
  }

  /** Blank pieces counted, the migrated text is cut into the condition's own pieces
      exactly when no single `&` stands before an `AND`. */
  lemma SplitSafeExactly(c: string)
    ensures TrimAll(MigratedCut(c)) == TrimAll(Split(Replace(c, "&&", " AND "), "AND")) <==> SplitSafe(c)
  {
    LegacyPieces(c);
    assert TrimAll(Split(Spread(c), "AND")) == TrimAll(Pieces(c));
    if SplitSafe(c) {
      MigratedPieces(c);
    } else {
      var n := StrayAmpersand(c);
      TrimLosesAmpersand(MigratedCut(c)[n]);
      assert TrimAll(MigratedCut(c))[n] != TrimAll(Pieces(c))[n];
    }
  }

  // ----- One condition -----

  /** What a caller can check of a condition before migrating it. */
  predicate ConditionPreserved(c: string, engine: Engine) {
    StraysAlone(Pieces(c), false) && forall clause :: clause in SplitClauses(c) ==> ClausePreserved(clause, engine)
  }

  lemma ClauseOfPiece(c: string, i: nat)
    requires i < |Pieces(c)|
    ensures Bare(Trim(Pieces(c)[i]), Space)
    ensures Trim(Pieces(c)[i]) != "" ==> Trim(Pieces(c)[i]) in SplitClauses(c)
  {
    SplitClausesAre(c);
    StripIdempotent(Pieces(c)[i], Space);
    var k := Trim(Pieces(c)[i]);
    assert TrimAll(Pieces(c))[i] == k;
    NonEmptyHas(TrimAll(Pieces(c)), k);
  }

  lemma ConditionKeepsMeaning(c: string, engine: Engine, context: PolicyContext, tier: u32, show: Show)
    requires ShowsTiers(show) && ConditionPreserved(c, engine)
    ensures MatchesAdvancedExpression(MigratedExpression(c, engine), engine, context, tier, show)
        <==> MatchesCondition(c, context, tier)
  {
    ClausesKeptExactly(c, engine);
    SplitClausesAre(c);
    var ks, qs := TrimAll(Pieces(c)), ReadAll(Pieces(c), engine);
    forall i | 0 <= i < |ks|
      ensures qs[i] == "" <==> ks[i] == ""
      ensures ks[i] != "" ==> (MatchesClause(ks[i], context, tier) <==> MatchesAdvancedClause(qs[i], context, tier, show))
    {
      ClauseOfPiece(c, i);
      ShownExactly(ks[i], engine);
      if ks[i] != "" { ClausePreservedExactly(ks[i], engine, show); }
    }
    forall x ensures x in NonEmpty(qs) <==> x in qs && x != "" { NonEmptyHas(qs, x); }
    forall x ensures x in NonEmpty(ks) <==> x in ks && x != "" { NonEmptyHas(ks, x); }
    AllMatch(ks, qs, context, tier, show);
  }

  lemma AllMatch(ks: seq<string>, qs: seq<string>, context: PolicyContext, tier: u32, show: Show)
    requires |ks| == |qs|
    requires forall i :: 0 <= i < |ks| ==> (qs[i] == "" <==> ks[i] == "")
    requires forall i :: 0 <= i < |ks| ==> ks[i] != "" ==>
      (MatchesClause(ks[i], context, tier) <==> MatchesAdvancedClause(qs[i], context, tier, show))
    ensures (forall k :: k in ks && k != "" ==> MatchesClause(k, context, tier))
       <==> (forall q :: q in qs && q != "" ==> MatchesAdvancedClause(q, context, tier, show))
  {
    if forall k :: k in ks && k != "" ==> MatchesClause(k, context, tier) {
      forall q | q in qs && q != "" ensures MatchesAdvancedClause(q, context, tier, show) {
        var i :| 0 <= i < |qs| && qs[i] == q;
        assert ks[i] in ks;
      }
    }
    if forall q :: q in qs && q != "" ==> MatchesAdvancedClause(q, context, tier, show) {
      forall k | k in ks && k != "" ensures MatchesClause(k, context, tier) {
        var i :| 0 <= i < |ks| && ks[i] == k;
        assert qs[i] in qs;
      }
    }
  }

  // ----- Whole policies -----

  /** Dropping the rule's time window changes nothing: WindowMattersExactly. */
  predicate WindowHarmless(rule: RuleSpec) {
    rule.timeWindow.None? || OrElse(rule.outsideWindowAction, Block) == rule.action || !Excludes(rule.timeWindow.value)
  }

  predicate RulePreserved(rule: RuleSpec, engine: Engine) {
    WindowHarmless(rule) && ConditionPreserved(rule.condition, engine)
  }

  /** The first migrated rule to match is the migration of the first rule to match. */
  predicate SameFirst(rules: seq<RuleSpec>, engine: Engine, context: PolicyContext, tier: u32, show: Show) {
    FirstAdvanced(MigrateRules(rules, engine), engine, context, tier, show) ==
      match FirstLegacy(rules, context, tier)
      case None => None
      case Some(rule) => Some(MigrateRule(rule, engine))
  }

  lemma {:induction false} SameFirstRule(rules: seq<RuleSpec>, engine: Engine, context: PolicyContext, tier: u32, show: Show)
    requires ShowsTiers(show) && forall rule :: rule in rules ==> ConditionPreserved(rule.condition, engine)
    ensures SameFirst(rules, engine, context, tier, show)
    decreases |rules|
  {
    if rules != [] {
      ConditionKeepsMeaning(rules[0].condition, engine, context, tier, show);
      SameFirstRule(rules[1..], engine, context, tier, show);
      SameFirstOn(rules, engine, context, tier, show);
    }
  }

  lemma SameFirstOn(rules: seq<RuleSpec>, engine: Engine, context: PolicyContext, tier: u32, show: Show)
    requires rules != [] && SameFirst(rules[1..], engine, context, tier, show)
    requires MatchesAdvancedExpression(MigratedExpression(rules[0].condition, engine), engine, context, tier, show)
         <==> MatchesCondition(rules[0].condition, context, tier)
    ensures SameFirst(rules, engine, context, tier, show)
  {
    var migrated := MigrateRules(rules, engine);
    assert migrated[0] == MigrateRule(rules[0], engine);
    assert migrated[1..] == MigrateRules(rules[1..], engine);
  }

  lemma {:induction false} FirstLegacyIsRule(rules: seq<RuleSpec>, context: PolicyContext, tier: u32)
    ensures FirstLegacy(rules, context, tier).Some? ==>
              FirstLegacy(rules, context, tier).value in rules && MatchesCondition(FirstLegacy(rules, context, tier).value.condition, context, tier)
    decreases |rules|
  {
    if rules != [] { FirstLegacyIsRule(rules[1..], context, tier); }
  }

  lemma SameOutcome(policy: AgentPolicy, engine: Engine, agent: AgentSpec, context: PolicyContext, rule: Option<RuleSpec>)
    requires rule.Some? ==> WindowHarmless(rule.value)
    ensures rule.Some? ==>
              (Outcome(MigratePolicy(policy, engine), agent, context, Some(MigrateRule(rule.value, engine)), rule)
               == Outcome(policy, agent, context, None, rule))
    ensures Outcome(MigratePolicy(policy, engine), agent, context, None, rule)
         == Outcome(policy, agent, context, None, rule)
  {
    if rule.Some? {
      WindowMattersExactly(rule.value);
      assert EvaluateTimeWindow(rule.value, context.nowUtc) == rule.value.action;
    }
  }

  /** For every policy whose rules pass the check, every context and either
      engine: the migrated policy in advanced mode gives the result, error or
      evaluation, that the original gave in legacy mode. */
  lemma MigrationPreservesMeaning(policy: AgentPolicy, engine: Engine, context: PolicyContext, show: Show)
    requires ShowsTiers(show) && forall rule :: rule in policy.spec.rules ==> RulePreserved(rule, engine)
    ensures EvaluatePolicy(MigratePolicy(policy, engine), context, true, show)
         == EvaluatePolicy(policy, context, false, show)
  {
    var agent := FindAgent(policy.spec.agents, context.agentName);
    if agent.Some? {
      SameFirstRule(policy.spec.rules, engine, context, agent.value.tier, show);
      FirstLegacyIsRule(policy.spec.rules, context, agent.value.tier);
      SameOutcome(policy, engine, agent.value, context, FirstLegacy(policy.spec.rules, context, agent.value.tier));
    }
  }

  /** The rule's own time window has a say in this call. */
  predicate WindowSpeaks(rule: RuleSpec, now: Option<string>) {
    && rule.timeWindow.Some? && now.Some? && !IsWithinTimeWindow(now.value, rule.timeWindow.value)
    && OrElse(rule.outsideWindowAction, Block) != rule.action
  }

  /** Conditions preserved, windows as they may be: one call is decided otherwise
      after migration exactly when the agent is known, may use the tool, and the
      first rule to match is outside its window with another action for that. */
  lemma LostWindowsExactly(policy: AgentPolicy, engine: Engine, context: PolicyContext, show: Show)
    requires ShowsTiers(show) && forall rule :: rule in policy.spec.rules ==> ConditionPreserved(rule.condition, engine)
    ensures EvaluatePolicy(MigratePolicy(policy, engine), context, true, show) != EvaluatePolicy(policy, context, false, show)
        <==> var agent := FindAgent(policy.spec.agents, context.agentName);
             && agent.Some? && context.toolName !in agent.value.blockedTools
             && (agent.value.allowedTools == [] || context.toolName in agent.value.allowedTools)
             && var rule := FirstLegacy(policy.spec.rules, context, agent.value.tier);
               rule.Some? && WindowSpeaks(rule.value, context.nowUtc)
  {
    var agent := FindAgent(policy.spec.agents, context.agentName);
    if agent.Some? {
      var rule := FirstLegacy(policy.spec.rules, context, agent.value.tier);
      SameFirstRule(policy.spec.rules, engine, context, agent.value.tier, show);
      if rule.Some? { LostWindow(policy, engine, agent.value, context, rule.value); }
    }
  }

  lemma LostWindow(policy: AgentPolicy, engine: Engine, agent: AgentSpec, context: PolicyContext, rule: RuleSpec)
    ensures Outcome(MigratePolicy(policy, engine), agent, context, Some(MigrateRule(rule, engine)), Some(rule))
         != Outcome(policy, agent, context, None, Some(rule))
        <==> context.toolName !in agent.blockedTools && (agent.allowedTools == [] || context.toolName in agent.allowedTools)
             && WindowSpeaks(rule, context.nowUtc)
  {
  }

  /** For either engine: a condition of one clause keeps its meaning in every
      context exactly when its clause is preserved. */
  lemma OneClauseExactly(c: string, engine: Engine, show: Show)
    requires ShowsTiers(show) && Clean(c) && Trim(c) != ""
    ensures (forall context: PolicyContext, tier: u32 :: SameTruth(c, engine, context, tier, show)) <==> ClausePreserved(Trim(c), engine)
  {
    StripIdempotent(c, Space);
    ClausePreservedExactly(Trim(c), engine, show);
    forall context: PolicyContext, tier: u32
      ensures SameTruth(c, engine, context, tier, show)
          <==> (MatchesClause(Trim(c), context, tier) <==> MatchesAdvancedClause(Migrated(Trim(c), engine), context, tier, show))
    {
      OneClause(c, engine, context, tier, show);
    }
  }

  predicate SameTruth(c: string, engine: Engine, context: PolicyContext, tier: u32, show: Show) {
    MatchesAdvancedExpression(MigratedExpression(c, engine), engine, context, tier, show) <==> MatchesCondition(c, context, tier)
  }

  lemma OneClause(c: string, engine: Engine, context: PolicyContext, tier: u32, show: Show)
    requires Clean(c) && Trim(c) != ""
    ensures MatchesCondition(c, context, tier) <==> MatchesClause(Trim(c), context, tier)
    ensures MatchesAdvancedExpression(MigratedExpression(c, engine), engine, context, tier, show)
        <==> MatchesAdvancedClause(Migrated(Trim(c), engine), context, tier, show)
  {
    PiecesOfOneClean(c);
    SplitClausesAre(c);
    ClausesKeptExactly(c, engine);
    StripIdempotent(c, Space);
    ShownExactly(Trim(c), engine);
    OneLeft(Trim(c));
    OneLeft(Migrated(Trim(c), engine));
    assert TrimAll([c]) == [Trim(c)];
    assert ReadAll([c], engine) == [Migrated(Trim(c), engine)];
  }

  lemma OneLeft(x: string)
    requires x != ""
    ensures NonEmpty([x]) == [x]
  {
    assert [x][1..] == [];
  }

  /** Among the clauses the evaluator finds in the migrated condition one is dead. */
  ghost predicate DiesInMigration(rule: RuleSpec, engine: Engine) {
    exists clause :: clause in SplitClauses(NormalizeExpressionForEngine(MigratedExpression(rule.condition, engine), engine)) && DeadClause(clause)
  }

  lemma {:induction false} DeadRulesNeverMatch(rules: seq<RuleSpec>, engine: Engine, context: PolicyContext, tier: u32, show: Show)
    requires ShowsTiers(show) && forall rule :: rule in rules ==> DiesInMigration(rule, engine)
    ensures FirstAdvanced(MigrateRules(rules, engine), engine, context, tier, show).None?
    decreases |rules|
  {
    if rules != [] {
      DeadRuleNeverMatches(rules[0], engine, context, tier, show);
      DeadRulesNeverMatch(rules[1..], engine, context, tier, show);
      NoneMatchOn(rules, engine, context, tier, show);
    }
  }

  lemma NoneMatchOn(rules: seq<RuleSpec>, engine: Engine, context: PolicyContext, tier: u32, show: Show)
    requires rules != [] && FirstAdvanced(MigrateRules(rules[1..], engine), engine, context, tier, show).None?
    requires !MatchesAdvancedExpression(MigratedExpression(rules[0].condition, engine), engine, context, tier, show)
    ensures FirstAdvanced(MigrateRules(rules, engine), engine, context, tier, show).None?
  {
    var migrated := MigrateRules(rules, engine);
    assert migrated[0] == MigrateRule(rules[0], engine);
    assert migrated[1..] == MigrateRules(rules[1..], engine);
  }

  lemma DeadRuleNeverMatches(rule: RuleSpec, engine: Engine, context: PolicyContext, tier: u32, show: Show)
    requires ShowsTiers(show) && DiesInMigration(rule, engine)
    ensures !MatchesAdvancedExpression(MigratedExpression(rule.condition, engine), engine, context, tier, show)
  {
    var clause :| clause in SplitClauses(NormalizeExpressionForEngine(MigratedExpression(rule.condition, engine), engine)) && DeadClause(clause);
    DeadClauseNever(clause, context, tier, show);
  }

  /** Why the theorem has no converse: a policy whose every rule dies in migration
      still decides each call as before, because its legacy rules stay behind. */
  lemma DeadRulesFallBack(policy: AgentPolicy, engine: Engine, context: PolicyContext, show: Show)
    requires ShowsTiers(show) && forall rule :: rule in policy.spec.rules ==> DiesInMigration(rule, engine)
    ensures EvaluatePolicy(MigratePolicy(policy, engine), context, true, show) == EvaluatePolicy(policy, context, false, show)
  {
    var agent := FindAgent(policy.spec.agents, context.agentName);
    if agent.Some? { DeadRulesNeverMatch(policy.spec.rules, engine, context, agent.value.tier, show); }
  }

  /** With the advanced flag off, a migrated policy is the policy it was. */
  lemma MigrationIsBackwardCompatible(policy: AgentPolicy, engine: Engine, context: PolicyContext, show: Show)
    ensures EvaluatePolicy(MigratePolicy(policy, engine), context, false, show)
         == EvaluatePolicy(policy, context, false, show)
  {
  }
}
