/** A single `&` before an `AND`: the translator turns the three characters into
    `&&&`, and the next cut is made one character early. When that shows. */
module ClauseStrays {
  import opened Text
  import opened Counting
  import opened PolicyTypes
  import opened Evaluator
  import opened Migrate
  import opened OpaReading
  import opened ClauseShapes
  import opened ClauseForms
  import opened ClauseSplit

  /** The translator's own cut of a condition. */
  function MigratedCut(c: string): seq<string> {
    Split(Replace(c, "AND", "&&"), "&&")
  }

  /** The pieces as the evaluator gets to see them. */
  function ReadAll(parts: seq<string>, engine: Engine): (r: seq<string>)
    ensures |r| == |parts| && forall i :: 0 <= i < |r| ==> r[i] == Migrated(Trim(parts[i]), engine)
  {
    seq(|parts|, i requires 0 <= i < |parts| => Migrated(Trim(parts[i]), engine))
  }

  predicate Ends(p: string) {
    p != "" && p[|p| - 1] == '&'
  }

  /** Read from the left, every `&` that stands before an `AND` has blanks around
      it and nothing else, up to the next separators. `carried` says that one has
      been pushed on from the piece before. */
  predicate StraysAlone(pieces: seq<string>, carried: bool)
    requires pieces != []
  {
    var p, rest := pieces[0], pieces[1..];
    if !carried then
      rest == [] || (if Ends(p) then Trim(p[..|p| - 1]) == "" && StraysAlone(rest, true) else StraysAlone(rest, false))
    else
      !("&" <= p) &&
      if rest == [] then Trim(p) == ""
      else if p == "" then StraysAlone(rest, true)
      else if Ends(p) then Trim(p[..|p| - 1]) == "" && StraysAlone(rest, true)
      else Trim(p) == "" && StraysAlone(rest, false)
  }

  // ----- How the cut moves -----

  predicate Uncut(pieces: seq<string>) {
    forall i :: 0 <= i < |pieces| ==> !Contains(pieces[i], "&&")
  }

  lemma {:induction false} MigratedIsJoined(c: string)
    ensures Replace(c, "AND", "&&") == Join(Pieces(c), "&&")
  {
    if c == "" {
    } else if "&&" <= c {
      MigratedIsJoined(c[2..]);
      assert c == "&&" + c[2..];
      ReplaceSkip("&&", c[2..], "AND", "&&");
      JoinSplitStep(Pieces(c[2..]), "&&");
    } else if "AND" <= c {
      MigratedIsJoined(c[3..]);
      JoinSplitStep(Pieces(c[3..]), "&&");
    } else {
      MigratedIsJoined(c[1..]);
      JoinConsHead(c[0], Pieces(c[1..]), "&&");
    }
  }

  function Carried(b: bool, pieces: seq<string>): string {
    (if b then "&" else "") + Join(pieces, "&&")
  }

  function Cuts(b: bool, pieces: seq<string>): seq<string> {
    Split(Carried(b, pieces), "&&")
  }

  lemma {:induction false} SplitBefore(y: string, v: string)
    requires !Contains(y, "&&") && !Ends(y)
    ensures Split(y + "&&" + v, "&&") == [y] + Split(v, "&&")
  {
    var s := y + "&&" + v;
    if y == "" {
      assert s == "&&" + v && s[2..] == v;
    } else {
      ContainsTail(y, 1, "&&");
      SplitBefore(y[1..], v);
      assert s[1..] == y[1..] + "&&" + v && s[0] == y[0];
      NoEarlyCut(y, s);
      assert [y[0]] + y[1..] == y;
    }
  }

  lemma NoEarlyCut(y: string, s: string)
    requires y != "" && !Contains(y, "&&") && !Ends(y) && y < s
    ensures !("&&" <= s)
  {
    assert y[0] == s[0];
    if |y| > 1 {
      assert y[1] == s[1];
      assert y[..2] == [y[0], y[1]];
    }
  }

  lemma {:induction false} SplitWhole(y: string)
    requires !Contains(y, "&&")
    ensures Split(y, "&&") == [y]
  {
    if y != "" {
      ContainsTail(y, 1, "&&");
      SplitWhole(y[1..]);
      assert [y[0]] + y[1..] == y;
    }
  }

  lemma JoinHead(p: string, rest: seq<string>)
    requires rest != []
    ensures Join([p] + rest, "&&") == p + "&&" + Join(rest, "&&")
  {
    assert ([p] + rest)[1..] == rest;
  }

  /** A piece without a trailing `&` is cut off as it is. */
  lemma CutPlain(p: string, rest: seq<string>)
    requires rest != [] && !Contains(p, "&&") && !Ends(p)
    ensures Cuts(false, [p] + rest) == [p] + Cuts(false, rest)
  {
    JoinHead(p, rest);
    var j := Join(rest, "&&");
    assert "" + (p + "&&" + j) == p + "&&" + j && "" + j == j;
    SplitBefore(p, j);
  }

  /** A trailing `&` is pushed on. */
  lemma CutStray(u: string, rest: seq<string>)
    requires rest != [] && !Contains(u + "&", "&&")
    ensures Cuts(false, [u + "&"] + rest) == [u] + Cuts(true, rest)
  {
    JoinHead(u + "&", rest);
    var j := Join(rest, "&&");
    assert "" + (u + "&" + "&&" + j) == u + "&&" + ("&" + j);
    StrayHead(u);
    SplitBefore(u, "&" + j);
  }

  lemma StrayHead(u: string)
    requires !Contains(u + "&", "&&")
    ensures !Contains(u, "&&") && !Ends(u)
  {
    var s := u + "&";
    if Contains(u, "&&") { assert s[0..|u|] == u; ContainsSlice(s, 0, |u|, "&&"); }
    if Ends(u) {
      assert s[|u| - 1..] == "&&";
      assert At(s, "&&", |u| - 1);
      FindMeets(s, "&&");
    }
  }

  /** It passes over an empty piece. */
  lemma CarryOver(rest: seq<string>)
    requires rest != []
    ensures Cuts(true, [""] + rest) == [""] + Cuts(true, rest)
  {
    JoinHead("", rest);
    var j := Join(rest, "&&");
    assert "&" + ("" + "&&" + j) == "" + "&&" + ("&" + j);
    SplitBefore("", "&" + j);
  }

  lemma Fronted(p: string)
    requires !Contains(p, "&&") && !("&" <= p)
    ensures !Contains("&" + p, "&&") && (p != "" ==> (Ends("&" + p) <==> Ends(p)))
  {
    ContainsCons('&', p, "&&");
    if p != "" { assert "&&"[1..] == "&"; }
  }

  /** It joins the front of a piece and stays there. */
  lemma CarryIn(p: string, rest: seq<string>)
    requires rest != [] && !Contains(p, "&&") && !("&" <= p) && p != "" && !Ends(p)
    ensures Cuts(true, [p] + rest) == ["&" + p] + Cuts(false, rest)
  {
    JoinHead(p, rest);
    var j := Join(rest, "&&");
    assert "&" + (p + "&&" + j) == ("&" + p) + "&&" + j && "" + j == j;
    Fronted(p);
    SplitBefore("&" + p, j);
  }

  /** It joins a piece whose own trailing `&` is pushed on. */
  lemma CarryOn(w: string, rest: seq<string>)
    requires rest != [] && !Contains(w + "&", "&&") && !("&" <= w + "&")
    ensures Cuts(true, [w + "&"] + rest) == ["&" + w] + Cuts(true, rest)
  {
    JoinHead(w + "&", rest);
    var j := Join(rest, "&&");
    assert "&" + (w + "&" + "&&" + j) == ("&" + w) + "&&" + ("&" + j);
    StrayHead(w);
    assert w != "" && !("&" <= w) by { assert (w + "&")[0] != '&'; if w != "" { assert (w + "&")[0] == w[0]; } }
    Fronted(w);
    SplitBefore("&" + w, "&" + j);
  }

  /** It meets another `&`, and the two are a separator. */
  lemma CarryMeets(p: string, rest: seq<string>)
    ensures Cuts(true, ["&" + p] + rest) == [""] + Cuts(false, [p] + rest)
  {
    var j := Join([p] + rest, "&&");
    if rest == [] {
      assert "&" + ("&" + p) == "&&" + p && "" + p == p;
    } else {
      JoinHead("&" + p, rest); JoinHead(p, rest);
      var k := Join(rest, "&&");
      assert "&" + ("&" + p + "&&" + k) == "&&" + (p + "&&" + k);
    }
    assert Carried(true, ["&" + p] + rest) == "&&" + j && "" + j == j;
    assert ("&&" + j)[2..] == j;
  }

  lemma UncutRest(pieces: seq<string>)
    requires pieces != [] && Uncut(pieces)
    ensures !Contains(pieces[0], "&&") && Uncut(pieces[1..]) && pieces == [pieces[0]] + pieces[1..]
  {
  }

  lemma LastOff(p: string)
    requires Ends(p)
    ensures p == p[..|p| - 1] + "&"
  {
  }

  lemma UncutTail(p: string, rest: seq<string>)
    requires Uncut(["&" + p] + rest)
    ensures Uncut([p] + rest)
  {
    assert (["&" + p] + rest)[0] == "&" + p;
    ContainsTail("&" + p, 1, "&&");
    assert ("&" + p)[1..] == p;
    forall i | 0 <= i < |[p] + rest| ensures !Contains(([p] + rest)[i], "&&") {
      if i > 0 { assert ([p] + rest)[i] == (["&" + p] + rest)[i]; }
    }
  }

  /** The cut never makes fewer pieces. */
  lemma {:induction false} AtLeastAsMany(pieces: seq<string>, b: bool)
    requires pieces != [] && Uncut(pieces)
    ensures |Cuts(b, pieces)| >= |pieces|
    decreases |pieces|, b
  {
    var p, rest := pieces[0], pieces[1..];
    UncutRest(pieces);
    if rest == [] {
    } else if !b {
      AtLeastAsMany(rest, false); AtLeastAsMany(rest, true);
      if Ends(p) { LastOff(p); CutStray(p[..|p| - 1], rest); } else { CutPlain(p, rest); }
    } else if "&" <= p {
      assert p == "&" + p[1..];
      UncutTail(p[1..], rest);
      AtLeastAsMany([p[1..]] + rest, false);
      CarryMeets(p[1..], rest);
    } else {
      AtLeastAsMany(rest, false); AtLeastAsMany(rest, true);
      if p == "" { CarryOver(rest); }
      else if Ends(p) { LastOff(p); CarryOn(p[..|p| - 1], rest); }
      else { CarryIn(p, rest); }
    }
  }

  // ----- Counting the ampersands -----

  lemma {:induction false} AmpersandsJoined(pieces: seq<string>)
    requires pieces != []
    ensures Count('&', Join(pieces, "&&")) == CountAll('&', pieces) + 2 * (|pieces| - 1)
  {
    var p, rest := pieces[0], pieces[1..];
    if rest != [] {
      AmpersandsJoined(rest);
      CountAppend('&', p + "&&", Join(rest, "&&"));
      CountAppend('&', p, "&&");
      TwoAmpersands();
    } else {
      assert Count('&', p) == CountAll('&', pieces);
    }
  }

  lemma TwoAmpersands()
    ensures Count('&', "&&") == 2 && Count('&', "&") == 1
  {
    assert "&&"[1..] == "&" && "&"[1..] == "";
  }

  lemma AmpersandsCut(b: bool, pieces: seq<string>)
    requires pieces != []
    ensures CountAll('&', Cuts(b, pieces)) + 2 * |Cuts(b, pieces)| == CountAll('&', pieces) + 2 * |pieces| + if b then 1 else 0
  {
    AmpersandsJoined(pieces);
    TwoAmpersands();
    CountAppend('&', if b then "&" else "", Join(pieces, "&&"));
    CountSplit('&', Carried(b, pieces), "&&");
  }

  lemma AmpersandsQuoted(value: string)
    ensures Count('&', MaybeQuoteLiteral(value)) == Count('&', value)
  {
    QuotedValue(value);
    CountTrimValue('&', value);
    CountTrimValue('&', MaybeQuoteLiteral(value));
  }

  lemma AmpersandsOperand(clause: string, operator: string)
    requires operator != "" && Absent('&', operator) && ToolOperand(clause, operator).Some?
    ensures Count('&', ToolOperand(clause, operator).value) == Count('&', clause)
  {
    FindMeets(clause, operator);
    var i := Find(clause, operator).value;
    var left, right := clause[..i], clause[i + |operator|..];
    assert clause[i..][..|operator|] == operator;
    assert clause == left + operator + right;
    NoneInToolName(left);
    CountNone('&', operator);
    CountAppend('&', left + operator, right);
    CountAppend('&', left, operator);
  }

  lemma NoneInToolName(left: string)
    requires Trim(left) == "action.tool"
    ensures Count('&', left) == 0
  {
    CountStrip('&', left, Space);
    CountNone('&', Trim(left));
  }

  lemma AmpersandsListed(list: string)
    ensures CountAll('&', QuoteItems(ListItems(list))) == Count('&', list)
  {
    var items := ListItems(list);
    var q := QuoteItems(items);
    forall i | 0 <= i < |q| ensures Count('&', q[i]) == Count('&', items[i]) {
      CountStrip('&', items[i], Space);
      AmpersandsQuoted(Trim(items[i]));
    }
    CountSame('&', q, items);
    var t := Trim(list);
    CountStrip('&', list, Space);
    CountStripStart('&', t, One('['));
    CountStripEnd('&', StripStart(t, One('[')), One(']'));
    CountNone('&', ",");
    CountSplit('&', StripEnd(StripStart(t, One('[')), One(']')), ",");
  }

  lemma AmpersandsMember(body: string)
    ensures Count('&', "action.tool in [" + body + "]") == Count('&', body)
  {
    CountMiddle('&', "action.tool in [", body, "]");
  }

  lemma AmpersandsAfter(u: string, body: string)
    requires Absent('&', u)
    ensures Count('&', u + body) == Count('&', body)
  {
    CountNone('&', u);
    CountAppend('&', u, body);
  }

  lemma AmpersandsEquality(body: string)
    ensures Count('&', "action.tool == " + body) == Count('&', body)
  {
    AmpersandsAfter("action.tool == ", body);
  }

  lemma AmpersandsOfEquality(clause: string)
    requires ToolOperand(clause, "==").Some?
    ensures Count('&', "action.tool == " + MaybeQuoteLiteral(Trim(ToolOperand(clause, "==").value))) == Count('&', clause)
  {
    var value := ToolOperand(clause, "==").value;
    AmpersandsOperand(clause, "==");
    CountStrip('&', value, Space);
    AmpersandsQuoted(Trim(value));
    AmpersandsEquality(MaybeQuoteLiteral(Trim(value)));
  }

  lemma AmpersandsOfMember(clause: string)
    requires ToolOperand(clause, " in ").Some?
    ensures Count('&', "action.tool in [" + Join(QuoteItems(ListItems(ToolOperand(clause, " in ").value)), ", ") + "]") == Count('&', clause)
  {
    var items := QuoteItems(ListItems(ToolOperand(clause, " in ").value));
    AmpersandsOperand(clause, " in ");
    AmpersandsListed(ToolOperand(clause, " in ").value);
    CountJoin('&', items, ", ");
    AmpersandsMember(Join(items, ", "));
  }

  /** Translating a clause keeps its ampersands. */
  lemma AmpersandsKept(clause: string, engine: Engine)
    ensures Count('&', Migrated(clause, engine)) == Count('&', clause)
  {
    AmpersandsReadBack(QuoteClause(clause));
    if ToolOperand(clause, "==").Some? { AmpersandsOfEquality(clause); }
    else if ToolOperand(clause, " in ").Some? { AmpersandsOfMember(clause); }
  }

  lemma {:induction false} AmpersandsShown(parts: seq<string>, engine: Engine)
    ensures CountAll('&', NonEmpty(ReadAll(parts, engine))) == CountAll('&', parts)
  {
    if parts != [] {
      AmpersandsShown(parts[1..], engine);
      assert ReadAll(parts, engine)[1..] == ReadAll(parts[1..], engine);
      CountStrip('&', parts[0], Space);
      AmpersandsKept(Trim(parts[0]), engine);
      CountFirst('&', Migrated(Trim(parts[0]), engine), NonEmpty(ReadAll(parts[1..], engine)));
    }
  }

  lemma CountFirst(c: char, x: string, rest: seq<string>)
    ensures CountAll(c, [x] + rest) == Count(c, x) + CountAll(c, rest)
  {
    assert ([x] + rest)[1..] == rest;
  }

  // ----- Single clauses -----

  lemma ShownExactly(k: string, engine: Engine)
    requires Bare(k, Space)
    ensures Migrated(k, engine) == "" <==> k == ""
  {
    QuotedClauseIsTrimmed(k);
    ReadBackEnds(QuoteClause(k));
  }

  lemma AmpersandIsNoTool(w: string, operator: string)
    requires operator != ""
    ensures ToolOperand("&" + w, operator).None?
  {
    var s := "&" + w;
    FindMeets(s, operator);
    if Find(s, operator).Some? {
      var left := s[..Find(s, operator).value];
      if left != "" {
        assert left == "&" + left[1..];
        TrimKeepsPrefix("&", left[1..]);
        assert Trim(left)[0] == '&';
      }
    }
  }

  lemma AmpersandRead(w: string, engine: Engine)
    ensures Migrated("&" + w, engine) == "&" + Reading(w, engine)
  {
    AmpersandIsNoTool(w, "=="); AmpersandIsNoTool(w, " in ");
    OutsideMarks();
    ReadBackAfter("", '&', w);
    assert "" + ['&'] + w == "&" + w && "" + ['&'] + ReadBack(w) == "&" + ReadBack(w);
  }

  lemma AmpersandTrims(w: string)
    ensures Trim("&" + w) == "&" + StripEnd(w, Space)
  {
    assert StripStart("&" + w, Space) == "&" + w;
    var j := StripEndCut(w, Space);
    var y := "&" + w[..j];
    assert "&" + w == y + w[j..];
    StripEndSkips(y, w[j..], Space);
    assert j > 0 ==> y[|y| - 1] == w[j - 1];
  }

  lemma EndBlank(w: string)
    ensures StripEnd(w, Space) == "" <==> Trim(w) == ""
  {
    var j := StripEndCut(w, Space);
    if j == 0 {
      assert w[0..] == w;
      StripPad(w, "", "", Space);
      assert w + "" + "" == w;
    }
    if Trim(w) == "" {
      BlankIsSpace(w);
      StripEndSkips("", w, Space);
      assert "" + w == w;
    }
  }

  /** An `&` with something after it is not the clause `&`. */
  lemma AmpersandAlone(w: string, engine: Engine)
    ensures Migrated(Trim("&" + w), engine) == "&" <==> Trim(w) == ""
    ensures Migrated(Trim("&" + w), engine) != ""
  {
    var v := StripEnd(w, Space);
    AmpersandTrims(w);
    EndBlank(w);
    AmpersandRead(v, engine);
    ReadBackEnds(v);
  }

  // ----- The clause lists -----

  function Shown(p: string, engine: Engine): seq<string> {
    if Migrated(Trim(p), engine) == "" then [] else [Migrated(Trim(p), engine)]
  }

  lemma ShownFirst(p: string, rest: seq<string>, engine: Engine)
    ensures NonEmpty(ReadAll([p] + rest, engine)) == Shown(p, engine) + NonEmpty(ReadAll(rest, engine))
  {
    var r := ReadAll([p] + rest, engine);
    assert r[0] == Migrated(Trim(p), engine);
    assert r[1..] == ReadAll(rest, engine);
  }

  lemma ShownBlank(p: string, engine: Engine)
    ensures Shown(p, engine) == [] <==> Trim(p) == ""
  {
    StripIdempotent(p, Space);
    ShownExactly(Trim(p), engine);
  }

  lemma ShownAmpersand(w: string, engine: Engine)
    ensures Shown("&" + w, engine) == ["&"] <==> Trim(w) == ""
    ensures |Shown("&" + w, engine)| == 1
  {
    AmpersandAlone(w, engine);
  }

  lemma BlankBeforeAmpersand(u: string, engine: Engine)
    requires Trim(u) == ""
    ensures Shown(u + "&", engine) == ["&"]
  {
    BlankIsSpace(u);
    StripUnique(u, "&", "", Space);
    assert u + "&" + "" == u + "&";
    ShownAmpersand("", engine);
    assert "&" + "" == "&";
    StripBare("&", Space);
    StripBare("", Space);
  }

  lemma BlankIsSpace(u: string)
    requires Trim(u) == ""
    ensures Space.All(u)
  {
    var i, j := StripCut(u, Space);
    assert u[..i] + u[j..] == u;
  }

  lemma StrayShows(u: string, engine: Engine)
    requires Trim(u) != ""
    ensures |Shown(u, engine)| == 1 == |Shown(u + "&", engine)| && Shown(u, engine)[0] != Shown(u + "&", engine)[0]
  {
    ShownBlank(u, engine);
    CountStrip('&', u, Space); CountStrip('&', u + "&", Space);
    AmpersandsKept(Trim(u), engine); AmpersandsKept(Trim(u + "&"), engine);
    CountAppend('&', u, "&");
    TwoAmpersands();
    ShownBlank(u + "&", engine);
    assert Count('&', "") == 0;
  }

  lemma NothingFirst(x: seq<string>)
    ensures [] + x == x
  {
  }

  lemma SameTails(h: seq<string>, x: seq<string>, y: seq<string>)
    ensures h + x == h + y <==> x == y
  {
    if h + x == h + y {
      assert x == (h + x)[|h|..] && y == (h + y)[|h|..];
    }
  }

  lemma HeadsDiffer(a: seq<string>, b: seq<string>, x: seq<string>, y: seq<string>)
    requires |a| == 1 == |b| && a[0] != b[0]
    ensures a + x != b + y
  {
    assert (a + x)[0] == a[0] && (b + y)[0] == b[0];
  }

  /** The clause lists agree from here on. */
  predicate SameShown(pieces: seq<string>, b: bool, engine: Engine) {
    var cut, own := NonEmpty(ReadAll(Cuts(b, pieces), engine)), NonEmpty(ReadAll(pieces, engine));
    cut == if b then ["&"] + own else own
  }

  lemma PlainStep(p: string, rest: seq<string>, engine: Engine)
    requires rest != [] && !Contains(p, "&&") && !Ends(p)
    ensures SameShown([p] + rest, false, engine) <==> SameShown(rest, false, engine)
  {
    CutPlain(p, rest);
    ShownFirst(p, rest, engine); ShownFirst(p, Cuts(false, rest), engine);
    SameTails(Shown(p, engine), NonEmpty(ReadAll(Cuts(false, rest), engine)), NonEmpty(ReadAll(rest, engine)));
  }

  lemma StrayStep(u: string, rest: seq<string>, engine: Engine)
    requires rest != [] && !Contains(u + "&", "&&")
    ensures SameShown([u + "&"] + rest, false, engine) <==> Trim(u) == "" && SameShown(rest, true, engine)
  {
    CutStray(u, rest);
    ShownFirst(u + "&", rest, engine); ShownFirst(u, Cuts(true, rest), engine);
    ShownBlank(u, engine);
    NothingFirst(NonEmpty(ReadAll(Cuts(true, rest), engine)));
    if Trim(u) == "" {
      BlankBeforeAmpersand(u, engine);
    } else {
      StrayShows(u, engine);
      HeadsDiffer(Shown(u, engine), Shown(u + "&", engine), NonEmpty(ReadAll(Cuts(true, rest), engine)), NonEmpty(ReadAll(rest, engine)));
    }
  }

  lemma OverStep(rest: seq<string>, engine: Engine)
    requires rest != []
    ensures SameShown([""] + rest, true, engine) <==> SameShown(rest, true, engine)
  {
    CarryOver(rest);
    StripBare("", Space);
    ShownBlank("", engine);
    ShownFirst("", rest, engine); ShownFirst("", Cuts(true, rest), engine);
    NothingFirst(NonEmpty(ReadAll(rest, engine))); NothingFirst(NonEmpty(ReadAll(Cuts(true, rest), engine)));
  }

  lemma InStep(p: string, rest: seq<string>, engine: Engine)
    requires rest != [] && !Contains(p, "&&") && !("&" <= p) && p != "" && !Ends(p)
    ensures SameShown([p] + rest, true, engine) <==> Trim(p) == "" && SameShown(rest, false, engine)
  {
    CarryIn(p, rest);
    ShownFirst(p, rest, engine); ShownFirst("&" + p, Cuts(false, rest), engine);
    PendingMeets(p, NonEmpty(ReadAll(Cuts(false, rest), engine)), NonEmpty(ReadAll(rest, engine)), engine);
  }

  lemma PendingMeets(p: string, x: seq<string>, y: seq<string>, engine: Engine)
    ensures Shown("&" + p, engine) + x == ["&"] + (Shown(p, engine) + y) <==> Trim(p) == "" && x == y
  {
    ShownAmpersand(p, engine);
    ShownBlank(p, engine);
    if Trim(p) == "" {
      assert Shown(p, engine) + y == y;
      SameTails(["&"], x, y);
    } else {
      HeadsDiffer(Shown("&" + p, engine), ["&"], x, Shown(p, engine) + y);
    }
  }

  lemma OnStep(w: string, rest: seq<string>, engine: Engine)
    requires rest != [] && !Contains(w + "&", "&&") && !("&" <= w + "&")
    ensures SameShown([w + "&"] + rest, true, engine) <==> Trim(w) == "" && SameShown(rest, true, engine)
  {
    CarryOn(w, rest);
    var x, y := NonEmpty(ReadAll(Cuts(true, rest), engine)), NonEmpty(ReadAll(rest, engine));
    ShownFirst(w + "&", rest, engine); ShownFirst("&" + w, Cuts(true, rest), engine);
    ShownAmpersand(w, engine);
    if Trim(w) == "" {
      BlankBeforeAmpersand(w, engine);
      SameTails(["&"], x, ["&"] + y);
    } else {
      HeadsDiffer(Shown("&" + w, engine), ["&"], x, Shown(w + "&", engine) + y);
    }
  }

  lemma MeetsStep(pieces: seq<string>, engine: Engine)
    requires pieces != [] && Uncut(pieces) && "&" <= pieces[0]
    ensures !SameShown(pieces, true, engine)
  {
    var p, rest := pieces[0][1..], pieces[1..];
    assert pieces[0] == "&" + p && pieces == ["&" + p] + rest;
    UncutTail(p, rest);
    AtLeastAsMany([p] + rest, false);
    CarryMeets(p, rest);
    AmpersandsCut(true, pieces);
    AmpersandsShown(Cuts(true, pieces), engine);
    AmpersandsShown(pieces, engine);
    TwoAmpersands();
    assert (["&"] + NonEmpty(ReadAll(pieces, engine)))[1..] == NonEmpty(ReadAll(pieces, engine));
  }

  lemma LastStep(p: string, engine: Engine)
    requires !Contains(p, "&&")
    ensures SameShown([p], false, engine)
    ensures !("&" <= p) ==> (SameShown([p], true, engine) <==> Trim(p) == "")
  {
    assert "" + p == p;
    SplitWhole(p);
    if !("&" <= p) {
      Fronted(p);
      SplitWhole("&" + p);
      assert ["&" + p] + [] == ["&" + p] && [p] + [] == [p];
      ShownFirst("&" + p, [], engine); ShownFirst(p, [], engine);
      assert ReadAll([], engine) == [];
      PendingMeets(p, [], [], engine);
    }
  }

  /** For pieces with no separator left in them, the lists agree exactly when
      every stray stands alone. */
  lemma {:induction false} SameShownExactly(pieces: seq<string>, b: bool, engine: Engine)
    requires pieces != [] && Uncut(pieces)
    ensures SameShown(pieces, b, engine) <==> StraysAlone(pieces, b)
    decreases |pieces|
  {
    var p, rest := pieces[0], pieces[1..];
    UncutRest(pieces);
    if b && "&" <= p {
      MeetsStep(pieces, engine);
    } else if rest == [] {
      assert pieces == [p];
      LastStep(p, engine);
    } else {
      SameShownExactly(rest, false, engine); SameShownExactly(rest, true, engine);
      if Ends(p) { LastOff(p); }
      if !b {
        if Ends(p) { StrayStep(p[..|p| - 1], rest, engine); } else { PlainStep(p, rest, engine); }
      } else if p == "" {
        OverStep(rest, engine);
      } else if Ends(p) {
        OnStep(p[..|p| - 1], rest, engine);
      } else {
        InStep(p, rest, engine);
      }
    }
  }

  lemma PiecesAreUncut(c: string)
    ensures Uncut(Pieces(c))
  {
    forall i | 0 <= i < |Pieces(c)| ensures !Contains(Pieces(c)[i], "&&") { PieceIsSlice(c, i); }
  }

  /** The translator's clauses are the condition's own, exactly when every stray
      stands alone. */
  lemma CutShowsPieces(c: string, engine: Engine)
    ensures NonEmpty(ReadAll(MigratedCut(c), engine)) == NonEmpty(ReadAll(Pieces(c), engine)) <==> StraysAlone(Pieces(c), false)
  {
    MigratedIsJoined(c);
    PiecesAreUncut(c);
    SameShownExactly(Pieces(c), false, engine);
    assert "" + Join(Pieces(c), "&&") == Join(Pieces(c), "&&");
  }
}
