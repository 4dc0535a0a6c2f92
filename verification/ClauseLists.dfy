/** The membership clause `action.tool in [...]` and its translation. */
module ClauseLists {
  import opened Options
  import opened Text
  import opened Counting
  import opened Numerals
  import opened PolicyTypes
  import opened Evaluator
  import opened Migrate
  import opened OpaReading
  import D = OpaDialect
  import opened ClauseShapes
  import opened ClauseForms

  // ----- Splitting a joined list gives its items back -----

  /** Items of a joined list, each after the first behind the joining space. */
  function Spaced(items: seq<string>): (r: seq<string>)
    ensures |r| == |items|
    ensures forall i :: 0 <= i < |r| ==> r[i] == if i == 0 then items[0] else " " + items[i]
  {
    seq(|items|, i requires 0 <= i < |items| => if i == 0 then items[0] else " " + items[i])
  }

  lemma {:induction false} SplitAtComma(a: string, b: string)
    requires Absent(',', a)
    ensures Split(a + "," + b, ",") == [a] + Split(b, ",")
  {
    if a == "" {
      assert a + "," + b == "," + b && ("," + b)[1..] == b;
    } else {
      assert (a + "," + b)[1..] == a[1..] + "," + b;
      SplitAtComma(a[1..], b);
      assert (a + "," + b)[0] == a[0];
      assert [a[0]] + a[1..] == a;
    }
  }

  lemma {:induction false} SplitWithoutComma(a: string)
    requires Absent(',', a)
    ensures Split(a, ",") == [a]
  {
    if a != "" {
      SplitWithoutComma(a[1..]);
      assert !("," <= a);
      assert [a[0]] + a[1..] == a;
    }
  }

  lemma {:induction false} SplitJoined(items: seq<string>)
    requires items != [] && forall i :: 0 <= i < |items| ==> Absent(',', items[i])
    ensures Split(Join(items, ", "), ",") == Spaced(items)
  {
    if |items| == 1 {
      SplitWithoutComma(items[0]);
    } else {
      var rest := Join(items[1..], ", ");
      assert items[0] + ", " + rest == items[0] + "," + (" " + rest);
      SplitAtComma(items[0], " " + rest);
      SplitJoined(items[1..]);
      SplitSpace(rest);
      var r := Split(rest, ",");
      assert Split(Join(items, ", "), ",") == [items[0]] + ([" " + r[0]] + r[1..]);
    }
  }

  lemma SplitSpace(s: string)
    ensures Split(" " + s, ",") == [" " + Split(s, ",")[0]] + Split(s, ",")[1..]
  {
    assert (" " + s)[1..] == s && (" " + s)[0] == ' ';
  }

  // ----- The bracketed, quoted list as the advanced evaluator reads it -----

  /** Closing brackets after the last item are taken for the list's own. */
  function LastCut(items: seq<string>): (r: seq<string>)
    requires items != []
    ensures |r| == |items|
  {
    items[|items| - 1 := StripEnd(items[|items| - 1], One(']'))]
  }

  lemma {:induction false} StripEndOfJoined(items: seq<string>)
    requires items != [] && StripEnd(items[|items| - 1], One(']')) != ""
    ensures StripEnd(Join(items, ", "), One(']')) == Join(LastCut(items), ", ")
  {
    if |items| > 1 {
      var k := One(']');
      var rest := Join(items[1..], ", ");
      StripEndOfJoined(items[1..]);
      assert LastCut(items)[1..] == LastCut(items[1..]);
      StripEndOfTail(items[0] + ", ", rest, k);
      JoinNonEmpty(LastCut(items[1..]), ", ");
    }
  }

  lemma JoinNonEmpty(items: seq<string>, sep: string)
    requires items != [] && sep != "" && items[|items| - 1] != ""
    ensures Join(items, sep) != ""
  {
  }

  lemma {:induction false} StripEndOfTail(u: string, w: string, k: Class)
    requires StripEnd(w, k) != ""
    ensures StripEnd(u + w, k) == u + StripEnd(w, k)
  {
    assert (u + w)[|u + w| - 1] == w[|w| - 1];
    assert (u + w)[..|u + w| - 1] == u + w[..|w| - 1];
    if k.Has(w[|w| - 1]) {
      StripEndOfTail(u, w[..|w| - 1], k);
    }
  }

  lemma BracketsOff(j: string)
    requires j != "" && j[0] != '['
    ensures StripEnd(StripStart(Trim("[" + j + "]"), One('[')), One(']')) == StripEnd(j, One(']'))
  {
    var list := "[" + j + "]";
    StripBare(list, Space);
    assert list == "[" + (j + "]");
    StripStartSkips("[", j + "]", One('['));
    StripEndSkips(j, "]", One(']'));
  }

  lemma BracketedItems(items: seq<string>)
    requires items != [] && forall i :: 0 <= i < |items| ==> Absent(',', items[i])
    requires items[0] != "" && items[0][0] != '['
    requires StripEnd(items[|items| - 1], One(']')) != ""
    ensures ListItems("[" + Join(items, ", ") + "]") == Spaced(LastCut(items))
  {
    JoinStarts(items);
    BracketsOff(Join(items, ", "));
    StripEndOfJoined(items);
    LastCutAbsent(items);
    SplitJoined(LastCut(items));
  }

  lemma JoinStarts(items: seq<string>)
    requires items != [] && items[0] != ""
    ensures Join(items, ", ") != "" && Join(items, ", ")[0] == items[0][0]
  {
  }

  lemma LastCutAbsent(items: seq<string>)
    requires items != [] && forall i :: 0 <= i < |items| ==> Absent(',', items[i])
    ensures forall i :: 0 <= i < |items| ==> Absent(',', LastCut(items)[i])
  {
    var n := StripEndCut(items[|items| - 1], One(']'));
  }

  // ----- action.tool in [<names>] -----

  predicate Names(items: seq<string>, tool: string) {
    exists item :: item in items && TrimValue(item) == tool
  }

  /** The names before the last one. */
  function Others(items: seq<string>): seq<string>
    requires items != []
  {
    items[..|items| - 1]
  }

  /** The last name, as it stands and as it reads once requoted and bracketed. */
  function LastName(items: seq<string>): string
    requires items != []
  {
    TrimValue(items[|items| - 1])
  }

  function RequotedLastName(items: seq<string>): string
    requires items != []
  {
    TrimValue(StripEnd(MaybeQuoteLiteral(items[|items| - 1]), One(']')))
  }

  /** One blank after `in`; and if the last name is a quoted one that ends in a
      bracket, losing the bracket must not change the set of names. */
  predicate ToolInPreserved(list: string) {
    list != "" && list[0] == ' ' &&
    var items := ListItems(list);
    var kept, cut := LastName(items), RequotedLastName(items);
    kept == cut || (Names(Others(items), kept) && Names(Others(items), cut))
  }

  lemma ToolInSpaced(list: string)
    requires list != "" && list[0] == ' '
    ensures SplitOnce(TOOL_IN + list, " in ") == Some(("action.tool", list[1..]))
    ensures CutAt(TOOL_IN + list, " in ") == Some(Cut("action.tool", " in ", Trim(list[1..])))
  {
    CutAtFirst("action.tool", " in ", list[1..]);
    assert "action.tool" + " in " + list[1..] == TOOL_IN + list;
    StripBare("action.tool", Space);
  }

  lemma ToolInUnspaced(list: string)
    requires list == "" || list[0] != ' '
    ensures FoundFrom(TOOL_IN + list, " in ", |TOOL_IN|)
  {
    FindSkip("in", list, " in ");
    InNotMember(list);
    FindSkip("action.tool", " in" + list, " in ");
    assert TOOL_IN + list == "action.tool" + (" in" + list);
  }

  lemma InNotMember(list: string)
    requires list == "" || list[0] != ' '
    ensures Find(" in" + list, " in ") == match Find("in" + list, " in ") case None => None case Some(i) => Some(i + 1)
  {
    var v := " in" + list;
    assert v[1..] == "in" + list;
    assert |v| > 3 ==> v[3] == list[0];
  }

  lemma QuotedItemsFit(items: seq<string>)
    requires items != [] && forall i :: 0 <= i < |items| ==> Absent(',', items[i])
    ensures var q := QuoteItems(items);
            q[0] != "" && q[0][0] != '[' && StripEnd(q[|q| - 1], One(']')) != "" &&
            forall i :: 0 <= i < |q| ==> Absent(',', q[i])
  {
    var q := QuoteItems(items);
    forall i | 0 <= i < |q| ensures Fits(q[i]) { QuotedItemFits(items[i]); }
    FitsEnd(q[|q| - 1]);
  }

  predicate Fits(item: string) {
    Absent(',', item) && item != "" && item[0] != '[' && item[0] != ']'
  }

  lemma QuotedItemFits(item: string)
    requires Absent(',', item)
    ensures Fits(MaybeQuoteLiteral(Trim(item)))
  {
    QuotedIsBare(Trim(item));
    QuotedNoNew(item);
  }

  lemma FitsEnd(item: string)
    requires Fits(item)
    ensures StripEnd(item, One(']')) != ""
  {
    var n := StripEndCut(item, One(']'));
    assert !One(']').Has(item[0]);
    assert n < |item| ==> item[n..][|item| - n - 1] == item[|item| - 1];
  }

  /** Quoting adds no comma, and never starts with a bracket. */
  lemma QuotedNoNew(item: string)
    requires Absent(',', item)
    ensures var q := MaybeQuoteLiteral(Trim(item)); Absent(',', q) && q[0] != ']'
  {
    StripIdempotent(item, Space);
    var i, j := StripCut(item, Space);
    assert Absent(',', Trim(item));
    QuotedFirst(Trim(item));
  }

  lemma QuotedFirst(t: string)
    requires Trim(t) == t
    ensures MaybeQuoteLiteral(t) != "" && MaybeQuoteLiteral(t)[0] != ']'
  {
    QuotedIsBare(t);
    if ParseF64(t).Some? {
      NumeralChars(t);
      assert NumeralChar(t[0]);
    }
    if ParseBool(t).Some? { assert LowerChar(t[0]) == Lower(t)[0]; }
  }

  lemma RequotedAt(items: seq<string>, i: nat)
    requires i < |items|
    ensures TrimValue(Spaced(LastCut(QuoteItems(items)))[i])
         == if i < |items| - 1 then TrimValue(items[i]) else RequotedLastName(items)
  {
    TrimValueOfSpaced(LastCut(QuoteItems(items))[i]);
    SpacedAt(LastCut(QuoteItems(items)), i);
    if i < |items| - 1 {
      RequotedValue(items[i]);
    } else {
      QuotedTrims(items[i]);
    }
  }

  lemma SpacedAt(items: seq<string>, i: nat)
    requires i < |items|
    ensures Spaced(items)[i] == items[i] || Spaced(items)[i] == " " + items[i]
  {
  }

  lemma RequotedValue(item: string)
    ensures TrimValue(MaybeQuoteLiteral(Trim(item))) == TrimValue(item)
  {
    StripIdempotent(item, Space);
    QuotedValue(Trim(item));
    TrimValueOfTrim(item);
  }

  lemma QuotedTrims(item: string)
    ensures MaybeQuoteLiteral(Trim(item)) == MaybeQuoteLiteral(item)
  {
    StripIdempotent(item, Space);
  }

  /** The translated list names the same tools, except perhaps at the end. */
  lemma RequotedNames(items: seq<string>, tool: string)
    requires items != []
    ensures Names(Spaced(LastCut(QuoteItems(items))), tool)
        <==> Names(Others(items), tool) || RequotedLastName(items) == tool
  {
    var q := Spaced(LastCut(QuoteItems(items)));
    var last := |items| - 1;
    if Names(Others(items), tool) {
      var item :| item in Others(items) && TrimValue(item) == tool;
      var i :| 0 <= i < last && items[i] == item;
      RequotedAt(items, i);
      assert q[i] in q;
    }
    RequotedAt(items, last);
    assert q[last] in q;
    if Names(q, tool) {
      var item :| item in q && TrimValue(item) == tool;
      var i :| 0 <= i < |q| && q[i] == item;
      RequotedAt(items, i);
      assert i < last ==> items[i] in Others(items);
    }
  }

  lemma ToolInIsNotEquality(list: string)
    ensures ToolOperand(TOOL_IN + list, "==").None?
  {
    MisspeltToolIs();
    OperatorLater(TOOL_IN, list, "==");
    MisspeltCut(TOOL_IN, list, "==", CallOf(""), 0);
  }

  lemma ItemsHaveNoComma(list: string)
    ensures forall i :: 0 <= i < |ListItems(list)| ==> Absent(',', ListItems(list)[i])
  {
    var s := StripEnd(StripStart(Trim(list), One('[')), One(']'));
    forall i | 0 <= i < |ListItems(list)| ensures Absent(',', ListItems(list)[i]) {
      SplitPieces(s, ",", i);
      CharAbsent(Split(s, ",")[i], ',');
    }
  }

  lemma CharAbsent(s: string, c: char)
    requires !Contains(s, [c])
    ensures Absent(c, s)
  {
    FindMeets(s, [c]);
    forall i | 0 <= i < |s| ensures s[i] != c {
      assert !At(s, [c], i);
      assert s[i..][0] == s[i];
    }
  }

  /** The list as the translator writes it. */
  function Rewritten(list: string): string {
    "[" + Join(QuoteItems(ListItems(list)), ", ") + "]"
  }

  lemma RewrittenText(j: string)
    ensures "action.tool in [" + j + "]" == TOOL_IN + (" " + ("[" + j + "]"))
  {
    assert "action.tool in [" == TOOL_IN + " [";
  }

  lemma ToolInOperand(list: string)
    requires list != "" && list[0] == ' '
    ensures ToolOperand(TOOL_IN + list, " in ") == Some(list[1..])
    ensures ListItems(list[1..]) == ListItems(list)
  {
    ToolInSpaced(list);
    StripBare("action.tool", Space);
    TrimValueOfSpaced(list[1..]);
    assert list == " " + list[1..];
  }

  lemma ToolInQuoted(list: string)
    requires list != "" && list[0] == ' '
    ensures QuoteClause(TOOL_IN + list) == TOOL_IN + (" " + Rewritten(list))
  {
    ToolInIsNotEquality(list);
    ToolInOperand(list);
    RewrittenText(Join(QuoteItems(ListItems(list)), ", "));
  }

  lemma ToolInReads(list: string, context: PolicyContext, tier: u32, show: Show)
    ensures MatchesAdvancedClause(TOOL_IN + (" " + list), context, tier, show)
        <==> Names(ListItems(list), context.toolName)
  {
    ToolInSpaced(" " + list);
    assert (" " + list)[1..] == list;
    StripIdempotent(list, Space);
    ToolResolves(context, tier);
  }

  lemma ToolInAdvanced(list: string, context: PolicyContext, tier: u32, show: Show)
    requires list != "" && list[0] == ' '
    ensures MatchesAdvancedClause(QuoteClause(TOOL_IN + list), context, tier, show)
        <==> Names(Others(ListItems(list)), context.toolName) || RequotedLastName(ListItems(list)) == context.toolName
  {
    var items := ListItems(list);
    ToolInQuoted(list);
    ToolInReads(Rewritten(list), context, tier, show);
    ItemsHaveNoComma(list);
    QuotedItemsFit(items);
    BracketedItems(QuoteItems(items));
    RequotedNames(items, context.toolName);
  }

  lemma ToolInLegacy(list: string, context: PolicyContext, tier: u32)
    ensures MatchesClause(TOOL_IN + list, context, tier)
        <==> Names(Others(ListItems(list)), context.toolName) || LastName(ListItems(list)) == context.toolName
  {
    var clause, items := TOOL_IN + list, ListItems(list);
    assert clause[|TOOL_IN|..] == list;
    assert clause[12] == 'i' && TOOL_IS[12] == '=';
    assert items == Others(items) + [items[|items| - 1]];
  }

  // ----- An unspaced list -----

  /** Anything after the tool's name that is neither an operator nor a blank. */
  lemma TrailedToolNeverMatches(w: string, context: PolicyContext, tier: u32, show: Show)
    requires w != "" && (w[0] == 'i' || w[0] == 'a') && !("in " <= w)
    ensures !MatchesAdvancedClause("action.tool " + w, context, tier, show)
  {
    var u := "action.tool " + [w[0]];
    assert "action.tool " + w == u + w[1..];
    TrailedToolMembership(w);
    TrailedIsMisspelt(w[0]);
    MisspeltNeverMatches(u, w[1..], context, tier, show);
  }

  lemma TrailedIsMisspelt(c: char)
    requires c == 'i' || c == 'a'
    ensures Misspelt("action.tool " + [c])
    ensures var u := "action.tool " + [c]; Absent('=', u) && Absent('!', u) && Absent('<', u) && Absent('>', u)
  {
    assert ("action.tool " + [c])[7] == 't' && ARGS[7] == 'a';
  }

  lemma TrailedToolMembership(w: string)
    requires w != "" && w[0] != ' ' && !("in " <= w)
    ensures FoundFrom("action.tool " + w, " in ", 13)
  {
    var v := " " + w;
    assert v[1..] == w;
    assert "action.tool" + v == "action.tool " + w;
    FindSkip("action.tool", v, " in ");
    assert w == [w[0]] + w[1..];
    FindSkip([w[0]], w[1..], " in ");
  }

  lemma ToolInUnspacedRead(list: string, engine: Engine)
    requires list == "" || list[0] != ' '
    ensures QuoteClause(TOOL_IN + list) == TOOL_IN + list
    ensures Migrated(TOOL_IN + list, engine) == "action.tool " + Reading("in" + list, engine)
    ensures var w := Reading("in" + list, engine); w != "" && (w[0] == 'i' || w[0] == 'a') && !("in " <= w)
  {
    UnspacedIsQuoted(list);
    ToolThenRead("in" + list);
    assert "action.tool " + ("in" + list) == TOOL_IN + list;
    UnspacedTail(list, engine);
  }

  lemma ToolThenRead(w: string)
    ensures ReadBack("action.tool " + w) == "action.tool " + ReadBack(w)
  {
    OutsideMarks();
    NoPInTool();
    ReadBackAfter("action.tool", ' ', w);
    assert "action.tool" + [' '] + w == "action.tool " + w;
    assert "action.tool" + [' '] + ReadBack(w) == "action.tool " + ReadBack(w);
  }

  lemma UnspacedTail(list: string, engine: Engine)
    requires list == "" || list[0] != ' '
    ensures var w := Reading("in" + list, engine); w != "" && (w[0] == 'i' || w[0] == 'a') && !("in " <= w)
  {
    ReadBackEnds("in" + list);
    if list != "" { assert ("in" + list)[2] == list[0]; }
    NotInReadsBack("in" + list);
  }

  lemma NoPInTool()
    ensures Absent('p', "action.tool")
  {
  }

  lemma UnspacedIsQuoted(list: string)
    requires list == "" || list[0] != ' '
    ensures QuoteClause(TOOL_IN + list) == TOOL_IN + list
  {
    ToolInIsNotEquality(list);
    ToolInUnspaced(list);
    MisspeltToolIs();
    MisspeltCut(TOOL_IN, list, " in ", CallOf(""), 0);
  }

  lemma ToolInUnspacedChanges(list: string, engine: Engine, show: Show)
    requires list == "" || list[0] != ' '
    ensures !SameMeaning(TOOL_IN + list, engine, show)
  {
    var clause, context := TOOL_IN + list, CallOf(LastName(ListItems(list)));
    ToolInUnspacedRead(list, engine);
    TrailedToolNeverMatches(Reading("in" + list, engine), context, 0, show);
    ToolInLegacy(list, context, 0);
    assert MatchesClause(clause, context, 0) != MatchesAdvancedClause(Migrated(clause, engine), context, 0, show);
  }

  // ----- A list whose names do not read back -----

  lemma TrimKeepsOut(s: string, p: string)
    requires p != "" && !Contains(s, p)
    ensures !Contains(Trim(s), p)
  {
    var i, j := StripCut(s, Space);
    if Contains(s[i..j], p) { ContainsSlice(s, i, j, p); }
  }

  lemma InnerKeepsOut(list: string, p: string)
    requires p != "" && !Contains(list, p)
    ensures !Contains(StripEnd(StripStart(Trim(list), One('[')), One(']')), p)
  {
    TrimKeepsOut(list, p);
    var t := Trim(list);
    var i := StripStartCut(t, One('['));
    var j := StripEndCut(t[i..], One(']'));
    assert t[i..][..j] == t[i..i + j];
    if Contains(t[i..i + j], p) { ContainsSlice(t, i, i + j, p); }
  }

  lemma ItemsKeepOut(list: string, p: string, n: nat)
    requires p != "" && !Contains(list, p) && n < |ListItems(list)|
    ensures !Contains(ListItems(list)[n], p)
  {
    var inner := StripEnd(StripStart(Trim(list), One('[')), One(']'));
    InnerKeepsOut(list, p);
    SplitPieces(inner, ",", n);
    var a, b :| 0 <= a <= b <= |inner| && ListItems(list)[n] == inner[a..b];
    if Contains(inner[a..b], p) { ContainsSlice(inner, a, b, p); }
  }

  function ReadItems(items: seq<string>): (r: seq<string>)
    ensures |r| == |items| && forall i :: 0 <= i < |r| ==> r[i] == ReadBack(items[i])
  {
    seq(|items|, i requires 0 <= i < |items| => ReadBack(items[i]))
  }

  lemma {:induction false} ReadJoined(items: seq<string>)
    ensures ReadBack(Join(items, ", ")) == Join(ReadItems(items), ", ")
  {
    if items == [] {
      NoPReadsBack("");
    } else if |items| > 1 {
      var rest := Join(items[1..], ", ");
      ReadJoined(items[1..]);
      OutsideMarks();
      assert items[0] + ", " + rest == items[0] + [','] + (" " + rest);
      assert " " + rest == "" + [' '] + rest;
      ReadBackAcross(items[0], ',', " " + rest);
      ReadBackAfter("", ' ', rest);
      assert ReadItems(items)[1..] == ReadItems(items[1..]);
      assert ReadBack(items[0]) + [','] + ("" + [' '] + ReadBack(rest)) == ReadBack(items[0]) + ", " + ReadBack(rest);
    }
  }

  lemma ReadBracketed(body: string)
    ensures ReadBack(TOOL_IN + (" " + ("[" + body + "]"))) == TOOL_IN + (" " + ("[" + ReadBack(body) + "]"))
  {
    OutsideMarks();
    NoPInToolIn();
    var tail := body + "]";
    assert TOOL_IN + (" " + ("[" + body + "]")) == (TOOL_IN + " ") + ['['] + tail;
    ReadBackAfter(TOOL_IN + " ", '[', tail);
    assert tail == body + [']'] + "";
    ReadBackAcross(body, ']', "");
    NoPReadsBack("");
    assert ReadBack(tail) == ReadBack(body) + "]";
    assert (TOOL_IN + " ") + ['['] + (ReadBack(body) + "]") == TOOL_IN + (" " + ("[" + ReadBack(body) + "]"));
  }

  lemma NoPInToolIn()
    ensures Absent('p', TOOL_IN + " ")
  {
  }

  lemma ToolInReread(list: string)
    requires list != "" && list[0] == ' '
    ensures Migrated(TOOL_IN + list, OpaCompat)
         == TOOL_IN + (" " + ("[" + Join(ReadItems(QuoteItems(ListItems(list))), ", ") + "]"))
  {
    ToolInQuoted(list);
    ReadBracketed(Join(QuoteItems(ListItems(list)), ", "));
    ReadJoined(QuoteItems(ListItems(list)));
  }

  lemma ReadFits(item: string)
    requires Fits(item)
    ensures Fits(ReadBack(item))
  {
    ReadBackEnds(item);
    var i := Occurrence(item, ",");
    assert !Contains(item, ",");
    ReadBackKeepsOut(item, ",");
    CharAbsent(ReadBack(item), ',');
  }

  /** The names the evaluator finds. */
  function RereadNames(list: string): seq<string> {
    Spaced(LastCut(ReadItems(QuoteItems(ListItems(list)))))
  }

  lemma ToolInRereads(list: string, context: PolicyContext, tier: u32, show: Show)
    requires list != "" && list[0] == ' '
    ensures MatchesAdvancedClause(Migrated(TOOL_IN + list, OpaCompat), context, tier, show)
        <==> Names(RereadNames(list), context.toolName)
  {
    var q := QuoteItems(ListItems(list));
    var r := ReadItems(q);
    ToolInReread(list);
    ToolInReads("[" + Join(r, ", ") + "]", context, tier, show);
    ItemsHaveNoComma(list);
    forall i | 0 <= i < |r| ensures Fits(r[i]) {
      QuotedItemFits(ListItems(list)[i]);
      ReadFits(q[i]);
    }
    FitsEnd(r[|r| - 1]);
    BracketedItems(r);
  }

  /** A name the evaluator finds that holds one of the two texts has lost a dot. */
  lemma RereadLoses(list: string, i: nat)
    requires i < |ListItems(list)|
    ensures !ReadsBack(TrimValue(RereadNames(list)[i])) ==>
              !ReadsBack(ListItems(list)[i]) && Dots(TrimValue(RereadNames(list)[i])) < Dots(ListItems(list)[i])
  {
    var item := ListItems(list)[i];
    var q := MaybeQuoteLiteral(Trim(item));
    var r := ReadItems(QuoteItems(ListItems(list)));
    assert r[i] == ReadBack(q);
    var cut := LastCut(r)[i];
    SpacedAt(LastCut(r), i);
    TrimValueOfSpaced(cut);
    LiteralLoses(item, cut);
  }

  lemma LiteralLoses(item: string, cut: string)
    requires var r := ReadBack(MaybeQuoteLiteral(Trim(item))); cut == r || cut == StripEnd(r, One(']'))
    ensures !ReadsBack(TrimValue(cut)) ==> !ReadsBack(item) && Dots(TrimValue(cut)) < Dots(item)
  {
    var q := MaybeQuoteLiteral(Trim(item));
    var r := ReadBack(q);
    CutReadsBack(r);
    CountStripEnd('.', r, One(']'));
    CountTrimValue('.', cut);
    TrimValueReadsBack(cut);
    QuotedReadsBack(Trim(item)); QuotedDots(Trim(item));
    SpaceOutside();
    StripReadsBack(item, Space);
    CountStrip('.', item, Space);
    DotsReadBack(q);
    ReadingIsSame(q);
  }

  lemma CutReadsBack(r: string)
    ensures ReadsBack(r) ==> ReadsBack(StripEnd(r, One(']')))
  {
    var n := StripEndCut(r, One(']'));
    assert r[..n] == r[0..n];
    if ReadsBack(r) { SliceReadsBack(r, 0, n); }
  }

  /** Of the items that do not read back, one with the most dots. */
  lemma {:induction false} MostDots(items: seq<string>) returns (m: nat)
    requires exists i :: 0 <= i < |items| && !ReadsBack(items[i])
    ensures m < |items| && !ReadsBack(items[m])
    ensures forall i :: 0 <= i < |items| && !ReadsBack(items[i]) ==> Dots(items[i]) <= Dots(items[m])
    decreases |items|
  {
    var last := |items| - 1;
    if exists i :: 0 <= i < last && !ReadsBack(items[i]) {
      var i :| 0 <= i < last && !ReadsBack(items[i]);
      assert items[..last][i] == items[i];
      m := MostDots(items[..last]);
      if !ReadsBack(items[last]) && Dots(items[last]) > Dots(items[m]) { m := last; }
      assert forall j :: 0 <= j < last ==> items[..last][j] == items[j];
    } else {
      m := last;
    }
  }

  lemma ListHasRenamed(list: string)
    requires !ReadsBack(list)
    ensures exists i :: 0 <= i < |ListItems(list)| && !ReadsBack(ListItems(list)[i])
  {
    var inner := StripEnd(StripStart(Trim(list), One('[')), One(']'));
    InnerReadsBack(list);
    OutsideMarks();
    if Contains(inner, INPUT_WHOLE_ARGS) {
      var n := SplitKeepsIn(inner, ',', INPUT_WHOLE_ARGS);
      assert !ReadsBack(ListItems(list)[n]);
    } else {
      var n := SplitKeepsIn(inner, ',', D.INPUT_TIER);
      assert !ReadsBack(ListItems(list)[n]);
    }
  }

  lemma InnerReadsBack(list: string)
    requires !ReadsBack(list)
    ensures !ReadsBack(StripEnd(StripStart(Trim(list), One('[')), One(']')))
  {
    SpaceOutside();
    StripReadsBack(list, Space);
    OutsideMarks();
    MarkOutside('['); MarkOutside(']');
    var t := Trim(list);
    StartReadsBack(t, One('['));
    EndReadsBack(StripStart(t, One('[')), One(']'));
  }

  lemma StartReadsBack(t: string, k: Class)
    requires !ReadsBack(t) && ClassOutside(k)
    ensures !ReadsBack(StripStart(t, k))
  {
    var i := StripStartCut(t, k);
    EndsOff(t[..i], t[i..], "", k);
    assert t[..i] + t[i..] + "" == t;
  }

  lemma EndReadsBack(t: string, k: Class)
    requires !ReadsBack(t) && ClassOutside(k)
    ensures !ReadsBack(StripEnd(t, k))
  {
    var j := StripEndCut(t, k);
    EndsOff("", t[..j], t[j..], k);
    assert "" + t[..j] + t[j..] == t;
  }

  lemma EndsOff(l: string, m: string, r: string, k: Class)
    requires k.All(l) && k.All(r) && ClassOutside(k)
    ensures !ReadsBack(l + m + r) ==> !ReadsBack(m)
  {
    if Contains(l + m + r, D.INPUT_TIER) { ContainsMiddle(l, m, r, D.INPUT_TIER); }
    if Contains(l + m + r, INPUT_WHOLE_ARGS) { ContainsMiddle(l, m, r, INPUT_WHOLE_ARGS); }
  }

  lemma ToolInRenamed(list: string, show: Show)
    requires list != "" && list[0] == ' ' && !ReadsBack(list)
    ensures !SameMeaning(TOOL_IN + list, OpaCompat, show)
  {
    var items := ListItems(list);
    ListHasRenamed(list);
    var m := MostDots(items);
    var name := TrimValue(items[m]);
    TrimValueReadsBack(items[m]);
    CountTrimValue('.', items[m]);
    NotReread(list, name, m);
    ToolInRereads(list, CallOf(name), 0, show);
    LegacyNames(list, CallOf(name), 0, m);
    assert MatchesClause(TOOL_IN + list, CallOf(name), 0) != MatchesAdvancedClause(Migrated(TOOL_IN + list, OpaCompat), CallOf(name), 0, show);
  }

  lemma NotReread(list: string, name: string, m: nat)
    requires m < |ListItems(list)| && !ReadsBack(name) && Dots(name) == Dots(ListItems(list)[m])
    requires forall i :: 0 <= i < |ListItems(list)| && !ReadsBack(ListItems(list)[i]) ==> Dots(ListItems(list)[i]) <= Dots(ListItems(list)[m])
    ensures !Names(RereadNames(list), name)
  {
    var r := RereadNames(list);
    forall item | item in r ensures TrimValue(item) != name {
      var i :| 0 <= i < |r| && r[i] == item;
      RereadLoses(list, i);
    }
  }

  lemma LegacyNames(list: string, context: PolicyContext, tier: u32, m: nat)
    requires m < |ListItems(list)| && TrimValue(ListItems(list)[m]) == context.toolName
    ensures MatchesClause(TOOL_IN + list, context, tier)
  {
    ToolInLegacy(list, context, tier);
    var items := ListItems(list);
    if m < |items| - 1 { assert items[m] in Others(items); }
  }

  lemma ToolInIntact(list: string)
    requires list != "" && list[0] == ' ' && ReadsBack(list)
    ensures Migrated(TOOL_IN + list, OpaCompat) == QuoteClause(TOOL_IN + list)
  {
    var q := QuoteItems(ListItems(list));
    ToolInReread(list);
    ToolInQuoted(list);
    forall i | 0 <= i < |q| ensures ReadBack(q[i]) == q[i] {
      ItemReadsBack(list, i);
      SpaceOutside();
      StripReadsBack(ListItems(list)[i], Space);
      QuotedReadsBack(Trim(ListItems(list)[i]));
      ReadingIsSame(q[i]);
    }
    assert ReadItems(q) == q;
  }

  lemma ItemReadsBack(list: string, n: nat)
    requires ReadsBack(list) && n < |ListItems(list)|
    ensures ReadsBack(ListItems(list)[n])
  {
    ItemsKeepOut(list, D.INPUT_TIER, n);
    ItemsKeepOut(list, INPUT_WHOLE_ARGS, n);
  }

  // ----- The exact condition -----

  lemma ToolInPlainly(list: string, engine: Engine, show: Show)
    requires list != "" && list[0] == ' ' && Migrated(TOOL_IN + list, engine) == QuoteClause(TOOL_IN + list)
    ensures SameMeaning(TOOL_IN + list, engine, show) <==> ToolInPreserved(list)
  {
    var clause, items := TOOL_IN + list, ListItems(list);
    var kept, cut := LastName(items), RequotedLastName(items);
    forall context: PolicyContext, tier: u32
      ensures MatchesClause(clause, context, tier)
          <==> Names(Others(items), context.toolName) || kept == context.toolName
      ensures MatchesAdvancedClause(Migrated(clause, engine), context, tier, show)
          <==> Names(Others(items), context.toolName) || cut == context.toolName
    {
      ToolInLegacy(list, context, tier);
      ToolInAdvanced(list, context, tier, show);
    }
    if SameMeaning(clause, engine, show) {
      assert MatchesClause(clause, CallOf(kept), 0) == MatchesAdvancedClause(Migrated(clause, engine), CallOf(kept), 0, show);
      assert MatchesClause(clause, CallOf(cut), 0) == MatchesAdvancedClause(Migrated(clause, engine), CallOf(cut), 0, show);
    }
  }

  /** A membership clause keeps its meaning exactly when it is so written, and
      reads back as it was. */
  lemma ToolInExactly(list: string, engine: Engine, show: Show)
    ensures SameMeaning(TOOL_IN + list, engine, show) <==> ToolInPreserved(list) && Intact(list, engine)
  {
    if list == "" || list[0] != ' ' {
      ToolInUnspacedChanges(list, engine, show);
    } else if !Intact(list, engine) {
      ToolInRenamed(list, show);
    } else {
      if engine == OpaCompat { ToolInIntact(list); }
      ToolInPlainly(list, engine, show);
    }
  }
}
