/** How a whole condition is cut into clauses, before and after migration. */
module ClauseSplit {
  import opened Text
  import opened Evaluator
  import opened Migrate
  import opened ClauseShapes
  import opened ClauseLists

  /** The pieces between `&&` and `AND`, read greedily from the left. */
  function Pieces(c: string): (r: seq<string>)
    ensures r != []
  {
    if c == "" then [""]
    else if "&&" <= c then [""] + Pieces(c[2..])
    else if "AND" <= c then [""] + Pieces(c[3..])
    else ConsHead(c[0], Pieces(c[1..]))
  }

  /** No single `&` stands directly before an `AND`. */
  predicate SplitSafe(c: string) {
    if c == "" then true
    else if "&&" <= c then SplitSafe(c[2..])
    else if "AND" <= c then SplitSafe(c[3..])
    else !(c[0] == '&' && "AND" <= c[1..]) && SplitSafe(c[1..])
  }

  // ----- The legacy split -----

  function Spread(c: string): string {
    Replace(c, "&&", " AND ")
  }

  /** The same pieces up to outer blanks; the first one only at its end. */
  predicate SamePieces(a: seq<string>, b: seq<string>) {
    && |a| == |b| > 0
    && (a[0] == b[0] || a[0] == b[0] + " ")
    && forall i :: 0 <= i < |a| ==> Trim(a[i]) == Trim(b[i])
  }

  lemma TrimAfterBlank(s: string)
    ensures Trim(s + " ") == Trim(s) && Trim(" " + s) == Trim(s)
  {
    StripPad("", s, " ", Space);
    assert "" + s + " " == s + " ";
    TrimValueOfSpaced(s);
  }

  lemma SameAfterChar(c: char, a: seq<string>, b: seq<string>)
    requires SamePieces(a, b)
    ensures SamePieces(ConsHead(c, a), ConsHead(c, b))
  {
    assert [c] + (b[0] + " ") == [c] + b[0] + " ";
    TrimAfterBlank([c] + b[0]);
  }

  lemma SameAfterSeparator(a: seq<string>, b: seq<string>)
    requires SamePieces(a, b)
    ensures SamePieces([" ", " " + a[0]] + a[1..], [""] + b)
    ensures SamePieces([""] + a, [""] + b)
  {
    var r := [" ", " " + a[0]] + a[1..];
    assert "" + " " == " ";
    TrimAfterBlank(""); TrimAfterBlank(a[0]);
    forall i | 0 <= i < |r| ensures Trim(r[i]) == Trim(([""] + b)[i]) {
      if i > 1 { assert r[i] == a[i - 1]; }
    }
  }

  lemma {:induction false} LegacyPieces(c: string)
    ensures SamePieces(Split(Spread(c), "AND"), Pieces(c))
  {
    if c == "" {
    } else if "&&" <= c {
      LegacyPieces(c[2..]);
      SplitSeparator(Spread(c[2..]));
      SameAfterSeparator(Split(Spread(c[2..]), "AND"), Pieces(c[2..]));
    } else if "AND" <= c {
      LegacyPieces(c[3..]);
      assert c == "AND" + c[3..];
      ReplaceSkip("AND", c[3..], "&&", " AND ");
      assert ("AND" + Spread(c[3..]))[3..] == Spread(c[3..]);
      SameAfterSeparator(Split(Spread(c[3..]), "AND"), Pieces(c[3..]));
    } else {
      if "AND" <= Spread(c) { UnreplacedPrefix(c, "&&", " AND ", "AND"); }
      LegacyPieces(c[1..]);
      assert Spread(c)[1..] == Spread(c[1..]);
      SameAfterChar(c[0], Split(Spread(c[1..]), "AND"), Pieces(c[1..]));
    }
  }

  lemma SplitSeparator(s: string)
    ensures Split(" AND " + s, "AND") == [" ", " " + Split(s, "AND")[0]] + Split(s, "AND")[1..]
  {
    var v := " " + s;
    var u := "AND" + v;
    assert " AND " + s == " " + u;
    assert u[3..] == v;
    SplitBlank(s); SplitBlank(u);
    assert Split(u, "AND") == [""] + Split(v, "AND");
    assert " " + "" == " ";
  }

  lemma SplitBlank(s: string)
    ensures Split(" " + s, "AND") == [" " + Split(s, "AND")[0]] + Split(s, "AND")[1..]
  {
    assert (" " + s)[0] == ' ' && (" " + s)[1..] == s;
  }

  lemma SplitClausesAre(c: string)
    ensures SplitClauses(c) == NonEmpty(TrimAll(Pieces(c)))
  {
    LegacyPieces(c);
    assert TrimAll(Split(Spread(c), "AND")) == TrimAll(Pieces(c));
  }

  // ----- The migrated split -----

  /** The first of the translator's two replacements is absorbed by the second. */
  lemma SpacedReplacement(d: string)
    requires Replace(Replace(d, " AND ", " && "), "AND", "&&") == Replace(d, "AND", "&&")
    ensures Replace(Replace(" AND " + d, " AND ", " && "), "AND", "&&") == Replace(" AND " + d, "AND", "&&")
  {
    var c, u := " AND " + d, Replace(d, " AND ", " && ");
    assert c[5..] == d;
    ReplaceSkip(" && ", u, "AND", "&&"); ReplaceSkip(" ", d, "AND", "&&");
    assert c[1..] == "AND" + (" " + d) && c[1..][3..] == " " + d;
    assert Replace(c, "AND", "&&") == " " + ("&&" + (" " + Replace(d, "AND", "&&")));
  }

  lemma {:induction false} OneReplacement(c: string)
    ensures Replace(Replace(c, " AND ", " && "), "AND", "&&") == Replace(c, "AND", "&&")
  {
    var t := Replace(c, " AND ", " && ");
    if c == "" {
    } else if " AND " <= c {
      OneReplacement(c[5..]);
      assert c == " AND " + c[5..];
      SpacedReplacement(c[5..]);
    } else if "AND" <= c {
      OneReplacement(c[3..]);
      assert c == "AND" + c[3..];
      ReplaceSkip("AND", c[3..], " AND ", " && ");
      assert t[3..] == Replace(c[3..], " AND ", " && ");
    } else {
      if "AND" <= t { UnreplacedPrefix(c, " AND ", " && ", "AND"); }
      OneReplacement(c[1..]);
    }
  }

  lemma {:induction false} MigratedPieces(c: string)
    requires SplitSafe(c)
    ensures Split(Replace(c, "AND", "&&"), "&&") == Pieces(c)
  {
    var t := Replace(c, "AND", "&&");
    if c == "" {
    } else if "&&" <= c {
      MigratedPieces(c[2..]);
      assert c == "&&" + c[2..];
      ReplaceSkip("&&", c[2..], "AND", "&&");
      assert t[2..] == Replace(c[2..], "AND", "&&");
    } else if "AND" <= c {
      MigratedPieces(c[3..]);
      assert t[2..] == Replace(c[3..], "AND", "&&");
    } else {
      MigratedPieces(c[1..]);
      var d := c[1..];
      assert t[1..] == Replace(d, "AND", "&&");
      assert c == [c[0]] + d;
      if c[0] == '&' && d != "" { assert d[0] != '&'; }
      assert !("&&" <= t);
    }
  }

  // ----- What a piece, and its translation, cannot contain -----

  lemma {:induction false} PieceIsSlice(c: string, n: nat)
    requires n < |Pieces(c)|
    ensures exists i, j :: 0 <= i <= j <= |c| && Pieces(c)[n] == c[i..j]
    ensures n == 0 ==> Pieces(c)[0] <= c
    ensures !Contains(Pieces(c)[n], "&&") && !Contains(Pieces(c)[n], "AND")
  {
    if c == "" {
      assert c[0..0] == "";
    } else if "&&" <= c || "AND" <= c {
      var k := if "&&" <= c then 2 else 3;
      if n == 0 {
        assert c[0..0] == "";
      } else {
        PieceIsSlice(c[k..], n - 1);
        SliceShift(c, k, Pieces(c)[n]);
      }
    } else {
      PieceIsSlice(c[1..], n);
      if n > 0 {
        SliceShift(c, 1, Pieces(c)[n]);
      } else {
        var h := Pieces(c)[0];
        assert c == [c[0]] + c[1..];
        assert h == c[0..|h|];
        ContainsCons(c[0], Pieces(c[1..])[0], "&&");
        ContainsCons(c[0], Pieces(c[1..])[0], "AND");
        assert [c[0]] + Pieces(c[1..])[0] == h;
        assert !("&&" <= h) && !("AND" <= h);
      }
    }
  }

  lemma SliceShift(c: string, k: nat, s: string)
    requires k <= |c| && exists i, j :: 0 <= i <= j <= |c[k..]| && s == c[k..][i..j]
    ensures exists i, j :: 0 <= i <= j <= |c| && s == c[i..j]
  {
    var i, j :| 0 <= i <= j <= |c[k..]| && s == c[k..][i..j];
    assert c[k..][i..j] == c[k + i..k + j];
  }

  predicate Unpunctuated(p: string) {
    forall i :: 0 <= i < |p| ==> p[i] != ' ' && p[i] != ',' && p[i] != '"' && p[i] != '[' && p[i] != ']'
  }

  /** A pattern that the translator's own text can take no part in. */
  predicate Solid(p: string) {
    && p != "" && Unpunctuated(p)
    && !Contains("action.tool", p) && !Contains("==", p) && !Contains("in", p)
  }

  lemma {:induction false} JoinKeepsOut(items: seq<string>, a: char, p: string)
    requires p != "" && Absent(' ', p) && Absent(a, p)
    requires forall i :: 0 <= i < |items| ==> !Contains(items[i], p)
    ensures !Contains(Join(items, [a] + " "), p)
  {
    FindMeets("", p);
    if |items| > 1 {
      var rest := Join(items[1..], [a] + " ");
      JoinKeepsOut(items[1..], a, p);
      ContainsAcross("", ' ', rest, p);
      assert "" + [' '] + rest == " " + rest;
      ContainsAcross(items[0], a, " " + rest, p);
      assert items[0] + [a] + (" " + rest) == items[0] + ([a] + " ") + rest;
    }
  }

  lemma LiteralKeepsOut(value: string, p: string)
    requires p != "" && Absent('"', p) && !Contains(value, p)
    ensures !Contains(MaybeQuoteLiteral(Trim(value)), p)
  {
    TrimKeepsOut(value, p);
    StripIdempotent(value, Space);
    QuotedContains(Trim(value), p);
  }

  lemma BracketsKeepOut(body: string, p: string)
    requires Solid(p) && !Contains(body, p)
    ensures !Contains("[" + body + "]", p)
  {
    FindMeets("", p);
    ContainsAcross("", '[', body, p);
    assert "" + ['['] + body == "[" + body;
    ContainsAcross("[" + body, ']', "", p);
    assert "[" + body + [']'] + "" == "[" + body + "]";
  }

  lemma QuotedListKeepsOut(list: string, p: string)
    requires Solid(p) && !Contains(list, p)
    ensures !Contains(Rewritten(list), p)
  {
    var q := QuoteItems(ListItems(list));
    forall n | 0 <= n < |q| ensures !Contains(q[n], p) {
      ItemsKeepOut(list, p, n);
      LiteralKeepsOut(ListItems(list)[n], p);
    }
    assert ", " == [','] + " ";
    JoinKeepsOut(q, ',', p);
    BracketsKeepOut(Join(q, ", "), p);
  }

  lemma MemberText(list: string)
    ensures "action.tool in [" + Join(QuoteItems(ListItems(list)), ", ") + "]" == "action.tool " + "in" + " " + Rewritten(list)
  {
    MemberWords();
    Bracketed("action.tool in [", "action.tool " + "in" + " ", Join(QuoteItems(ListItems(list)), ", "));
  }

  lemma MemberWords()
    ensures "action.tool in [" == "action.tool " + "in" + " " + "["
  {
  }

  lemma Bracketed(head: string, words: string, body: string)
    requires head == words + "["
    ensures head + body + "]" == words + ("[" + body + "]")
  {
  }

  /** The translation of a clause contains no solid pattern the clause does not. */
  lemma QuoteKeepsOut(clause: string, p: string)
    requires Solid(p) && !Contains(clause, p)
    ensures !Contains(QuoteClause(clause), p)
  {
    var equal, member := ToolOperand(clause, "=="), ToolOperand(clause, " in ");
    if equal.Some? {
      OperandKeepsOut(clause, "==", p);
      LiteralKeepsOut(equal.value, p);
      WordsKeepOut("==", MaybeQuoteLiteral(Trim(equal.value)), p);
      assert "action.tool " + "==" + " " == "action.tool == ";
    } else if member.Some? {
      OperandKeepsOut(clause, " in ", p);
      QuotedListKeepsOut(member.value, p);
      WordsKeepOut("in", Rewritten(member.value), p);
      MemberText(member.value);
    }
  }

  lemma OperandKeepsOut(clause: string, operator: string, p: string)
    requires p != "" && operator != "" && !Contains(clause, p) && ToolOperand(clause, operator).Some?
    ensures !Contains(ToolOperand(clause, operator).value, p)
  {
    FindMeets(clause, operator);
    var i := Find(clause, operator).value + |operator|;
    assert clause[i..] == clause[i..|clause|];
    if Contains(clause[i..], p) { ContainsSlice(clause, i, |clause|, p); }
  }

  lemma WordsKeepOut(word: string, rest: string, p: string)
    requires Solid(p) && !Contains(word, p) && !Contains(rest, p)
    ensures !Contains("action.tool " + word + " " + rest, p)
  {
    ContainsAcross(word, ' ', rest, p);
    var w := word + [' '] + rest;
    ContainsAcross("action.tool", ' ', w, p);
    assert "action.tool" + [' '] + w == "action.tool " + word + " " + rest;
  }

  lemma NoFirst(s: string, p: string)
    requires p != "" && Absent(p[0], s)
    ensures !Contains(s, p)
  {
    FindSkip(s, "", p);
    assert s + "" == s;
  }

  lemma SolidByFirst(p: string)
    requires p != "" && Unpunctuated(p)
    requires Absent(p[0], "action.tool") && Absent(p[0], "==") && Absent(p[0], "in")
    ensures Solid(p)
  {
    NoFirst("action.tool", p); NoFirst("==", p); NoFirst("in", p);
  }

  lemma QuotedClauseIsTrimmed(clause: string)
    requires Bare(clause, Space)
    ensures Trim(QuoteClause(clause)) == QuoteClause(clause)
    ensures QuoteClause(clause) == "" <==> clause == ""
  {
    if ToolOperand(clause, "==").Some? { QuotedIsBare(Trim(ToolOperand(clause, "==").value)); }
    FindMeets("", "=="); FindMeets("", " in ");
    StripBare(QuoteClause(clause), Space);
  }
}
