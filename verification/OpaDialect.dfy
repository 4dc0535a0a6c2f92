/** The OPA-style dialect: the translator writes it with three replacements, the
    evaluator reads it with four. */
module OpaDialect {
  import opened Text
  import opened PolicyTypes
  import opened Evaluator
  import opened Migrate

  const TOOL := "action.tool"
  const ARGS_DOT := "action.args."
  const TIER := "agent_tier"
  const INPUT_TOOL := "input.action.tool"
  const INPUT_ARGS := "input.action.args."
  const INPUT_TIER := "input.agent.tier"

  // ----- Texts that cannot overlap -----

  predicate Differ(a: string, b: string) {
    exists i :: 0 <= i < |a| && i < |b| && a[i] != b[i]
  }

  /** The pattern cannot start inside the text, whatever follows the text. */
  predicate Foreign(p: string, text: string) {
    forall i :: 0 <= i < |text| ==> Differ(p, text[i..])
  }

  /** The text cannot start strictly inside the pattern. */
  predicate Straddles(p: string, text: string) {
    exists j :: 0 < j < |p| && !Differ(p[j..], text)
  }

  lemma {:induction false} ReplaceOver(u: string, w: string, p: string, r: string)
    requires p != "" && Foreign(p, u)
    ensures Replace(u + w, p, r) == u + Replace(w, p, r)
  {
    if u == "" {
      assert u + w == w;
    } else {
      var s := u + w;
      assert u[0..] == u;
      var i :| 0 <= i < |p| && i < |u| && p[i] != u[i];
      assert s[i] == u[i];
      assert s[1..] == u[1..] + w && s[0] == u[0];
      forall k | 0 <= k < |u[1..]| ensures Differ(p, u[1..][k..]) {
        assert u[1..][k..] == u[k + 1..];
      }
      ReplaceOver(u[1..], w, p, r);
    }
  }

  // ----- An expression as characters and names -----

  /** The three names, and the one text of the input that reads as a fourth. */
  datatype Token = Ch(c: char) | Tool | Args | Tier | Foreigner

  /** Which names are in their `input.` form; the fourth text, once read back,
      has turned into the plain tier name. */
  datatype Mode = Mode(tool: bool, args: bool, tier: bool, readBack: bool)

  const PLAIN := Mode(false, false, false, false)
  const TOOLED := Mode(true, false, false, false)
  const ARGED := Mode(true, true, false, false)
  const OPA := Mode(true, true, true, false)
  const UNTOOLED := Mode(false, true, true, false)
  const UNTIERED := Mode(false, true, false, true)
  const READ_BACK := Mode(false, false, false, true)

  function TextOf(t: Token, m: Mode): string {
    match t
    case Ch(c) => [c]
    case Tool => if m.tool then INPUT_TOOL else TOOL
    case Args => if m.args then INPUT_ARGS else ARGS_DOT
    case Tier => if m.tier then INPUT_TIER else TIER
    case Foreigner => if m.readBack then TIER else INPUT_TIER
  }

  function Render(tokens: seq<Token>, m: Mode): string {
    if tokens == [] then "" else TextOf(tokens[0], m) + Render(tokens[1..], m)
  }

  function Scan(e: string): seq<Token> {
    if e == "" then []
    else if TOOL <= e then [Tool] + Scan(e[|TOOL|..])
    else if ARGS_DOT <= e then [Args] + Scan(e[|ARGS_DOT|..])
    else if TIER <= e then [Tier] + Scan(e[|TIER|..])
    else if INPUT_TIER <= e then [Foreigner] + Scan(e[|INPUT_TIER|..])
    else [Ch(e[0])] + Scan(e[1..])
  }

  predicate OpensName(e: string) {
    TOOL <= e || ARGS_DOT <= e || TIER <= e || INPUT_TIER <= e
  }

  /** No name starts at a token that is a mere character. */
  predicate Tight(tokens: seq<Token>) {
    tokens != [] ==> (tokens[0].Ch? ==> !OpensName(Render(tokens, PLAIN))) && Tight(tokens[1..])
  }

  lemma ScanStep(e: string)
    requires e != ""
    ensures var t := Scan(e)[0]; var text := TextOf(t, PLAIN);
            text != "" && text <= e && Scan(e) == [t] + Scan(e[|text|..]) && (t.Ch? ==> !OpensName(e))
  {
  }

  lemma {:induction false} ScanRenders(e: string)
    ensures Render(Scan(e), PLAIN) == e && Tight(Scan(e))
  {
    if e != "" {
      ScanStep(e);
      var text := TextOf(Scan(e)[0], PLAIN);
      ScanRenders(e[|text|..]);
      assert e == text + e[|text|..];
    }
  }

  // ----- One replacement -----

  /** A pattern found across character tokens is made of characters alone. */
  lemma {:induction false} MatchIsChars(tokens: seq<Token>, m: Mode, p: string, j: nat)
    requires 0 < j <= |p| && p[j..] <= Render(tokens, m)
    requires forall t: Token :: !t.Ch? ==> !Straddles(p, TextOf(t, m))
    ensures |p| - j <= |tokens| && forall n :: 0 <= n < |p| - j ==> tokens[n].Ch?
    ensures p[j..] <= Render(tokens, PLAIN)
  {
    if j < |p| {
      var q, s := p[j..], Render(tokens, m);
      var text := TextOf(tokens[0], m);
      assert s[..|text|] == text;
      assert !Differ(q, text);
      assert tokens[0].Ch?;
      assert q[1..] == p[j + 1..] && s[1..] == Render(tokens[1..], m);
      MatchIsChars(tokens[1..], m, p, j + 1);
      assert q == [q[0]] + q[1..];
      assert Render(tokens, PLAIN) == [q[0]] + Render(tokens[1..], PLAIN);
    }
  }

  /** Between two modes the pattern and its replacement are exactly what differs,
      and the pattern overlaps no other name. */
  ghost predicate Steps(m: Mode, p: string, r: string, m': Mode) {
    && |p| > 1 && StepsAt(Tool, m, p, r, m') && StepsAt(Args, m, p, r, m')
    && StepsAt(Tier, m, p, r, m') && StepsAt(Foreigner, m, p, r, m')
  }

  lemma StepsEverywhere(m: Mode, p: string, r: string, m': Mode)
    requires Steps(m, p, r, m')
    ensures forall t: Token :: !t.Ch? ==> StepsAt(t, m, p, r, m')
  {
    forall t: Token | !t.Ch? ensures StepsAt(t, m, p, r, m') {
      match t
      case Tool => case Args => case Tier => case Foreigner =>
    }
  }

  predicate StepsAt(t: Token, m: Mode, p: string, r: string, m': Mode)
    requires |p| > 1
  {
    && !Straddles(p, TextOf(t, m))
    && if TextOf(t, m) == p then TextOf(t, m') == r
       else Foreign(p, TextOf(t, m)) && TextOf(t, m') == TextOf(t, m)
  }

  /** The pattern opens a name, or does so after "input.". */
  predicate Named(p: string) {
    OpensName(p) || (|p| > 6 && OpensName(p[6..]))
  }

  lemma OpensLonger(a: string, b: string)
    requires a <= b && OpensName(a)
    ensures OpensName(b)
  {
  }

  lemma {:induction false} TightAfter(tokens: seq<Token>, n: nat)
    requires Tight(tokens) && n <= |tokens| && forall i :: 0 <= i < n ==> tokens[i].Ch?
    ensures Tight(tokens[n..])
    ensures n <= |Render(tokens, PLAIN)| && Render(tokens, PLAIN)[n..] == Render(tokens[n..], PLAIN)
  {
    if n == 0 {
      assert tokens[0..] == tokens;
    } else {
      TightAfter(tokens[1..], n - 1);
      assert tokens[1..][n - 1..] == tokens[n..];
      var s := Render(tokens, PLAIN);
      assert s == [s[0]] + Render(tokens[1..], PLAIN);
      assert s[n..] == s[1..][n - 1..];
    }
  }

  /** Characters alone never spell a pattern that opens a name at its start or after "input.". */
  lemma CharsSpellNoName(tokens: seq<Token>, p: string)
    requires Tight(tokens) && 1 < |p| <= |tokens| && Named(p)
    requires forall n :: 0 <= n < |p| ==> tokens[n].Ch?
    ensures !(p <= Render(tokens, PLAIN))
  {
    NamedOpens(p, Render(tokens, PLAIN));
    if |p| > 6 { OpensNoneLater(tokens); }
  }

  lemma OpensNoneLater(tokens: seq<Token>)
    requires Tight(tokens) && |tokens| > 6 && forall n :: 0 <= n <= 6 ==> tokens[n].Ch?
    ensures |Render(tokens, PLAIN)| >= 6 ==> !OpensName(Render(tokens, PLAIN)[6..])
  {
    TightAfter(tokens, 6);
    assert tokens[6..][0] == tokens[6];
  }

  lemma NamedOpens(p: string, s: string)
    requires Named(p)
    ensures p <= s ==> OpensName(s) || (6 < |p| <= |s| && OpensName(s[6..]))
  {
    if p <= s {
      if OpensName(p) { OpensLonger(p, s); } else { OpensLater(p, s); }
    }
  }

  lemma OpensLater(p: string, s: string)
    requires p <= s && |p| > 6 && OpensName(p[6..])
    ensures OpensName(s[6..])
  {
    assert s[6..][..|p| - 6] == p[6..];
    OpensLonger(p[6..], s[6..]);
  }

  /** At a character token no named pattern matches, in any mode it cannot straddle. */
  lemma NoMatchAtChar(tokens: seq<Token>, m: Mode, p: string)
    requires tokens != [] && tokens[0].Ch? && Tight(tokens) && |p| > 1 && Named(p)
    requires forall t: Token :: !t.Ch? ==> !Straddles(p, TextOf(t, m))
    ensures !(p <= Render(tokens, m))
  {
    if p <= Render(tokens, m) {
      assert Render(tokens, m)[1..] == Render(tokens[1..], m);
      MatchIsChars(tokens[1..], m, p, 1);
      forall n | 0 <= n < |p| ensures tokens[n].Ch? {
        if n > 0 { assert tokens[n] == tokens[1..][n - 1]; }
      }
      assert p == [p[0]] + p[1..];
      assert p <= Render(tokens, PLAIN);
      CharsSpellNoName(tokens, p);
    }
  }

  lemma ReplaceAtChar(tokens: seq<Token>, m: Mode, p: string, r: string, m': Mode)
    requires tokens != [] && tokens[0].Ch? && p != "" && !(p <= Render(tokens, m))
    requires Replace(Render(tokens[1..], m), p, r) == Render(tokens[1..], m')
    ensures Replace(Render(tokens, m), p, r) == Render(tokens, m')
  {
    assert Render(tokens, m)[1..] == Render(tokens[1..], m);
  }

  lemma ReplaceAtName(tokens: seq<Token>, m: Mode, p: string, r: string, m': Mode)
    requires tokens != [] && |p| > 1 && StepsAt(tokens[0], m, p, r, m')
    requires Replace(Render(tokens[1..], m), p, r) == Render(tokens[1..], m')
    ensures Replace(Render(tokens, m), p, r) == Render(tokens, m')
  {
    var text, rest := TextOf(tokens[0], m), Render(tokens[1..], m);
    if text == p {
      assert (p + rest)[|p|..] == rest;
    } else {
      ReplaceOver(text, rest, p, r);
    }
  }

  lemma {:induction false} ReplaceRendered(tokens: seq<Token>, m: Mode, p: string, r: string, m': Mode)
    requires Tight(tokens) && Steps(m, p, r, m') && Named(p)
    ensures Replace(Render(tokens, m), p, r) == Render(tokens, m')
    decreases |tokens|
  {
    if tokens != [] {
      ReplaceRendered(tokens[1..], m, p, r, m');
      StepsEverywhere(m, p, r, m');
      if tokens[0].Ch? {
        NoMatchAtChar(tokens, m, p);
        ReplaceAtChar(tokens, m, p, r, m');
      } else {
        ReplaceAtName(tokens, m, p, r, m');
      }
    }
  }

  // ----- The names overlap nowhere -----

  /** Shifted by i, the pattern differs from the text at its first, second or k-th character. */
  predicate ShiftDiffers(p: string, text: string, k: nat, i: nat)
    requires |p| > 1 && i < |text|
  {
    || p[0] != text[i] || (i + 1 < |text| && p[1] != text[i + 1])
    || (k < |p| && i + k < |text| && p[k] != text[i + k])
  }

  lemma DifferAt(a: string, b: string, i: nat)
    requires i < |a| && i < |b| && a[i] != b[i]
    ensures Differ(a, b)
  {
  }

  lemma ForeignBy(p: string, text: string, k: nat)
    requires |p| > 1 && forall i: nat :: i < |text| ==> ShiftDiffers(p, text, k, i)
    ensures Foreign(p, text)
  {
    forall i | 0 <= i < |text| ensures Differ(p, text[i..]) {
      assert ShiftDiffers(p, text, k, i);
      DifferAt(p, text[i..],
        if p[0] != text[i] then 0 else if i + 1 < |text| && p[1] != text[i + 1] then 1 else k);
    }
  }

  lemma StraddlesBy(p: string, text: string, k: nat)
    requires |text| > 1 && forall j: nat :: 0 < j < |p| ==> ShiftDiffers(text, p, k, j)
    ensures !Straddles(p, text)
  {
    forall j | 0 < j < |p| ensures Differ(p[j..], text) {
      assert ShiftDiffers(text, p, k, j);
      DifferAt(p[j..], text,
        if p[j] != text[0] then 0 else if j + 1 < |p| && p[j + 1] != text[1] then 1 else k);
    }
  }

  /** A name that is not the pattern, and stays. */
  lemma Leaves(t: Token, m: Mode, p: string, r: string, m': Mode, k: nat, l: nat)
    requires |p| > 1 && |TextOf(t, m)| > 1 && |TextOf(t, m)| != |p| && TextOf(t, m') == TextOf(t, m)
    requires forall i: nat :: i < |TextOf(t, m)| ==> ShiftDiffers(p, TextOf(t, m), k, i)
    requires forall j: nat :: 0 < j < |p| ==> ShiftDiffers(TextOf(t, m), p, l, j)
    ensures StepsAt(t, m, p, r, m')
  {
    ForeignBy(p, TextOf(t, m), k);
    StraddlesBy(p, TextOf(t, m), l);
  }

  /** The name the pattern replaces. */
  lemma Turns(t: Token, m: Mode, p: string, r: string, m': Mode, l: nat)
    requires |p| > 1 && TextOf(t, m) == p && TextOf(t, m') == r
    requires forall j: nat :: 0 < j < |p| ==> ShiftDiffers(p, p, l, j)
    ensures StepsAt(t, m, p, r, m')
  {
    StraddlesBy(p, p, l);
  }

  lemma StepTool()
    ensures Steps(PLAIN, TOOL, INPUT_TOOL, TOOLED)
  {
    Turns(Tool, PLAIN, TOOL, INPUT_TOOL, TOOLED, 1);
    Leaves(Args, PLAIN, TOOL, INPUT_TOOL, TOOLED, 7, 1);
    Leaves(Tier, PLAIN, TOOL, INPUT_TOOL, TOOLED, 1, 1);
    Leaves(Foreigner, PLAIN, TOOL, INPUT_TOOL, TOOLED, 1, 1);
  }

  lemma StepArgs()
    ensures Steps(TOOLED, ARGS_DOT, INPUT_ARGS, ARGED)
  {
    Leaves(Tool, TOOLED, ARGS_DOT, INPUT_ARGS, ARGED, 7, 1);
    Turns(Args, TOOLED, ARGS_DOT, INPUT_ARGS, ARGED, 1);
    Leaves(Tier, TOOLED, ARGS_DOT, INPUT_ARGS, ARGED, 1, 1);
    Leaves(Foreigner, TOOLED, ARGS_DOT, INPUT_ARGS, ARGED, 1, 1);
  }

  lemma StepTier()
    ensures Steps(ARGED, TIER, INPUT_TIER, OPA)
  {
    Leaves(Tool, ARGED, TIER, INPUT_TIER, OPA, 1, 1);
    Leaves(Args, ARGED, TIER, INPUT_TIER, OPA, 1, 1);
    Turns(Tier, ARGED, TIER, INPUT_TIER, OPA, 1);
    Leaves(Foreigner, ARGED, TIER, INPUT_TIER, OPA, 5, 1);
  }

  lemma StepToolBack()
    ensures Steps(OPA, INPUT_TOOL, TOOL, UNTOOLED)
  {
    Turns(Tool, OPA, INPUT_TOOL, TOOL, UNTOOLED, 1);
    Leaves(Args, OPA, INPUT_TOOL, TOOL, UNTOOLED, 13, 1);
    Leaves(Tier, OPA, INPUT_TOOL, TOOL, UNTOOLED, 7, 1);
    Leaves(Foreigner, OPA, INPUT_TOOL, TOOL, UNTOOLED, 7, 1);
  }

  lemma StepTierBack()
    ensures Steps(UNTOOLED, INPUT_TIER, TIER, UNTIERED)
  {
    Leaves(Tool, UNTOOLED, INPUT_TIER, TIER, UNTIERED, 1, 1);
    Leaves(Args, UNTOOLED, INPUT_TIER, TIER, UNTIERED, 7, 1);
    Turns(Tier, UNTOOLED, INPUT_TIER, TIER, UNTIERED, 1);
    Turns(Foreigner, UNTOOLED, INPUT_TIER, TIER, UNTIERED, 1);
  }

  lemma StepArgsBack()
    ensures Steps(UNTIERED, INPUT_ARGS, ARGS_DOT, READ_BACK)
  {
    Leaves(Tool, UNTIERED, INPUT_ARGS, ARGS_DOT, READ_BACK, 1, 7);
    Turns(Args, UNTIERED, INPUT_ARGS, ARGS_DOT, READ_BACK, 1);
    Leaves(Tier, UNTIERED, INPUT_ARGS, ARGS_DOT, READ_BACK, 1, 1);
    Leaves(Foreigner, UNTIERED, INPUT_ARGS, ARGS_DOT, READ_BACK, 1, 1);
  }

  // ----- The round trip -----

  lemma NameOver(t: Token, rest: string)
    requires !t.Ch? && t != Foreigner
    ensures Contains(TextOf(t, PLAIN) + rest, INPUT_TIER) <==> Contains(rest, INPUT_TIER)
  {
    NamesAreForeign();
    FindOver(TextOf(t, PLAIN), rest, INPUT_TIER);
  }

  lemma NotContainedCons(c: char, s: string, p: string)
    requires p != "" && !(p <= [c] + s) && !Contains(s, p)
    ensures !Contains([c] + s, p)
  {
    assert ([c] + s)[1..] == s;
  }

  lemma {:induction false} NoForeignerNoText(tokens: seq<Token>)
    requires Tight(tokens) && Foreigner !in tokens
    ensures !Contains(Render(tokens, PLAIN), INPUT_TIER)
  {
    if tokens != [] {
      var text, rest := TextOf(tokens[0], PLAIN), Render(tokens[1..], PLAIN);
      NoForeignerNoText(tokens[1..]);
      if tokens[0].Ch? {
        NotContainedCons(tokens[0].c, rest, INPUT_TIER);
      } else {
        NameOver(tokens[0], rest);
      }
    }
  }

  lemma NamesAreForeign()
    ensures Foreign(INPUT_TIER, TOOL) && Foreign(INPUT_TIER, ARGS_DOT) && Foreign(INPUT_TIER, TIER)
  {
    ForeignBy(INPUT_TIER, TOOL, 1); ForeignBy(INPUT_TIER, ARGS_DOT, 1); ForeignBy(INPUT_TIER, TIER, 1);
  }

  lemma {:induction false} FindOver(u: string, w: string, p: string)
    requires p != "" && Foreign(p, u)
    ensures Contains(u + w, p) <==> Contains(w, p)
  {
    if u == "" {
      assert u + w == w;
    } else {
      var s := u + w;
      assert u[0..] == u;
      var i :| 0 <= i < |p| && i < |u| && p[i] != u[i];
      assert s[i] == u[i];
      assert s[1..] == u[1..] + w;
      forall k | 0 <= k < |u[1..]| ensures Differ(p, u[1..][k..]) {
        assert u[1..][k..] == u[k + 1..];
      }
      FindOver(u[1..], w, p);
    }
  }

  lemma {:induction false} ReadBackLength(tokens: seq<Token>)
    ensures |Render(tokens, READ_BACK)| <= |Render(tokens, PLAIN)|
    ensures Foreigner in tokens ==>
              |Render(tokens, READ_BACK)| < |Render(tokens, PLAIN)| && Contains(Render(tokens, PLAIN), INPUT_TIER)
    ensures Foreigner !in tokens ==> Render(tokens, READ_BACK) == Render(tokens, PLAIN)
  {
    if tokens != [] {
      var text, rest := TextOf(tokens[0], PLAIN), Render(tokens[1..], PLAIN);
      ReadBackLength(tokens[1..]);
      if tokens[0] == Foreigner {
        assert At(text + rest, INPUT_TIER, 0);
        ContainsAt(text + rest, INPUT_TIER);
      } else if Foreigner in tokens {
        ContainsPart(text, rest, INPUT_TIER);
      }
    }
  }

  lemma DialectAsModes(e: string)
    ensures ToOpaDialect(e) == Render(Scan(e), OPA)
    ensures NormalizeExpressionForEngine(ToOpaDialect(e), OpaCompat)
         == Replace(Render(Scan(e), READ_BACK), "input.action.args", "action.args")
  {
    var t := Scan(e);
    ScanRenders(e);
    Writing(t);
    ReadingBack(t);
  }

  lemma Writing(t: seq<Token>)
    requires Tight(t)
    ensures ToOpaDialect(Render(t, PLAIN)) == Render(t, OPA)
  {
    StepTool(); ReplaceRendered(t, PLAIN, TOOL, INPUT_TOOL, TOOLED);
    StepArgs(); ReplaceRendered(t, TOOLED, ARGS_DOT, INPUT_ARGS, ARGED);
    StepTier(); ReplaceRendered(t, ARGED, TIER, INPUT_TIER, OPA);
  }

  lemma ReadingBack(t: seq<Token>)
    requires Tight(t)
    ensures NormalizeExpressionForEngine(Render(t, OPA), OpaCompat)
         == Replace(Render(t, READ_BACK), "input.action.args", "action.args")
  {
    StepToolBack(); ReplaceRendered(t, OPA, INPUT_TOOL, TOOL, UNTOOLED);
    StepTierBack(); ReplaceRendered(t, UNTOOLED, INPUT_TIER, TIER, UNTIERED);
    StepArgsBack(); ReplaceRendered(t, UNTIERED, INPUT_ARGS, ARGS_DOT, READ_BACK);
  }

  /** Writing an expression in the OPA dialect and reading it back gives the same
      text exactly when the expression holds neither of two `input.` texts: for
      all expressions, names inside quoted literals included. */
  lemma OpaRoundTripExactly(e: string)
    ensures NormalizeExpressionForEngine(ToOpaDialect(e), OpaCompat) == e
        <==> !Contains(e, "input.agent.tier") && !Contains(e, "input.action.args")
  {
    var t := Scan(e);
    ScanRenders(e);
    DialectAsModes(e);
    ReadBackLength(t);
    ReplaceAbsent(Render(t, READ_BACK), "input.action.args", "action.args");
    if Foreigner !in t { NoForeignerNoText(t); }
  }
}
