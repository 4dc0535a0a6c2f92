/** What the evaluator makes of an expression that went through the OPA dialect:
    two texts are read as the plain names, everything else comes back as it was. */
module OpaReading {
  import opened Text
  import opened Counting
  import opened PolicyTypes
  import opened Evaluator
  import opened Migrate
  import opened OpaDialect

  const WHOLE_ARGS := "action.args"
  const INPUT_WHOLE_ARGS := "input.action.args"

  function ReadBack(e: string): string {
    Replace(Replace(e, INPUT_TIER, TIER), INPUT_WHOLE_ARGS, WHOLE_ARGS)
  }

  /** Neither of the two texts occurs. */
  predicate ReadsBack(e: string) {
    !Contains(e, INPUT_TIER) && !Contains(e, INPUT_WHOLE_ARGS)
  }

  /** What the evaluator sees of an expression migrated for an engine. */
  function Reading(e: string, engine: Engine): string {
    match engine
    case Dsl => e
    case OpaCompat => ReadBack(e)
  }

  // ----- The round trip, replacement by replacement -----

  lemma StepReading()
    ensures Steps(PLAIN, INPUT_TIER, TIER, READ_BACK)
  {
    Leaves(Tool, PLAIN, INPUT_TIER, TIER, READ_BACK, 1, 1);
    Leaves(Args, PLAIN, INPUT_TIER, TIER, READ_BACK, 1, 1);
    Leaves(Tier, PLAIN, INPUT_TIER, TIER, READ_BACK, 1, 5);
    Turns(Foreigner, PLAIN, INPUT_TIER, TIER, READ_BACK, 1);
  }

  /** For every expression: through the dialect and back is the two replacements. */
  lemma DialectReadsBack(e: string)
    ensures NormalizeExpressionForEngine(ToOpaDialect(e), OpaCompat) == ReadBack(e)
  {
    DialectAsModes(e);
    ScanRenders(e);
    StepReading();
    ReplaceRendered(Scan(e), PLAIN, INPUT_TIER, TIER, READ_BACK);
  }

  lemma ReadingIsSame(e: string)
    ensures ReadsBack(e) ==> ReadBack(e) == e
  {
    ReplaceAbsent(e, INPUT_TIER, TIER);
    ReplaceAbsent(e, INPUT_WHOLE_ARGS, WHOLE_ARGS);
  }

  // ----- Reading back piece by piece -----

  /** A character in neither of the two texts. */
  predicate Outside(c: char) {
    Absent(c, INPUT_TIER) && Absent(c, INPUT_WHOLE_ARGS)
  }

  lemma ReadBackAcross(u: string, c: char, v: string)
    requires Outside(c)
    ensures ReadBack(u + [c] + v) == ReadBack(u) + [c] + ReadBack(v)
  {
    ReplaceAcross(u, c, v, INPUT_TIER, TIER);
    ReplaceAcross(Replace(u, INPUT_TIER, TIER), c, Replace(v, INPUT_TIER, TIER), INPUT_WHOLE_ARGS, WHOLE_ARGS);
  }

  lemma OutsideMarks()
    ensures Outside(' ') && Outside(',') && Outside('"') && Outside('\'') && Outside('[') && Outside(']')
    ensures Outside('=') && Outside('>') && Outside('&')
  {
  }

  /** Both texts are written with a p. */
  lemma NoPReadsBack(e: string)
    requires Absent('p', e)
    ensures ReadsBack(e) && ReadBack(e) == e
  {
    assert INPUT_TIER[2] == 'p' && INPUT_WHOLE_ARGS[2] == 'p';
    var i := Occurrence(e, INPUT_TIER);
    var j := Occurrence(e, INPUT_WHOLE_ARGS);
    ReadingIsSame(e);
  }

  lemma ReadBackAfter(u: string, c: char, v: string)
    requires Outside(c) && Absent('p', u)
    ensures ReadBack(u + [c] + v) == u + [c] + ReadBack(v)
  {
    ReadBackAcross(u, c, v);
    NoPReadsBack(u);
  }

  // ----- What reading back keeps -----

  lemma OneOf(c: char, before: string, after: string)
    requires Absent(c, before) && Absent(c, after)
    ensures Count(c, before + [c] + after) == 1
  {
    CountMiddle(c, before, [c], after);
    assert [c][1..] == "";
  }

  lemma TierHasNone()
    ensures Count('&', INPUT_TIER) == 0 == Count('&', TIER) && Dots(TIER) == 0
  {
    CountNone('&', INPUT_TIER);
    NoneInTier();
  }

  lemma NoneInTier()
    ensures Count('&', TIER) == 0 && Dots(TIER) == 0
  {
    NotCounted('&', TIER);
    NotCounted('.', TIER);
  }

  lemma NotCounted(c: char, s: string)
    requires Absent(c, s)
    ensures Count(c, s) == 0
  {
    CountNone(c, s);
  }

  lemma ArgsHasNone()
    ensures Count('&', INPUT_WHOLE_ARGS) == 0 == Count('&', WHOLE_ARGS)
  {
    NoneInArgs();
    NoneBefore(WHOLE_ARGS);
    InputArgsText();
  }

  lemma InputArgsText()
    ensures INPUT_WHOLE_ARGS == "input." + WHOLE_ARGS
  {
  }

  lemma NoneBefore(rest: string)
    ensures Count('&', "input." + rest) == Count('&', rest)
  {
    CountNone('&', "input.");
    CountAppend('&', "input.", rest);
  }

  lemma NoneInArgs()
    ensures Count('&', WHOLE_ARGS) == 0
  {
    CountNone('&', WHOLE_ARGS);
  }

  lemma AmpersandsReadBack(e: string)
    ensures Count('&', ReadBack(e)) == Count('&', e)
  {
    TierHasNone(); ArgsHasNone();
    CountReplaceSame('&', e, INPUT_TIER, TIER);
    CountReplaceSame('&', Replace(e, INPUT_TIER, TIER), INPUT_WHOLE_ARGS, WHOLE_ARGS);
  }

  lemma GsOfTier()
    ensures Count('g', INPUT_TIER) == 1 == Count('g', TIER)
  {
    OneOf('g', "input.a", "ent.tier");
    OneOf('g', "a", "ent_tier");
    TierTexts();
  }

  lemma TierTexts()
    ensures INPUT_TIER == "input.a" + ['g'] + "ent.tier" && TIER == "a" + ['g'] + "ent_tier"
  {
  }

  lemma GsOfArgs()
    ensures Count('g', INPUT_WHOLE_ARGS) == 1 == Count('g', WHOLE_ARGS)
  {
    OneOf('g', "input.action.ar", "s");
    OneOf('g', "action.ar", "s");
    ArgsTexts();
  }

  lemma ArgsTexts()
    ensures INPUT_WHOLE_ARGS == "input.action.ar" + ['g'] + "s" && WHOLE_ARGS == "action.ar" + ['g'] + "s"
  {
  }

  lemma GsReadBack(e: string)
    ensures Count('g', ReadBack(e)) == Count('g', e)
  {
    GsOfTier(); GsOfArgs();
    CountReplaceSame('g', e, INPUT_TIER, TIER);
    CountReplaceSame('g', Replace(e, INPUT_TIER, TIER), INPUT_WHOLE_ARGS, WHOLE_ARGS);
  }

  function Dots(e: string): nat {
    Count('.', e)
  }

  lemma DotAfterInput(rest: string)
    ensures Dots("input." + rest) == 1 + Dots(rest)
  {
    OneOf('.', "input", "");
    assert "input" + ['.'] + "" == "input.";
    CountAppend('.', "input.", rest);
  }

  lemma DotsOfTier()
    ensures Dots(INPUT_TIER) > Dots(TIER)
  {
    DotAfterInput("agent.tier");
    NoneInTier();
    InputTierText();
  }

  lemma InputTierText()
    ensures INPUT_TIER == "input." + "agent.tier"
  {
  }

  lemma DotsOfArgs()
    ensures Dots(INPUT_WHOLE_ARGS) > Dots(WHOLE_ARGS)
  {
    DotAfterInput(WHOLE_ARGS);
    InputArgsText();
  }

  /** What does not read back as it was loses a dot. */
  lemma DotsReadBack(e: string)
    ensures Dots(ReadBack(e)) <= Dots(e)
    ensures !ReadsBack(e) ==> Dots(ReadBack(e)) < Dots(e)
  {
    DotsOfTier(); DotsOfArgs();
    var t := Replace(e, INPUT_TIER, TIER);
    CountReplaceFewer('.', e, INPUT_TIER, TIER);
    CountReplaceFewer('.', t, INPUT_WHOLE_ARGS, WHOLE_ARGS);
    ReplaceAbsent(e, INPUT_TIER, TIER);
  }

  /** Patterns of capitals and marks stay out. */
  lemma ReadBackKeepsOut(e: string, q: string)
    requires q != "" && !Contains(e, q) && Absent('a', q) && Absent(q[0], TIER) && Absent(q[0], WHOLE_ARGS)
    ensures !Contains(ReadBack(e), q)
  {
    ReplaceKeepsOut(e, INPUT_TIER, TIER, q);
    ReplaceKeepsOut(Replace(e, INPUT_TIER, TIER), INPUT_WHOLE_ARGS, WHOLE_ARGS, q);
  }

  // ----- The ends of a text -----

  /** The last character of a replaced text is the old one or the replacement's. */
  lemma {:induction false} ReplaceLast(s: string, p: string, r: string)
    requires p != "" && r != "" && s != ""
    ensures var t := Replace(s, p, r); t != "" && (t[|t| - 1] == s[|s| - 1] || t[|t| - 1] == r[|r| - 1])
  {
    if p <= s {
      if s[|p|..] != "" { ReplaceLast(s[|p|..], p, r); }
    } else if s[1..] != "" {
      ReplaceLast(s[1..], p, r);
    }
  }

  lemma ReplaceFirst(s: string, p: string, r: string)
    requires p != "" && r != "" && s != ""
    ensures var t := Replace(s, p, r); t != "" && (t[0] == s[0] || t[0] == r[0])
  {
  }

  lemma ReadBackEnds(e: string)
    ensures e == "" <==> ReadBack(e) == ""
    ensures e != "" ==> ReadBack(e)[0] == e[0] || ReadBack(e)[0] == 'a'
    ensures e != "" ==>
              var last := ReadBack(e)[|ReadBack(e)| - 1]; last == e[|e| - 1] || last == 'r' || last == 's'
  {
    if e != "" {
      var t := Replace(e, INPUT_TIER, TIER);
      ReplaceFirst(e, INPUT_TIER, TIER); ReplaceLast(e, INPUT_TIER, TIER);
      ReplaceFirst(t, INPUT_WHOLE_ARGS, WHOLE_ARGS); ReplaceLast(t, INPUT_WHOLE_ARGS, WHOLE_ARGS);
    }
  }

  lemma ReadBackIsBare(e: string)
    requires Bare(e, Space)
    ensures Bare(ReadBack(e), Space)
  {
    ReadBackEnds(e);
  }

  lemma NotInReadsBack(e: string)
    requires !("in " <= e)
    ensures !("in " <= ReadBack(e))
  {
    var t := Replace(e, INPUT_TIER, TIER);
    if "in " <= t { UnreplacedPrefix(e, INPUT_TIER, TIER, "in "); }
    if "in " <= ReadBack(e) { UnreplacedPrefix(t, INPUT_WHOLE_ARGS, WHOLE_ARGS, "in "); }
  }

  // ----- Where the two texts can hide -----

  /** Nothing of this class is in the two texts. */
  predicate ClassOutside(k: Class) {
    (forall i :: 0 <= i < |INPUT_TIER| ==> !k.Has(INPUT_TIER[i])) && forall i :: 0 <= i < |INPUT_WHOLE_ARGS| ==> !k.Has(INPUT_WHOLE_ARGS[i])
  }

  lemma SpaceOutside()
    ensures ClassOutside(Space)
  {
  }

  lemma MarkOutside(c: char)
    requires Outside(c)
    ensures ClassOutside(One(c))
  {
  }

  lemma StripReadsBack(e: string, k: Class)
    requires ClassOutside(k)
    ensures ReadsBack(Strip(e, k)) <==> ReadsBack(e)
  {
    StripOneText(e, k, INPUT_TIER);
    StripOneText(e, k, INPUT_WHOLE_ARGS);
  }

  lemma StripOneText(e: string, k: Class, p: string)
    requires p != "" && forall i :: 0 <= i < |p| ==> !k.Has(p[i])
    ensures Contains(Strip(e, k), p) <==> Contains(e, p)
  {
    if Contains(e, p) { StripKeepsIn(e, k, p); }
    var i, j := StripCut(e, k);
    if Contains(e[i..j], p) { ContainsSlice(e, i, j, p); }
  }

  lemma SliceReadsBack(e: string, i: nat, j: nat)
    requires i <= j <= |e| && ReadsBack(e)
    ensures ReadsBack(e[i..j])
  {
    if Contains(e[i..j], INPUT_TIER) { ContainsSlice(e, i, j, INPUT_TIER); }
    if Contains(e[i..j], INPUT_WHOLE_ARGS) { ContainsSlice(e, i, j, INPUT_WHOLE_ARGS); }
  }

  lemma TrimValueReadsBack(e: string)
    ensures ReadsBack(TrimValue(e)) <==> ReadsBack(e)
  {
    SpaceOutside();
    OutsideMarks();
    MarkOutside('"'); MarkOutside('\'');
    StripReadsBack(e, Space);
    StripReadsBack(Trim(e), One('"'));
    StripReadsBack(Strip(Trim(e), One('"')), One('\''));
  }
}
