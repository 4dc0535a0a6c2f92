/** Reasoning traces cut out of a tool call's text: proxy/src/thinking_trace.rs. */
module ThinkingTrace {
  import opened Options
  import opened Text

  datatype TraceMode = Explicit | Streaming | Absent

  datatype TraceExtraction = TraceExtraction(trace: Option<string>, action: Option<string>)

  const NOTHING := TraceExtraction(None, None)
  const OPEN := "<think>"
  const CLOSE := "</think>"

  function NonEmpty(s: string): Option<string> {
    if s == "" then None else Some(s)
  }

  function Extract(mode: TraceMode, input: string): TraceExtraction {
    match mode
    case Explicit => ExtractExplicit(input)
    case Streaming => ExtractStreaming(input)
    case Absent => NOTHING
  }

  /** The text up to the closing tag, and the text after it. */
  function CutAtClose(text: string): TraceExtraction {
    match SplitOnce(text, CLOSE)
    case None => NOTHING
    case Some((trace, action)) => TraceExtraction(NonEmpty(Trim(trace)), NonEmpty(Trim(action)))
  }

  function ExtractExplicit(input: string): TraceExtraction {
    match SplitOnce(input, OPEN)
    case None => NOTHING
    case Some((_, rest)) => CutAtClose(rest)
  }

  function ExtractStreaming(input: string): TraceExtraction {
    CutAtClose(input)
  }

  // ----- Wrapping and cutting back -----

  /** The closing tag overlaps no shifted copy of itself, so in front of a tag
      only a whole tag can hide another. */
  lemma FirstClose(t: string, rest: string)
    ensures !Contains(t, CLOSE) ==> Find(t + CLOSE + rest, CLOSE) == Some(|t|)
    ensures Contains(t, CLOSE) ==> Find(t + CLOSE + rest, CLOSE).Some? && Find(t + CLOSE + rest, CLOSE).value < |t|
  {
    var s := t + CLOSE + rest;
    if Contains(t, CLOSE) {
      FoundInFront(t, CLOSE + rest);
      assert s == t + (CLOSE + rest);
    } else {
      forall j | 0 <= j < |t| ensures !At(s, CLOSE, j) { NoEarlierClose(t, rest, j); }
      assert s[|t|..] == CLOSE + rest;
      FindAt(s, CLOSE, |t|);
    }
  }

  lemma FoundInFront(t: string, v: string)
    requires Contains(t, CLOSE)
    ensures Find(t + v, CLOSE).Some? && Find(t + v, CLOSE).value < |t|
  {
    FindMeets(t, CLOSE); FindMeets(t + v, CLOSE);
    var i := Find(t, CLOSE).value;
    assert (t + v)[i..] == t[i..] + v;
    assert At(t + v, CLOSE, i);
  }

  lemma NoEarlierClose(t: string, rest: string, j: nat)
    requires j < |t| && !Contains(t, CLOSE)
    ensures !At(t + CLOSE + rest, CLOSE, j)
  {
    var s := t + CLOSE + rest;
    FindMeets(t, CLOSE);
    AtChars(s, CLOSE, j);
    assert !At(t, CLOSE, j);
    assert s[|t|] == '<';
    assert forall k :: 0 < k < |CLOSE| ==> CLOSE[k] != '<';
    if j + |CLOSE| <= |t| {
      assert t[j..][..|CLOSE|] == s[j..][..|CLOSE|];
    }
  }

  /** Cutting gives back a trimmed trace and a trimmed action, blanks between them
      or not, exactly when the trace holds no closing tag of its own. */
  lemma CutBack(trace: string, gap: string, action: string)
    requires Bare(trace, Space) && Bare(action, Space) && Space.All(gap)
    ensures CutAtClose(trace + CLOSE + (gap + action)) == TraceExtraction(NonEmpty(trace), NonEmpty(action))
        <==> !Contains(trace, CLOSE)
  {
    var rest := gap + action;
    var s := trace + CLOSE + rest;
    FirstClose(trace, rest);
    FindMeets(s, CLOSE);
    if Contains(trace, CLOSE) {
      var i := Find(s, CLOSE).value;
      var a, b := StripCut(s[..i], Space);
      assert |Trim(s[..i])| < |trace|;
    } else {
      assert s[..|trace|] == trace && s[|trace| + |CLOSE|..] == rest;
      StripBare(trace, Space);
      StripUnique(gap, action, "", Space);
      assert gap + action + "" == rest;
    }
  }

  lemma OpensAtOnce(rest: string)
    ensures SplitOnce(OPEN + rest, OPEN) == Some(("", rest))
  {
    assert (OPEN + rest)[|OPEN|..] == rest;
  }

  /** Both modes invert their wrapping, for the same traces and no others. */
  lemma ExtractionInverts(trace: string, gap: string, action: string)
    requires Bare(trace, Space) && Bare(action, Space) && Space.All(gap)
    ensures Extract(Explicit, OPEN + (trace + CLOSE + (gap + action))) == TraceExtraction(NonEmpty(trace), NonEmpty(action))
        <==> !Contains(trace, CLOSE)
    ensures Extract(Streaming, trace + CLOSE + (gap + action)) == TraceExtraction(NonEmpty(trace), NonEmpty(action))
        <==> !Contains(trace, CLOSE)
  {
    CutBack(trace, gap, action);
    OpensAtOnce(trace + CLOSE + (gap + action));
  }

  /** Whatever stands before the first opening tag, up to the first closing tag
      after it, and behind that. */
  lemma ExtractExactly(before: string, inner: string, after: string)
    requires !Contains(inner, "</think>")
    ensures var cut := TraceExtraction(if Trim(inner) == "" then None else Some(Trim(inner)), if Trim(after) == "" then None else Some(Trim(after)));
            && Extract(Streaming, inner + "</think>" + after) == cut
            && (Find(before + "<think>" + (inner + "</think>" + after), "<think>") == Some(|before|) ==>
                  Extract(Explicit, before + "<think>" + (inner + "</think>" + after)) == cut)
  {
    var rest := inner + CLOSE + after;
    FirstClose(inner, after);
    assert rest[..|inner|] == inner && rest[|inner| + |CLOSE|..] == after;
    assert (before + OPEN + rest)[|before| + |OPEN|..] == rest;
  }

  /** Without its tags a text holds no trace, and no mode but these looks for one. */
  lemma UntaggedIsNothing(before: string, rest: string)
    ensures !Contains(rest, CLOSE) ==> Extract(Streaming, rest) == TraceExtraction(None, None)
    ensures !Contains(rest, OPEN) ==> Extract(Explicit, rest) == TraceExtraction(None, None)
    ensures Find(before + OPEN + rest, OPEN) == Some(|before|) && !Contains(rest, CLOSE) ==>
              Extract(Explicit, before + OPEN + rest) == TraceExtraction(None, None)
    ensures Extract(Absent, rest) == TraceExtraction(None, None)
  {
    assert (before + OPEN + rest)[|before| + |OPEN|..] == rest;
  }
}
