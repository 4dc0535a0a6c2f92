/** The streaming inspectors of the A2A and MCP proxies: proxy/src/a2a/http.rs and
    proxy/src/mcp/http.rs. A chunk is the text its bytes decode to. */
module Sse {
  import opened Options
  import opened Text

  /** The A2A inspector reads event names and passes on `task_status` data only;
      the MCP inspector reads data lines alone. */
  datatype Kind = A2a | Mcp

  /** The event under way: its name and its data lines. */
  datatype Event = Event(name: string, data: seq<string>)

  const NONE := Event("", [])

  /** What a step leaves under way, and what it hands to `on_data`. */
  datatype Step = Step(event: Event, out: seq<string>)

  function FlushStep(kind: Kind, e: Event): Step {
    Step(NONE, if kind == Mcp || e.name == "task_status" then e.data else [])
  }

  function LineStep(kind: Kind, e: Event, line: string): Step {
    if kind == A2a && "event:" <= line then Step(e.(name := Trim(line[6..])), [])
    else if "data:" <= line then Step(e.(data := e.data + [Trim(line[5..])]), [])
    else if Trim(line) == "" then FlushStep(kind, e)
    else Step(e, [])
  }

  /** One carriage return before the newline belongs to the line end. */
  function DropCr(line: string): string {
    if line != "" && line[|line| - 1] == '\r' then line[..|line| - 1] else line
  }

  datatype Inspector = Inspector(pending: string, event: Event)

  const FRESH := Inspector("", NONE)

  datatype Fed = Fed(inspector: Inspector, out: seq<string>)

  /** Takes the complete lines off the pending text one after the other. */
  function Drain(kind: Kind, e: Event, text: string): Fed
    decreases |text|
  {
    match Find(text, "\n")
    case None => Fed(Inspector(text, e), [])
    case Some(i) =>
      FindMeets(text, "\n");
      var step := LineStep(kind, e, DropCr(text[..i]));
      var rest := Drain(kind, step.event, text[i + 1..]);
      Fed(rest.inspector, step.out + rest.out)
  }

  function Feed(kind: Kind, s: Inspector, chunk: string): Fed {
    Drain(kind, s.event, s.pending + chunk)
  }

  function Finish(kind: Kind, s: Inspector): Fed {
    if Trim(s.pending) != "" then
      var step := LineStep(kind, s.event, StripEnd(s.pending, One('\r')));
      var last := FlushStep(kind, step.event);
      Fed(Inspector("", last.event), step.out + last.out)
    else
      var last := FlushStep(kind, s.event);
      Fed(Inspector(s.pending, last.event), last.out)
  }

  // ----- The inspector objects -----

  class A2aSseInspector {
    var pending: string
    var event: string
    var dataLines: seq<string>

    function View(): Inspector
      reads this
    {
      Inspector(pending, Event(event, dataLines))
    }

    constructor ()
      ensures View() == FRESH
    {
      pending, event, dataLines := "", "", [];
    }

    method PushChunk(chunk: string) returns (out: seq<string>)
      modifies this
      ensures Fed(View(), out) == Feed(A2a, old(View()), chunk)
    {
      pending := pending + chunk;
      out := [];
      var newline := Find(pending, "\n");
      while newline.Some?
        invariant newline == Find(pending, "\n")
        invariant var rest := Drain(A2a, View().event, pending);
                  Fed(rest.inspector, out + rest.out) == Feed(A2a, old(View()), chunk)
        decreases |pending|
      {
        FindMeets(pending, "\n");
        var line := pending[..newline.value];
        ghost var before, text, emitted := View().event, pending, out;
        pending := pending[newline.value + 1..];
        if line != "" && line[|line| - 1] == '\r' { line := line[..|line| - 1]; }
        var lines := PushLine(line);
        out := out + lines;
        DrainStep(A2a, before, text, newline.value, emitted);
        newline := Find(pending, "\n");
      }
    }

    method PushLine(line: string) returns (out: seq<string>)
      modifies this`event, this`dataLines
      ensures Step(View().event, out) == LineStep(A2a, old(View()).event, line)
    {
      out := [];
      if "event:" <= line {
        event := Trim(line[6..]);
        return;
      }
      if "data:" <= line {
        dataLines := dataLines + [Trim(line[5..])];
        return;
      }
      if Trim(line) == "" { out := FlushEvent(); }
    }

    method FlushEvent() returns (out: seq<string>)
      modifies this`event, this`dataLines
      ensures Step(View().event, out) == FlushStep(A2a, old(View()).event)
    {
      out := [];
      if event == "task_status" { out := dataLines; }
      dataLines := [];
      event := "";
    }

    method FinishStream() returns (out: seq<string>)
      modifies this
      ensures Fed(View(), out) == Finish(A2a, old(View()))
    {
      out := [];
      if Trim(pending) != "" {
        var line := pending;
        pending := "";
        out := PushLine(StripEnd(line, One('\r')));
      }
      var last := FlushEvent();
      out := out + last;
    }
  }

  class McpSseInspector {
    var pending: string
    var dataLines: seq<string>

    function View(): Inspector
      reads this
    {
      Inspector(pending, Event("", dataLines))
    }

    constructor ()
      ensures View() == FRESH
    {
      pending, dataLines := "", [];
    }

    method PushChunk(chunk: string) returns (out: seq<string>)
      modifies this
      ensures Fed(View(), out) == Feed(Mcp, old(View()), chunk)
    {
      pending := pending + chunk;
      out := [];
      var newline := Find(pending, "\n");
      while newline.Some?
        invariant newline == Find(pending, "\n")
        invariant var rest := Drain(Mcp, View().event, pending);
                  Fed(rest.inspector, out + rest.out) == Feed(Mcp, old(View()), chunk)
        decreases |pending|
      {
        FindMeets(pending, "\n");
        var line := pending[..newline.value];
        ghost var before, text, emitted := View().event, pending, out;
        pending := pending[newline.value + 1..];
        if line != "" && line[|line| - 1] == '\r' { line := line[..|line| - 1]; }
        var lines := PushLine(line);
        out := out + lines;
        DrainStep(Mcp, before, text, newline.value, emitted);
        newline := Find(pending, "\n");
      }
    }

    method PushLine(line: string) returns (out: seq<string>)
      modifies this`dataLines
      ensures Step(View().event, out) == LineStep(Mcp, old(View()).event, line)
    {
      out := [];
      if "data:" <= line {
        dataLines := dataLines + [Trim(line[5..])];
        return;
      }
      if Trim(line) == "" { out := FlushEvent(); }
    }

    method FlushEvent() returns (out: seq<string>)
      modifies this`dataLines
      ensures Step(View().event, out) == FlushStep(Mcp, old(View()).event)
    {
      out := dataLines;
      dataLines := [];
    }

    method FinishStream() returns (out: seq<string>)
      modifies this
      ensures Fed(View(), out) == Finish(Mcp, old(View()))
    {
      out := [];
      if Trim(pending) != "" {
        var line := pending;
        pending := "";
        out := PushLine(StripEnd(line, One('\r')));
      }
      var last := FlushEvent();
      out := out + last;
    }
  }

  lemma DrainStep(kind: Kind, e: Event, text: string, i: nat, emitted: seq<string>)
    requires Find(text, "\n") == Some(i) && i < |text|
    ensures var step := LineStep(kind, e, DropCr(text[..i]));
            var rest := Drain(kind, step.event, text[i + 1..]);
            Drain(kind, e, text).inspector == rest.inspector &&
            emitted + Drain(kind, e, text).out == (emitted + step.out) + rest.out
  {
  }

  // ----- The one-shot parse -----

  /** Every line of the text in order, from a given event under way. */
  function Lines(kind: Kind, e: Event, lines: seq<string>): Step
    decreases |lines|
  {
    if lines == [] then Step(e, [])
    else
      var first := LineStep(kind, e, DropCr(lines[0]));
      var rest := Lines(kind, first.event, lines[1..]);
      Step(rest.event, first.out + rest.out)
  }

  function Init(parts: seq<string>): seq<string>
    requires parts != []
  {
    parts[..|parts| - 1]
  }

  function Last(parts: seq<string>): string
    requires parts != []
  {
    parts[|parts| - 1]
  }

  /** Cut the whole text at its newlines; all but the last piece are lines, and
      the last piece is what `finish` finds pending. */
  function ParseAll(kind: Kind, text: string): Fed {
    var parts := Split(text, "\n");
    var step := Lines(kind, NONE, Init(parts));
    var end := Finish(kind, Inspector(Last(parts), step.event));
    Fed(end.inspector, step.out + end.out)
  }

  // ----- Chunking does not matter -----

  function Concat(chunks: seq<string>): string {
    if chunks == [] then "" else Concat(chunks[..|chunks| - 1]) + chunks[|chunks| - 1]
  }

  function FeedAll(kind: Kind, chunks: seq<string>): Fed {
    if chunks == [] then Fed(FRESH, [])
    else
      var before := FeedAll(kind, chunks[..|chunks| - 1]);
      var last := Feed(kind, before.inspector, chunks[|chunks| - 1]);
      Fed(last.inspector, before.out + last.out)
  }

  function Then(first: Step, second: Step): Step {
    Step(second.event, first.out + second.out)
  }

  lemma LinesCons(kind: Kind, e: Event, head: string, rest: seq<string>)
    ensures var first := LineStep(kind, e, DropCr(head));
            Lines(kind, e, [head] + rest) == Then(first, Lines(kind, first.event, rest))
  {
    assert ([head] + rest)[1..] == rest;
  }

  lemma ThenAssociates(a: Step, b: Step, c: Step)
    ensures Then(Then(a, b), c) == Then(a, Then(b, c))
  {
  }

  lemma {:induction false} LinesAppend(kind: Kind, e: Event, a: seq<string>, b: seq<string>)
    ensures Lines(kind, e, a + b) == Then(Lines(kind, e, a), Lines(kind, Lines(kind, e, a).event, b))
    decreases |a|
  {
    if a == [] {
      assert a + b == b;
    } else {
      var first := LineStep(kind, e, DropCr(a[0]));
      var mid := Lines(kind, first.event, a[1..]);
      assert a == [a[0]] + a[1..] && a + b == [a[0]] + (a[1..] + b);
      LinesCons(kind, e, a[0], a[1..]);
      LinesCons(kind, e, a[0], a[1..] + b);
      LinesAppend(kind, first.event, a[1..], b);
      ThenAssociates(first, mid, Lines(kind, mid.event, b));
    }
  }

  lemma {:induction false} SplitAtNewline(text: string)
    ensures match Find(text, "\n")
            case None => Split(text, "\n") == [text]
            case Some(i) => i < |text| && Split(text, "\n") == [text[..i]] + Split(text[i + 1..], "\n")
  {
    if text != "" && !("\n" <= text) {
      var rest := text[1..];
      SplitAtNewline(rest);
      assert Split(text, "\n") == ConsHead(text[0], Split(rest, "\n"));
      assert [text[0]] + rest == text;
      var i := Find(rest, "\n");
      if i.Some? {
        assert rest[i.value + 1..] == text[i.value + 2..];
        assert [text[0]] + rest[..i.value] == text[..i.value + 1];
      }
    }
  }

  lemma DrainCons(kind: Kind, e: Event, text: string, i: nat)
    requires Find(text, "\n") == Some(i) && i < |text|
    ensures var first := LineStep(kind, e, DropCr(text[..i]));
            var rest := Drain(kind, first.event, text[i + 1..]);
            Drain(kind, e, text) == Fed(rest.inspector, first.out + rest.out)
  {
  }

  /** Draining is parsing the complete lines and keeping the rest. */
  lemma {:induction false} DrainParses(kind: Kind, e: Event, text: string)
    ensures var parts := Split(text, "\n");
            var step := Lines(kind, e, Init(parts));
            Drain(kind, e, text) == Fed(Inspector(Last(parts), step.event), step.out)
    decreases |text|
  {
    SplitAtNewline(text);
    var i := Find(text, "\n");
    if i.Some? {
      var line, rest := text[..i.value], text[i.value + 1..];
      DrainParses(kind, LineStep(kind, e, DropCr(line)).event, rest);
      DrainParsesOn(kind, e, text, i.value, Split(rest, "\n"));
    } else {
      assert Init([text]) == [];
    }
  }

  lemma DrainParsesOn(kind: Kind, e: Event, text: string, i: nat, parts: seq<string>)
    requires Find(text, "\n") == Some(i) && i < |text| && parts != []
    requires var first := LineStep(kind, e, DropCr(text[..i]));
             var step := Lines(kind, first.event, Init(parts));
             Drain(kind, first.event, text[i + 1..]) == Fed(Inspector(Last(parts), step.event), step.out)
    ensures var all := [text[..i]] + parts;
            var step := Lines(kind, e, Init(all));
            Drain(kind, e, text) == Fed(Inspector(Last(all), step.event), step.out)
  {
    DrainCons(kind, e, text, i);
    InitLast(text[..i], parts);
    LinesCons(kind, e, text[..i], Init(parts));
  }

  lemma InitLast(head: string, rest: seq<string>)
    requires rest != []
    ensures Init([head] + rest) == [head] + Init(rest) && Last([head] + rest) == Last(rest)
  {
  }

  lemma SplitLonger(a: string, b: string, i: nat)
    requires Find(a, "\n") == Some(i)
    ensures i < |a| && Split(a + b, "\n") == [a[..i]] + Split(a[i + 1..] + b, "\n")
  {
    FindMeets(a, "\n");
    FindSkipTo(a, b, i);
    SplitAtNewline(a + b);
    assert (a + b)[i + 1..] == a[i + 1..] + b && (a + b)[..i] == a[..i];
  }

  /** More text only extends the last piece. */
  lemma {:induction false} SplitExtends(a: string, b: string)
    ensures Split(a + b, "\n") == Init(Split(a, "\n")) + Split(Last(Split(a, "\n")) + b, "\n")
    decreases |a|
  {
    SplitAtNewline(a);
    var i := Find(a, "\n");
    if i.None? {
      assert Init([a]) == [];
    } else {
      var head, d := a[..i.value], a[i.value + 1..];
      var parts := Split(d, "\n");
      SplitLonger(a, b, i.value);
      SplitExtends(d, b);
      InitLast(head, parts);
      var more := Split(Last(parts) + b, "\n");
      assert [head] + (Init(parts) + more) == ([head] + Init(parts)) + more;
    }
  }

  lemma FindSkipTo(a: string, b: string, i: nat)
    requires Find(a, "\n") == Some(i)
    ensures Find(a + b, "\n") == Some(i)
  {
    FindMeets(a, "\n");
    assert (a + b)[i..] == a[i..] + b;
    forall j | 0 <= j < i ensures !At(a + b, "\n", j) {
      assert !At(a, "\n", j);
      assert a[j..][0] == a[j] == (a + b)[j..][0];
    }
    FindAt(a + b, "\n", i);
  }

  /** After any chunks, the inspector stands where the lines received so far put it. */
  lemma {:induction false} FedIsParsed(kind: Kind, chunks: seq<string>)
    ensures var parts := Split(Concat(chunks), "\n");
            var step := Lines(kind, NONE, Init(parts));
            FeedAll(kind, chunks) == Fed(Inspector(Last(parts), step.event), step.out)
  {
    if chunks != [] {
      var before, chunk := chunks[..|chunks| - 1], chunks[|chunks| - 1];
      FedIsParsed(kind, before);
      var parts := Split(Concat(before), "\n");
      var step := Lines(kind, NONE, Init(parts));
      DrainParses(kind, step.event, Last(parts) + chunk);
      SplitExtends(Concat(before), chunk);
      var more := Split(Last(parts) + chunk, "\n");
      assert Init(Init(parts) + more) == Init(parts) + Init(more) && Last(Init(parts) + more) == Last(more);
      LinesAppend(kind, NONE, Init(parts), Init(more));
    }
  }

  /** For every text and every way of cutting it into chunks, the final state and
      everything handed to `on_data` are those of parsing the text at once. */
  lemma ChunkingInvariance(kind: Kind, chunks: seq<string>)
    ensures var fed := FeedAll(kind, chunks);
            var end := Finish(kind, fed.inspector);
            Fed(end.inspector, fed.out + end.out) == ParseAll(kind, Concat(chunks))
  {
    FedIsParsed(kind, chunks);
  }
}
