/** What a server writes as events, the inspectors hand on, however it is chunked. */
module SseRoundTrip {
  import opened Text
  import opened Sse

  // ----- Writing events -----

  /** A line without its end: a field, its value between blanks of any length, or
      any other line that is not blank, such as a comment, an `id:` or a `retry:`. */
  datatype Line =
    | Name(left: string, value: string, right: string)
    | Data(left: string, value: string, right: string)
    | Other(text: string)

  function TextOf(line: Line): string {
    match line
    case Name(l, v, r) => "event:" + (l + v + r)
    case Data(l, v, r) => "data:" + (l + v + r)
    case Other(text) => text
  }

  /** It is one line, and a carriage return at its end would be part of the line end. */
  predicate Ending(line: string) {
    Absent('\n', line) && (line == "" || line[|line| - 1] != '\r')
  }

  predicate Blank(text: string) {
    Space.All(text) && Ending(text)
  }

  predicate Proper(line: Line) {
    && Ending(TextOf(line))
    && match line
       case Other(text) => !Space.All(text) && !("event:" <= text) && !("data:" <= text)
       case _ => Space.All(line.left) && Bare(line.value, Space) && Space.All(line.right)
  }

  predicate AllProper(lines: seq<Line>) {
    forall i :: 0 <= i < |lines| ==> Proper(lines[i])
  }

  /** The lines of an event in any order, closed by a blank line. */
  datatype Message = Message(lines: seq<Line>, blank: string)

  predicate AllWritable(events: seq<Message>) {
    forall i :: 0 <= i < |events| ==> AllProper(events[i].lines) && Blank(events[i].blank)
  }

  function Texts(lines: seq<Line>): seq<string> {
    if lines == [] then [] else Texts(lines[..|lines| - 1]) + [TextOf(lines[|lines| - 1])]
  }

  /** The events one after the other. */
  function EventLines(events: seq<Message>): seq<string> {
    if events == [] then []
    else EventLines(events[..|events| - 1]) + (Texts(events[|events| - 1].lines) + [events[|events| - 1].blank])
  }

  /** The lines as text, each ended by a newline or by a carriage return and one. */
  function Written(lines: seq<string>, crs: seq<bool>): string
    requires |crs| == |lines|
  {
    if lines == [] then "" else Ended(lines[0], crs[0]) + "\n" + Written(lines[1..], crs[1..])
  }

  function Ended(line: string, cr: bool): string {
    if cr then line + "\r" else line
  }

  function AllEnded(lines: seq<string>, crs: seq<bool>): (r: seq<string>)
    requires |crs| == |lines|
    ensures |r| == |lines| && forall i :: 0 <= i < |r| ==> r[i] == Ended(lines[i], crs[i])
  {
    seq(|lines|, i requires 0 <= i < |lines| => Ended(lines[i], crs[i]))
  }

  /** The name an event was given last, empty if none. */
  function NameOf(lines: seq<Line>): string {
    if lines == [] then ""
    else if lines[|lines| - 1].Name? then lines[|lines| - 1].value
    else NameOf(lines[..|lines| - 1])
  }

  function ValuesOf(lines: seq<Line>): seq<string> {
    if lines == [] then []
    else ValuesOf(lines[..|lines| - 1]) + if lines[|lines| - 1].Data? then [lines[|lines| - 1].value] else []
  }

  /** What an inspector should hand on of an event: A2A listens to one name, MCP to all. */
  function HeardIn(kind: Kind, lines: seq<Line>): seq<string> {
    if kind == Mcp || NameOf(lines) == "task_status" then ValuesOf(lines) else []
  }

  function Heard(kind: Kind, events: seq<Message>): seq<string> {
    if events == [] then []
    else Heard(kind, events[..|events| - 1]) + HeardIn(kind, events[|events| - 1].lines)
  }

  // ----- Reading them back -----

  predicate Endings(lines: seq<string>) {
    forall i :: 0 <= i < |lines| ==> Ending(lines[i])
  }

  lemma {:induction false} SplitWritten(lines: seq<string>, crs: seq<bool>)
    requires |crs| == |lines| && Endings(lines)
    ensures Split(Written(lines, crs), "\n") == AllEnded(lines, crs) + [""]
  {
    if lines != [] {
      var head, rest := Ended(lines[0], crs[0]), Written(lines[1..], crs[1..]);
      SplitWritten(lines[1..], crs[1..]);
      EndedAbsent(lines[0], crs[0]);
      SplitOffLine(head, rest);
      AllEndedStep(lines, crs);
      Rebracketed(head, AllEnded(lines[1..], crs[1..]));
    }
  }

  lemma EndedAbsent(line: string, cr: bool)
    requires Ending(line)
    ensures Absent('\n', Ended(line, cr))
  {
  }

  lemma AllEndedStep(lines: seq<string>, crs: seq<bool>)
    requires |crs| == |lines| && lines != []
    ensures AllEnded(lines, crs) == [Ended(lines[0], crs[0])] + AllEnded(lines[1..], crs[1..])
  {
  }

  lemma Rebracketed(head: string, rest: seq<string>)
    ensures [head] + (rest + [""]) == ([head] + rest) + [""]
  {
  }

  lemma {:induction false} SplitOffLine(head: string, rest: string)
    requires Absent('\n', head)
    ensures Split(head + "\n" + rest, "\n") == [head] + Split(rest, "\n")
  {
    if head == "" {
      assert head + "\n" + rest == "\n" + rest && ("\n" + rest)[1..] == rest;
    } else {
      assert (head + "\n" + rest)[1..] == head[1..] + "\n" + rest && (head + "\n" + rest)[0] == head[0];
      SplitOffLine(head[1..], rest);
      assert [head[0]] + head[1..] == head;
    }
  }

  lemma {:induction false} CrsDropped(kind: Kind, e: Event, a: seq<string>, b: seq<string>)
    requires |a| == |b| && forall i :: 0 <= i < |a| ==> DropCr(a[i]) == DropCr(b[i])
    ensures Lines(kind, e, a) == Lines(kind, e, b)
    decreases |a|
  {
    if a != [] { CrsDropped(kind, LineStep(kind, e, DropCr(a[0])).event, a[1..], b[1..]); }
  }

  lemma EndedDrops(line: string, cr: bool)
    requires Ending(line)
    ensures DropCr(Ended(line, cr)) == DropCr(line) == line
  {
    if cr { assert (line + "\r")[..|line|] == line; }
  }

  lemma LineOf(kind: Kind, e: Event, line: string)
    requires Ending(line)
    ensures Lines(kind, e, [line]) == LineStep(kind, e, line)
  {
    LinesCons(kind, e, line, []);
    assert [line] + [] == [line];
  }

  lemma ValueTrims(l: string, v: string, r: string)
    requires Space.All(l) && Bare(v, Space) && Space.All(r)
    ensures Trim(l + v + r) == v
  {
    StripUnique(l, v, r, Space);
  }

  lemma BlankTrims(text: string)
    ensures Trim(text) == "" <==> Space.All(text)
  {
    var i, j := StripCut(text, Space);
    if Space.All(text) {
      StripUnique(text, "", "", Space);
      assert text + "" + "" == text;
    }
  }

  lemma FieldText(prefix: string, value: string)
    ensures prefix <= prefix + value && (prefix + value)[|prefix|..] == value
  {
  }

  /** What a line does to the event under way. */
  function Heeded(kind: Kind, e: Event, line: Line): Event {
    match line
    case Name(_, v, _) => if kind == A2a then e.(name := v) else e
    case Data(_, v, _) => e.(data := e.data + [v])
    case Other(_) => e
  }

  lemma NameRead(kind: Kind, e: Event, line: Line)
    requires Proper(line) && line.Name?
    ensures LineStep(kind, e, TextOf(line)) == Step(Heeded(kind, e, line), [])
  {
    var value := line.left + line.value + line.right;
    FieldText("event:", value);
    ValueTrims(line.left, line.value, line.right);
    assert "data:"[0] == 'd' && TextOf(line)[0] == 'e';
    BlankTrims(TextOf(line));
    assert !Space.Has(TextOf(line)[0]);
  }

  lemma DataRead(kind: Kind, e: Event, line: Line)
    requires Proper(line) && line.Data?
    ensures LineStep(kind, e, TextOf(line)) == Step(Heeded(kind, e, line), [])
  {
    var value := line.left + line.value + line.right;
    FieldText("data:", value);
    ValueTrims(line.left, line.value, line.right);
    assert "event:"[0] == 'e' && TextOf(line)[0] == 'd';
  }

  lemma OtherRead(kind: Kind, e: Event, line: Line)
    requires Proper(line) && line.Other?
    ensures LineStep(kind, e, TextOf(line)) == Step(Heeded(kind, e, line), [])
  {
    BlankTrims(line.text);
  }

  lemma LineRead(kind: Kind, e: Event, line: Line)
    requires Proper(line)
    ensures Lines(kind, e, [TextOf(line)]) == Step(Heeded(kind, e, line), [])
  {
    LineOf(kind, e, TextOf(line));
    match line
    case Name(_, _, _) => NameRead(kind, e, line);
    case Data(_, _, _) => DataRead(kind, e, line);
    case Other(_) => OtherRead(kind, e, line);
  }

  /** The event as the inspector holds it: MCP reads no name. */
  function Seen(kind: Kind, lines: seq<Line>): Event {
    Event(if kind == A2a then NameOf(lines) else "", ValuesOf(lines))
  }

  lemma {:induction false} TextsEnding(lines: seq<Line>)
    requires AllProper(lines)
    ensures Endings(Texts(lines))
  {
    if lines != [] { TextsEnding(lines[..|lines| - 1]); }
  }

  lemma {:induction false} TextsRead(kind: Kind, lines: seq<Line>)
    requires AllProper(lines)
    ensures Lines(kind, NONE, Texts(lines)) == Step(Seen(kind, lines), [])
  {
    if lines != [] {
      var before, last := lines[..|lines| - 1], lines[|lines| - 1];
      TextsRead(kind, before);
      LinesAppend(kind, NONE, Texts(before), [TextOf(last)]);
      LineRead(kind, Seen(kind, before), last);
      SeenOneMore(kind, lines);
    }
  }

  lemma SeenOneMore(kind: Kind, lines: seq<Line>)
    requires lines != []
    ensures Seen(kind, lines) == Heeded(kind, Seen(kind, lines[..|lines| - 1]), lines[|lines| - 1])
  {
    var before := ValuesOf(lines[..|lines| - 1]);
    assert before + [] == before;
  }

  lemma BlankRead(kind: Kind, e: Event, blank: string)
    requires Blank(blank)
    ensures Lines(kind, e, [blank]) == FlushStep(kind, e)
  {
    LineOf(kind, e, blank);
    BlankTrims(blank);
    assert !Space.Has("event:"[0]) && !Space.Has("data:"[0]);
    assert blank != "" ==> Space.Has(blank[0]);
  }

  /** One closed event, read from a clean start. */
  lemma ClosedEventRead(kind: Kind, event: Message)
    requires AllProper(event.lines) && Blank(event.blank)
    ensures Lines(kind, NONE, Texts(event.lines) + [event.blank]) == Step(NONE, HeardIn(kind, event.lines))
  {
    TextsRead(kind, event.lines);
    BlankRead(kind, Seen(kind, event.lines), event.blank);
    LinesAppend(kind, NONE, Texts(event.lines), [event.blank]);
  }

  lemma {:induction false} EventLinesEnding(events: seq<Message>)
    requires AllWritable(events)
    ensures Endings(EventLines(events))
  {
    if events != [] {
      EventLinesEnding(events[..|events| - 1]);
      TextsEnding(events[|events| - 1].lines);
    }
  }

  lemma {:induction false} EventLinesRead(kind: Kind, events: seq<Message>)
    requires AllWritable(events)
    ensures Lines(kind, NONE, EventLines(events)) == Step(NONE, Heard(kind, events))
  {
    if events != [] {
      var before, last := events[..|events| - 1], events[|events| - 1];
      EventLinesRead(kind, before);
      ClosedEventRead(kind, last);
      LinesAppend(kind, NONE, EventLines(before), Texts(last.lines) + [last.blank]);
    }
  }

  // ----- The ends of the text -----

  lemma WrittenRead(kind: Kind, lines: seq<string>, crs: seq<bool>)
    requires |crs| == |lines| && Endings(lines)
    ensures var step := Lines(kind, NONE, lines);
            var last := FlushStep(kind, step.event);
            ParseAll(kind, Written(lines, crs)) == Fed(Inspector("", last.event), step.out + last.out)
  {
    WrittenParts(kind, lines, crs, "");
    assert Trim("") == "";
    assert Written(lines, crs) + "" == Written(lines, crs);
  }

  /** Text after the last newline is what `finish` finds pending. */
  lemma WrittenParts(kind: Kind, lines: seq<string>, crs: seq<bool>, rest: string)
    requires |crs| == |lines| && Endings(lines) && Absent('\n', rest)
    ensures var step := Lines(kind, NONE, lines);
            var end := Finish(kind, Inspector(rest, step.event));
            ParseAll(kind, Written(lines, crs) + rest) == Fed(end.inspector, step.out + end.out)
  {
    SplitWritten(lines, crs);
    SplitExtends(Written(lines, crs), rest);
    SplitNone(rest);
    var ended := AllEnded(lines, crs);
    assert Init(ended + [""]) == ended && Last(ended + [""]) == "" && "" + rest == rest;
    assert Init(ended + [rest]) == ended && Last(ended + [rest]) == rest;
    forall i | 0 <= i < |lines| ensures DropCr(ended[i]) == DropCr(lines[i]) { EndedDrops(lines[i], crs[i]); }
    CrsDropped(kind, NONE, ended, lines);
  }

  lemma SplitNone(rest: string)
    requires Absent('\n', rest)
    ensures Split(rest, "\n") == [rest]
  {
    SplitAtNewline(rest);
    var i := Find(rest, "\n");
    FindMeets(rest, "\n");
    assert forall i :: 0 <= i < |rest| ==> rest[i..][0] == rest[i];
  }

  /** An event that the end of the stream closes. */
  lemma OpenEventRead(kind: Kind, events: seq<Message>, open: seq<Line>)
    requires AllWritable(events) && AllProper(open)
    ensures Endings(EventLines(events) + Texts(open))
    ensures Lines(kind, NONE, EventLines(events) + Texts(open)) == Step(Seen(kind, open), Heard(kind, events))
  {
    EventLinesEnding(events);
    TextsEnding(open);
    EventLinesRead(kind, events);
    TextsRead(kind, open);
    LinesAppend(kind, NONE, EventLines(events), Texts(open));
  }

  /** Any events, each of any lines in any order, written with either line end on
      any line, fed in any chunks, the last of them perhaps not closed: what is
      handed on is exactly the data of the events listened to, in order, whatever
      other lines stand among it, and the inspector ends as it began. */
  lemma EventsReadBack(kind: Kind, events: seq<Message>, open: seq<Line>, crs: seq<bool>, chunks: seq<string>)
    requires AllWritable(events) && AllProper(open)
    requires var lines := EventLines(events) + Texts(open); |crs| == |lines| && Concat(chunks) == Written(lines, crs)
    ensures var fed := FeedAll(kind, chunks);
            var end := Finish(kind, fed.inspector);
            end.inspector == FRESH && fed.out + end.out == Heard(kind, events) + HeardIn(kind, open)
  {
    ChunkingInvariance(kind, chunks);
    OpenEventRead(kind, events, open);
    WrittenRead(kind, EventLines(events) + Texts(open), crs);
  }

  lemma TrailStripped(text: string, trail: string)
    requires Ending(text) && One('\r').All(trail)
    ensures StripEnd(text + trail, One('\r')) == text
  {
    StripEndSkips(text, trail, One('\r'));
  }

  lemma StillNotBlank(text: string, trail: string)
    requires !Space.All(text)
    ensures Trim(text + trail) != ""
  {
    BlankTrims(text + trail);
    var i :| 0 <= i < |text| && !Space.Has(text[i]);
    assert (text + trail)[i] == text[i];
  }

  lemma LineStepIs(kind: Kind, e: Event, line: Line)
    requires Proper(line)
    ensures LineStep(kind, e, TextOf(line)) == Step(Heeded(kind, e, line), [])
  {
    LineRead(kind, e, line);
    LineOf(kind, e, TextOf(line));
  }

  lemma FinishLine(kind: Kind, e: Event, line: Line, trail: string)
    requires Proper(line) && One('\r').All(trail)
    ensures Finish(kind, Inspector(TextOf(line) + trail, e))
         == Fed(FRESH, FlushStep(kind, Heeded(kind, e, line)).out)
  {
    NotBlank(line);
    StillNotBlank(TextOf(line), trail);
    TrailStripped(TextOf(line), trail);
    LineStepIs(kind, e, line);
    FinishText(kind, e, TextOf(line) + trail, Heeded(kind, e, line));
  }

  lemma FinishText(kind: Kind, e: Event, pending: string, heeded: Event)
    requires Trim(pending) != "" && LineStep(kind, e, StripEnd(pending, One('\r'))) == Step(heeded, [])
    ensures Finish(kind, Inspector(pending, e)) == Fed(FRESH, FlushStep(kind, heeded).out)
  {
    assert [] + FlushStep(kind, heeded).out == FlushStep(kind, heeded).out;
  }

  lemma NotBlank(line: Line)
    requires Proper(line)
    ensures !Space.All(TextOf(line))
  {
    if !line.Other? { assert !Space.Has(TextOf(line)[0]); }
  }

  /** The same when the stream breaks off before the newline of its last line. */
  lemma UnclosedEventReadBack(kind: Kind, events: seq<Message>, open: seq<Line>, last: Line, crs: seq<bool>, trail: string, chunks: seq<string>)
    requires AllWritable(events) && AllProper(open + [last]) && One('\r').All(trail)
    requires var lines := EventLines(events) + Texts(open);
             |crs| == |lines| && Concat(chunks) == Written(lines, crs) + (TextOf(last) + trail)
    ensures var fed := FeedAll(kind, chunks);
            var end := Finish(kind, fed.inspector);
            end.inspector == FRESH && fed.out + end.out == Heard(kind, events) + HeardIn(kind, open + [last])
  {
    WithoutLast(open, last);
    ChunkingInvariance(kind, chunks);
    OpenEventRead(kind, events, open);
    WrittenParts(kind, EventLines(events) + Texts(open), crs, TextOf(last) + trail);
    FinishLine(kind, Seen(kind, open), last, trail);
    SeenOneMore(kind, open + [last]);
    FlushSeen(kind, open + [last]);
  }

  lemma WithoutLast(open: seq<Line>, last: Line)
    requires AllProper(open + [last])
    ensures AllProper(open) && Proper(last) && (open + [last])[..|open|] == open
    ensures Absent('\n', TextOf(last))
  {
    assert Proper((open + [last])[|open|]);
    forall i | 0 <= i < |open| ensures Proper(open[i]) { assert Proper((open + [last])[i]); }
  }

  lemma FlushSeen(kind: Kind, lines: seq<Line>)
    ensures FlushStep(kind, Seen(kind, lines)).out == HeardIn(kind, lines)
  {
  }

  /** And when nothing but blanks follows the last newline: they stay pending. */
  lemma BlankEndReadBack(kind: Kind, events: seq<Message>, open: seq<Line>, crs: seq<bool>, rest: string, chunks: seq<string>)
    requires AllWritable(events) && AllProper(open) && Space.All(rest) && Absent('\n', rest)
    requires var lines := EventLines(events) + Texts(open); |crs| == |lines| && Concat(chunks) == Written(lines, crs) + rest
    ensures var fed := FeedAll(kind, chunks);
            var end := Finish(kind, fed.inspector);
            end.inspector == Inspector(rest, NONE) && fed.out + end.out == Heard(kind, events) + HeardIn(kind, open)
  {
    ChunkingInvariance(kind, chunks);
    OpenEventRead(kind, events, open);
    WrittenParts(kind, EventLines(events) + Texts(open), crs, rest);
    BlankTrims(rest);
  }

  // ----- Nothing else can be written -----

  function FieldLine(prefix: string, l: string, v: string, r: string): Line
    requires prefix == "event:" || prefix == "data:"
  {
    if prefix == "event:" then Name(l, v, r) else Data(l, v, r)
  }

  lemma FieldLineText(prefix: string, l: string, v: string, r: string)
    requires prefix == "event:" || prefix == "data:"
    ensures TextOf(FieldLine(prefix, l, v, r)) == prefix + (l + v + r) && !FieldLine(prefix, l, v, r).Other?
    ensures var line := FieldLine(prefix, l, v, r); line.left == l && line.value == v && line.right == r
  {
    assert "event:"[0] != "data:"[0];
  }

  lemma PartsOfValue(prefix: string, text: string, i: nat, j: nat)
    requires prefix <= text && i <= j <= |text[|prefix|..]|
    ensures var value := text[|prefix|..]; text == prefix + (value[..i] + value[i..j] + value[j..])
  {
    var value := text[|prefix|..];
    assert text == prefix + value && value == value[..i] + value[i..j] + value[j..];
  }

  lemma FieldForm(text: string, prefix: string) returns (line: Line)
    requires Ending(text) && prefix <= text && (prefix == "event:" || prefix == "data:")
    ensures Proper(line) && TextOf(line) == text
  {
    var value := text[|prefix|..];
    var i, j := StripCut(value, Space);
    PartsOfValue(prefix, text, i, j);
    FieldLineText(prefix, value[..i], value[i..j], value[j..]);
    line := FieldLine(prefix, value[..i], value[i..j], value[j..]);
  }

  /** A line of any text is blank, or one of the three forms. */
  lemma EveryLineHasAForm(text: string)
    requires Ending(text)
    ensures Blank(text) || exists line :: Proper(line) && TextOf(line) == text
  {
    if "event:" <= text {
      var line := FieldForm(text, "event:");
    } else if "data:" <= text {
      var line := FieldForm(text, "data:");
    } else if !Blank(text) {
      assert Proper(Other(text)) && TextOf(Other(text)) == text;
    }
  }
}
