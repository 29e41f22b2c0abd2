/** The stream on the wire, in the text/event-stream format of section 9.2 of the WHATWG HTML
    standard: what the server prints and what the SDK's reader takes from it. */
module ServerSentEvents {
  import opened Domain
  import opened Text

  /** A printed event, with its position when it has one, or the keep-alive comment. */
  datatype Wire = Message(position: Option<nat>, name: string, data: string) | Comment

  function Sse(name: string, data: string, position: Option<nat>): string {
    (if position.None? then "" else "id: " + Decimal(position.value) + "\n")
    + "event: " + name + "\n" + "data: " + data + "\n" + "\n"
  }

  function Printed(w: Wire): string {
    match w
    case Message(position, name, data) => Sse(name, data, position)
    case Comment => ": keepalive" + "\n" + "\n"
  }

  function PrintedAll(wires: seq<Wire>): string {
    if wires == [] then "" else Printed(wires[0]) + PrintedAll(wires[1..])
  }

  // ---------------------------------------------------------------- reading

  /** Where the first line ends. */
  function LineEnd(text: string, breaks: char -> bool): (i: nat)
    ensures i <= |text|
  {
    if text == "" || breaks(text[0]) then 0 else 1 + LineEnd(text[1..], breaks)
  }

  /** The lines of a text, each without its end; `breaks` says which characters end one, and a
      carriage return and line feed end one together. */
  function Lines(text: string, breaks: char -> bool): seq<string>
    decreases |text|
  {
    if text == "" then []
    else
      var i := LineEnd(text, breaks);
      if i == |text| then [text]
      else
        var both := text[i] == '\r' && i + 1 < |text| && text[i + 1] == '\n';
        [text[..i]] + Lines(text[if both then i + 2 else i + 1..], breaks)
  }

  /** Where section 9.2 of the standard ends a line. */
  predicate StandardBreak(c: char) {
    c == '\n' || c == '\r'
  }

  /** Where the SDK's reader ends a line: its HTTP library splits as Python's `str.splitlines` does. */
  predicate PythonBreak(c: char) {
    || '\n' <= c <= '\r' || '\U{1C}' <= c <= '\U{1E}'
    || c == '\U{85}' || c == '\U{2028}' || c == '\U{2029}'
  }

  /** What the reader keeps between lines, and what it has yielded. */
  datatype Reader = Reader(name: string, data: string, events: seq<(string, string)>)

  const FRESH := Reader("message", "", [])

  function TakeLine(r: Reader, line: string): Reader {
    if "event: " <= line then r.(name := line[|"event: "|..])
    else if "data: " <= line then r.(data := line[|"data: "|..])
    else if line == "" && r.data != "" then Reader("message", "", r.events + [(r.name, r.data)])
    else r
  }

  /** The reader's loop over the lines of a response. */
  method ReadEvents(lines: seq<string>) returns (events: seq<(string, string)>)
    ensures events == TakeLines(FRESH, lines).events
  {
    var name, data := "message", "";
    events := [];
    for i := 0 to |lines|
      invariant Reader(name, data, events) == TakeLines(FRESH, lines[..i])
    {
      var line := lines[i];
      TakeOneMore(FRESH, lines, i);
      if "event: " <= line {
        name := line[|"event: "|..];
      } else if "data: " <= line {
        data := line[|"data: "|..];
      } else if line == "" && data != "" {
        events := events + [(name, data)];
        name, data := "message", "";
      }
    }
    assert lines[..|lines|] == lines;
  }

  function TakeLines(r: Reader, lines: seq<string>): Reader
    decreases |lines|
  {
    if lines == [] then r else TakeLines(TakeLine(r, lines[0]), lines[1..])
  }

  lemma {:induction false} TakeBoth(r: Reader, a: seq<string>, b: seq<string>)
    ensures TakeLines(r, a + b) == TakeLines(TakeLines(r, a), b)
    decreases |a|
  {
    if a == [] {
      assert a + b == b;
    } else {
      assert (a + b)[1..] == a[1..] + b;
      TakeBoth(TakeLine(r, a[0]), a[1..], b);
    }
  }

  lemma TakeOneMore(r: Reader, lines: seq<string>, i: nat)
    requires i < |lines|
    ensures TakeLines(r, lines[..i + 1]) == TakeLine(TakeLines(r, lines[..i]), lines[i])
  {
    assert lines[..i + 1] == lines[..i] + [lines[i]];
    TakeBoth(r, lines[..i], [lines[i]]);
  }

  // ---------------------------------------------------------------- what is printed is read

  ghost predicate Unbroken(s: string, breaks: char -> bool) {
    forall i :: 0 <= i < |s| ==> !breaks(s[i])
  }

  /** A line ends at a newline, and at none of the characters the printer itself writes. */
  ghost predicate LineBreaks(breaks: char -> bool) {
    breaks('\n') && forall c :: ' ' <= c <= '~' ==> !breaks(c)
  }

  lemma {:induction false} LineEndsAt(line: string, end: char, rest: string, breaks: char -> bool)
    requires breaks(end) && Unbroken(line, breaks)
    ensures LineEnd(line + [end] + rest, breaks) == |line|
  {
    var text := line + [end] + rest;
    if line != "" {
      assert text[0] == line[0];
      assert text[1..] == line[1..] + [end] + rest;
      LineEndsAt(line[1..], end, rest, breaks);
    }
  }

  lemma FirstLine(line: string, end: char, rest: string, breaks: char -> bool)
    requires breaks(end) && end != '\r' && Unbroken(line, breaks)
    ensures Lines(line + [end] + rest, breaks) == [line] + Lines(rest, breaks)
  {
    var text := line + [end] + rest;
    LineEndsAt(line, end, rest, breaks);
    assert text[|line|] == end;
    assert text[..|line|] == line && text[|line| + 1..] == rest;
  }

  /** An event a stream may carry: a name and non-empty data of one line each. */
  ghost predicate OneLine(w: Wire, breaks: char -> bool) {
    w.Message? ==> Unbroken(w.name, breaks) && Unbroken(w.data, breaks) && w.data != ""
  }

  function LinesOf(w: Wire): seq<string> {
    match w
    case Comment => [": keepalive", ""]
    case Message(position, name, data) =>
      (if position.None? then [] else ["id: " + Decimal(position.value)]) + ["event: " + name, "data: " + data, ""]
  }

  /** The text of some lines, each with its end. */
  function Joined(lines: seq<string>): string {
    if lines == [] then "" else lines[0] + "\n" + Joined(lines[1..])
  }

  lemma {:induction false} LinesOfJoined(lines: seq<string>, rest: string, breaks: char -> bool)
    requires breaks('\n') && forall i :: 0 <= i < |lines| ==> Unbroken(lines[i], breaks)
    ensures Lines(Joined(lines) + rest, breaks) == lines + Lines(rest, breaks)
    decreases |lines|
  {
    hide Lines;
    if lines == [] {
      assert "" + rest == rest;
    } else {
      LinesOfJoined(lines[1..], rest, breaks);
      FirstLine(lines[0], '\n', Joined(lines[1..]) + rest, breaks);
      assert lines[0] + ['\n'] + (Joined(lines[1..]) + rest) == Joined(lines) + rest;
      assert [lines[0]] + (lines[1..] + Lines(rest, breaks)) == lines + Lines(rest, breaks);
    }
  }

  lemma JoinedPair(a: string, b: string)
    ensures Joined([a, b]) == a + "\n" + b + "\n"
  {
    assert [a, b][1..] == [b] && [b][1..] == [];
    assert Joined([b]) == b + "\n" + "";
  }

  lemma JoinedTriple(a: string, b: string, c: string)
    ensures Joined([a, b, c]) == a + "\n" + b + "\n" + c + "\n"
  {
    JoinedPair(b, c);
    assert [a, b, c][1..] == [b, c];
  }

  /** A printed event is its lines. */
  lemma PrintedIsJoined(w: Wire)
    ensures Printed(w) == Joined(LinesOf(w))
  {
    hide Joined, Decimal;
    match w
    case Comment => JoinedPair(": keepalive", "");
    case Message(position, name, data) =>
      var three := ["event: " + name, "data: " + data, ""];
      JoinedTriple("event: " + name, "data: " + data, "");
      if position.Some? {
        JoinedMore("id: " + Decimal(position.value), three);
      } else {
        assert LinesOf(w) == three;
      }
  }

  lemma JoinedMore(line: string, lines: seq<string>)
    ensures Joined([line] + lines) == line + "\n" + Joined(lines)
  {
    assert ([line] + lines)[1..] == lines;
  }

  lemma LinesAreUnbroken(w: Wire, breaks: char -> bool)
    requires LineBreaks(breaks) && OneLine(w, breaks)
    ensures forall i :: 0 <= i < |LinesOf(w)| ==> Unbroken(LinesOf(w)[i], breaks)
  {
    if w.Message? && w.position.Some? {
      DecimalIsDigits(w.position.value);
    }
  }

  lemma PrintedLines(w: Wire, rest: string, breaks: char -> bool)
    requires LineBreaks(breaks) && OneLine(w, breaks)
    ensures Lines(Printed(w) + rest, breaks) == LinesOf(w) + Lines(rest, breaks)
  {
    hide Lines, Printed, Joined, LinesOf;
    PrintedIsJoined(w);
    LinesAreUnbroken(w, breaks);
    LinesOfJoined(LinesOf(w), rest, breaks);
  }

  /** The events among the wires, as the reader yields them. */
  function EventsOf(wires: seq<Wire>): seq<(string, string)> {
    if wires == [] then [] else EventOf(wires[0]) + EventsOf(wires[1..])
  }

  lemma TakeName(r: Reader, name: string)
    ensures TakeLine(r, "event: " + name) == r.(name := name)
  {
    assert ("event: " + name)[|"event: "|..] == name;
  }

  lemma TakeData(r: Reader, data: string)
    ensures TakeLine(r, "data: " + data) == r.(data := data)
  {
    var line := "data: " + data;
    assert line[0] == 'd' && "event: "[0] == 'e';
    assert line[|"data: "|..] == data;
  }

  lemma TakeNothing(r: Reader, line: string)
    requires line != "" && line[0] != 'e' && line[0] != 'd'
    ensures TakeLine(r, line) == r
  {
    assert "event: "[0] == 'e' && "data: "[0] == 'd';
  }

  lemma TakeThree(r: Reader, a: string, b: string, c: string)
    ensures TakeLines(r, [a, b, c]) == TakeLine(TakeLine(TakeLine(r, a), b), c)
  {
    hide TakeLine, TakeLines;
    TakeFirst(r, a, [b, c]);
    TakeFirst(TakeLine(r, a), b, [c]);
    TakeFirst(TakeLine(TakeLine(r, a), b), c, []);
    NoLines(TakeLine(TakeLine(TakeLine(r, a), b), c));
    assert [a] + [b, c] == [a, b, c] && [b] + [c] == [b, c] && [c] + [] == [c];
  }

  lemma TakeFirst(r: Reader, line: string, lines: seq<string>)
    ensures TakeLines(r, [line] + lines) == TakeLines(TakeLine(r, line), lines)
  {
    hide TakeLine;
    assert ([line] + lines)[1..] == lines;
  }

  /** One printed event read leaves the reader fresh, with one more event. */
  lemma OneWireRead(w: Wire, events: seq<(string, string)>)
    requires w.Message? ==> w.data != ""
    ensures TakeLines(Reader("message", "", events), LinesOf(w)) ==
      Reader("message", "", events + if w.Message? then [(w.name, w.data)] else [])
  {
    hide TakeLines, Decimal;
    var r := Reader("message", "", events);
    match w
    case Comment =>
      TakeFirst(r, ": keepalive", [""]);
      TakeNothing(r, ": keepalive");
      TakeFirst(r, "", []);
      assert [": keepalive"] + [""] == [": keepalive", ""] && [""] + [] == [""];
      NoLines(r);
      assert events + [] == events;
    case Message(position, name, data) =>
      var three := ["event: " + name, "data: " + data, ""];
      TakeThree(r, "event: " + name, "data: " + data, "");
      TakeName(r, name);
      TakeData(r.(name := name), data);
      if position.Some? {
        var head := "id: " + Decimal(position.value);
        assert head[0] == 'i';
        TakeNothing(r, head);
        TakeFirst(r, head, three);
      } else {
        assert LinesOf(w) == three;
      }
  }

  lemma NoLines(r: Reader)
    ensures TakeLines(r, []) == r
  {
  }

  /** A reader between events, with these behind it. */
  function Idle(events: seq<(string, string)>): Reader {
    Reader("message", "", events)
  }

  function EventOf(w: Wire): seq<(string, string)> {
    if w.Message? then [(w.name, w.data)] else []
  }

  lemma FirstWireRead(w: Wire, rest: string, breaks: char -> bool, events: seq<(string, string)>)
    requires LineBreaks(breaks) && OneLine(w, breaks)
    ensures TakeLines(Idle(events), Lines(Printed(w) + rest, breaks)) == TakeLines(Idle(events + EventOf(w)), Lines(rest, breaks))
  {
    hide TakeLines, Lines, Printed, LinesOf, LineBreaks;
    PrintedLines(w, rest, breaks);
    HasData(w, breaks);
    TakeBoth(Idle(events), LinesOf(w), Lines(rest, breaks));
    OneWireRead(w, events);
  }

  lemma {:induction false} UnbrokenReadsBack(wires: seq<Wire>, breaks: char -> bool, events: seq<(string, string)>)
    requires LineBreaks(breaks) && forall i :: 0 <= i < |wires| ==> OneLine(wires[i], breaks)
    ensures TakeLines(Idle(events), Lines(PrintedAll(wires), breaks)) == Idle(events + EventsOf(wires))
    decreases |wires|
  {
    hide TakeLines, Lines, Printed, OneLine, LineBreaks, Idle, EventOf;
    if wires == [] {
      NoText(breaks);
      NoLines(Idle(events));
      assert events + [] == events;
    } else {
      var w, rest := wires[0], wires[1..];
      FirstWireRead(w, PrintedAll(rest), breaks, events);
      UnbrokenReadsBack(rest, breaks, events + EventOf(w));
      assert events + EventOf(w) + EventsOf(rest) == events + EventsOf(wires);
    }
  }

  lemma HasData(w: Wire, breaks: char -> bool)
    requires OneLine(w, breaks)
    ensures w.Message? ==> w.data != ""
  {
  }

  lemma NoText(breaks: char -> bool)
    ensures Lines("", breaks) == []
  {
  }

  // ---------------------------------------------------------------- exactly what is read back

  function EventsRead(text: string, breaks: char -> bool): seq<(string, string)> {
    TakeLines(Idle([]), Lines(text, breaks)).events
  }

  lemma {:induction false} LineEndsFirst(text: string, breaks: char -> bool)
    ensures Unbroken(text[..LineEnd(text, breaks)], breaks)
    ensures LineEnd(text, breaks) < |text| ==> breaks(text[LineEnd(text, breaks)])
  {
    if text != "" && !breaks(text[0]) {
      LineEndsFirst(text[1..], breaks);
      var i := LineEnd(text, breaks);
      assert text[..i] == [text[0]] + text[1..][..i - 1];
    }
  }

  ghost predicate AllUnbroken(lines: seq<string>, breaks: char -> bool) {
    forall i :: 0 <= i < |lines| ==> Unbroken(lines[i], breaks)
  }

  lemma {:induction false} LinesHoldNoBreak(text: string, breaks: char -> bool)
    ensures AllUnbroken(Lines(text, breaks), breaks)
    decreases |text|
  {
    hide Unbroken;
    if text != "" {
      var i := LineEnd(text, breaks);
      LineEndsFirst(text, breaks);
      if i == |text| {
        assert text[..i] == text;
      } else {
        var both := text[i] == '\r' && i + 1 < |text| && text[i + 1] == '\n';
        LinesHoldNoBreak(text[if both then i + 2 else i + 1..], breaks);
      }
    }
  }

  /** An event the reader may yield: no break in its name or data, and data there is. */
  ghost predicate Readable(e: (string, string), breaks: char -> bool) {
    Unbroken(e.0, breaks) && Unbroken(e.1, breaks) && e.1 != ""
  }

  /** Whatever the reader keeps or has yielded came from within single lines. */
  ghost predicate FromLines(r: Reader, breaks: char -> bool) {
    && Unbroken(r.name, breaks) && Unbroken(r.data, breaks)
    && forall e :: e in r.events ==> Readable(e, breaks)
  }

  lemma TakeLineFromLines(r: Reader, line: string, breaks: char -> bool)
    requires FromLines(r, breaks) && Unbroken(line, breaks) && Unbroken("message", breaks)
    ensures FromLines(TakeLine(r, line), breaks)
  {
  }

  lemma {:induction false} TakeLinesFromLines(r: Reader, lines: seq<string>, breaks: char -> bool)
    requires FromLines(r, breaks) && AllUnbroken(lines, breaks) && Unbroken("message", breaks)
    ensures FromLines(TakeLines(r, lines), breaks)
    decreases |lines|
  {
    hide FromLines, TakeLine, Unbroken;
    if lines != [] {
      TakeLineFromLines(r, lines[0], breaks);
      TakeLinesFromLines(TakeLine(r, lines[0]), lines[1..], breaks);
    }
  }

  /** No event the reader yields, from any text at all, holds a break. */
  lemma YieldsOnlyReadable(text: string, breaks: char -> bool)
    requires LineBreaks(breaks)
    ensures forall e :: e in EventsRead(text, breaks) ==> Readable(e, breaks)
  {
    hide TakeLines, Lines, AllUnbroken;
    LinesHoldNoBreak(text, breaks);
    TakeLinesFromLines(Idle([]), Lines(text, breaks), breaks);
  }

  lemma {:induction false} EventsOfHas(wires: seq<Wire>, i: nat)
    requires i < |wires| && wires[i].Message?
    ensures (wires[i].name, wires[i].data) in EventsOf(wires)
  {
    if i > 0 {
      EventsOfHas(wires[1..], i - 1);
    } else {
      assert EventOf(wires[0])[0] == (wires[0].name, wires[0].data);
    }
  }

  /** What the server prints the client reads, every event in order, its name and its data, and nothing
      of the positions and comments in between, exactly when no event holds a break in its name or
      data (or has no data, which no JSON text has). */
  lemma StreamReadsBack(wires: seq<Wire>, breaks: char -> bool)
    requires LineBreaks(breaks)
    ensures EventsRead(PrintedAll(wires), breaks) == EventsOf(wires) <==>
      forall i :: 0 <= i < |wires| ==> OneLine(wires[i], breaks)
  {
    hide TakeLines, Lines, LineBreaks, PrintedAll, Unbroken;
    if forall i :: 0 <= i < |wires| ==> OneLine(wires[i], breaks) {
      UnbrokenReadsBack(wires, breaks, []);
      assert [] + EventsOf(wires) == EventsOf(wires);
    } else {
      var i :| 0 <= i < |wires| && !OneLine(wires[i], breaks);
      EventsOfHas(wires, i);
      YieldsOnlyReadable(PrintedAll(wires), breaks);
    }
  }

  lemma BothAreLineBreaks()
    ensures LineBreaks(StandardBreak) && LineBreaks(PythonBreak)
  {
  }

  /** JSON text holds no control character below U+0020 unescaped; what is left of the breaks are three
      characters the printer leaves as they are. */
  lemma BreaksInJson(c: char)
    requires c >= ' '
    ensures !StandardBreak(c) && (PythonBreak(c) <==> c == '\U{85}' || c == '\U{2028}' || c == '\U{2029}')
  {
  }

  /** Text printed as JSON: the three characters are all that can cut it. */
  ghost predicate IsJson(s: string) {
    s != "" && forall i :: 0 <= i < |s| ==> s[i] >= ' '
  }

  predicate Separates(c: char) {
    c == '\U{85}' || c == '\U{2028}' || c == '\U{2029}'
  }

  /** An event as the service prints it, a type's name and a JSON text: by the standard's line ends it
      is always read back, by the SDK's exactly when neither holds U+0085, U+2028 or U+2029. */
  lemma EventReadsBackIff(w: Wire)
    requires w.Message? && IsJson(w.data) && IsJson(w.name)
    ensures EventsRead(Printed(w), StandardBreak) == [(w.name, w.data)]
    ensures EventsRead(Printed(w), PythonBreak) == [(w.name, w.data)] <==>
      forall c :: c in w.name + w.data ==> !Separates(c)
  {
    hide EventsRead, Printed;
    BothAreLineBreaks();
    var wires := [w];
    assert PrintedAll(wires) == Printed(w) && EventsOf(wires) == [(w.name, w.data)] by {
      assert wires[1..] == [];
      assert Printed(w) + "" == Printed(w) && EventOf(w) + [] == [(w.name, w.data)];
    }
    StreamReadsBack(wires, StandardBreak);
    StreamReadsBack(wires, PythonBreak);
    assert wires[0] == w;
    assert (forall c :: c in w.name + w.data ==> !Separates(c)) <==> OneLine(w, PythonBreak) by {
      var both := w.name + w.data;
      assert forall i :: 0 <= i < |w.name| ==> w.name[i] in both;
      assert forall i :: 0 <= i < |w.data| ==> w.data[i] in both;
      forall i | 0 <= i < |w.name| ensures PythonBreak(w.name[i]) <==> Separates(w.name[i]) {
        BreaksInJson(w.name[i]);
      }
      forall i | 0 <= i < |w.data| ensures PythonBreak(w.data[i]) <==> Separates(w.data[i]) {
        BreaksInJson(w.data[i]);
      }
    }
  }

  // ---------------------------------------------------------------- an event cut short

  /** The position goes first, on a line of its own: what a standard client sends back to be resumed from. */
  lemma PositionLine(position: nat, name: string, data: string, breaks: char -> bool)
    requires LineBreaks(breaks)
    ensures
      var lines := Lines(Printed(Message(Some(position), name, data)), breaks);
      lines != [] && lines[0] == "id: " + Decimal(position)
  {
    hide Lines, Decimal;
    var head, rest := "id: " + Decimal(position), Printed(Message(None, name, data));
    DecimalIsDigits(position);
    assert Printed(Message(Some(position), name, data)) == head + ['\n'] + rest;
    FirstLine(head, '\n', rest, breaks);
  }

  /** The reader drops an event's position, whatever the event holds. */
  lemma PositionIsSkipped(position: nat, name: string, data: string, breaks: char -> bool)
    requires LineBreaks(breaks)
    ensures EventsRead(Printed(Message(Some(position), name, data)), breaks) ==
      EventsRead(Printed(Message(None, name, data)), breaks)
  {
    hide Lines, TakeLines, Decimal;
    var head, rest := "id: " + Decimal(position), Printed(Message(None, name, data));
    DecimalIsDigits(position);
    assert Printed(Message(Some(position), name, data)) == head + ['\n'] + rest;
    FirstLine(head, '\n', rest, breaks);
    assert head[0] == 'i';
    TakeNothing(Idle([]), head);
    TakeFirst(Idle([]), head, Lines(rest, breaks));
  }

  /** The pieces of a text between its breaks, one more than it has breaks. */
  function Pieces(text: string, breaks: char -> bool): (pieces: seq<string>)
    ensures pieces != []
    decreases |text|
  {
    var i := LineEnd(text, breaks);
    if i == |text| then [text] else [text[..i]] + Pieces(text[i + 1..], breaks)
  }

  lemma {:induction false} LinesOfPieces(head: string, text: string, rest: string, breaks: char -> bool)
    requires breaks('\n') && Unbroken(head, breaks) && '\r' !in text
    ensures
      var pieces := Pieces(text, breaks);
      Lines(head + text + ['\n'] + rest, breaks) == [head + pieces[0]] + pieces[1..] + Lines(rest, breaks)
    decreases |text|
  {
    hide Lines;
    var i, pieces := LineEnd(text, breaks), Pieces(text, breaks);
    LineEndsFirst(text, breaks);
    if i == |text| {
      assert text[..i] == text && pieces == [text] && pieces[1..] == [];
      FirstLine(head + text, '\n', rest, breaks);
      assert [head + text] + [] + Lines(rest, breaks) == [head + text] + Lines(rest, breaks);
    } else {
      var first, end, more := text[..i], text[i], text[i + 1..];
      var others := Pieces(more, breaks);
      assert pieces == [first] + others && pieces[1..] == others;
      assert head + text + ['\n'] + rest == head + first + [end] + ("" + more + ['\n'] + rest);
      FirstLine(head + first, end, "" + more + ['\n'] + rest, breaks);
      LinesOfPieces("", more, rest, breaks);
      assert "" + others[0] == others[0] && [others[0]] + others[1..] == others;
      assert [head + first] + (others + Lines(rest, breaks)) == [head + first] + others + Lines(rest, breaks);
    }
  }

  /** The value of the last line that carries the field, or the default. */
  function LastField(field: string, lines: seq<string>, default: string): string {
    if lines == [] then default
    else if field <= lines[|lines| - 1] then lines[|lines| - 1][|field|..]
    else LastField(field, lines[..|lines| - 1], default)
  }

  /** Where the first blank line is. */
  function FirstBlank(lines: seq<string>): (i: nat)
    ensures i <= |lines| && NoneBlank(lines[..i]) && (i < |lines| ==> lines[i] == "")
  {
    if lines == [] || lines[0] == "" then 0
    else
      var i := FirstBlank(lines[1..]);
      assert lines[..i + 1] == [lines[0]] + lines[1..][..i];
      1 + i
  }

  /** The events some lines stand for. Each blank line ends a block; its last `event: ` line names the
      event, its last `data: ` line is its data, and a block left without data is no event. */
  function BlockEvents(name: string, data: string, lines: seq<string>): seq<(string, string)>
    decreases |lines|
  {
    var b := FirstBlank(lines);
    if b == |lines| then []
    else
      var named, given := LastField("event: ", lines[..b], name), LastField("data: ", lines[..b], data);
      if given == "" then BlockEvents(named, "", lines[b + 1..])
      else [(named, given)] + BlockEvents("message", "", lines[b + 1..])
  }

  lemma {:induction false} BlockTaken(r: Reader, lines: seq<string>)
    requires NoneBlank(lines)
    ensures TakeLines(r, lines) ==
      Reader(LastField("event: ", lines, r.name), LastField("data: ", lines, r.data), r.events)
    decreases |lines|
  {
    if lines != [] {
      var most, last := lines[..|lines| - 1], lines[|lines| - 1];
      BlockTaken(r, most);
      TakeOneMore(r, lines, |lines| - 1);
      assert lines[..|lines|] == lines;
      assert "event: "[0] == 'e' && "data: "[0] == 'd';
    }
  }

  lemma TakeBlank(r: Reader)
    ensures TakeLine(r, "") == if r.data == "" then r else Idle(r.events + [(r.name, r.data)])
  {
  }

  /** One block and its blank line. */
  lemma BlockEnds(r: Reader, block: seq<string>, rest: seq<string>)
    requires NoneBlank(block)
    ensures
      var named, given := LastField("event: ", block, r.name), LastField("data: ", block, r.data);
      TakeLines(r, block + ([""] + rest)) ==
        TakeLines(if given == "" then Reader(named, "", r.events) else Idle(r.events + [(named, given)]), rest)
  {
    hide TakeLines, LastField, TakeLine;
    TakeBoth(r, block, [""] + rest);
    BlockTaken(r, block);
    TakeFirst(TakeLines(r, block), "", rest);
    TakeBlank(TakeLines(r, block));
  }

  lemma FirstBlankAt(block: seq<string>, rest: seq<string>)
    requires NoneBlank(block)
    ensures FirstBlank(block + ([""] + rest)) == |block|
  {
    hide FirstBlank;
    var all, b := block + ([""] + rest), FirstBlank(block + ([""] + rest));
    assert all[|block|] == "";
    assert forall i :: 0 <= i < |block| ==> all[i] == block[i];
    assert forall i :: 0 <= i < b ==> all[..b][i] == all[i];
  }

  lemma FirstBlockOf(name: string, data: string, block: seq<string>, rest: seq<string>)
    requires NoneBlank(block)
    ensures
      var named, given := LastField("event: ", block, name), LastField("data: ", block, data);
      BlockEvents(name, data, block + ([""] + rest)) ==
        if given == "" then BlockEvents(named, "", rest) else [(named, given)] + BlockEvents("message", "", rest)
  {
    hide FirstBlank, LastField, NoneBlank;
    FirstBlankAt(block, rest);
    var all := block + ([""] + rest);
    assert all[..|block|] == block && all[|block| + 1..] == rest;
  }

  lemma NoBlock(name: string, data: string, lines: seq<string>)
    requires NoneBlank(lines)
    ensures BlockEvents(name, data, lines) == []
  {
  }

  lemma {:induction false} TakenInBlocks(r: Reader, lines: seq<string>)
    ensures TakeLines(r, lines).events == r.events + BlockEvents(r.name, r.data, lines)
    decreases |lines|
  {
    hide TakeLines, LastField, NoneBlank, BlockEvents, FirstBlank;
    var b := FirstBlank(lines);
    if b == |lines| {
      assert lines[..b] == lines;
      BlockTaken(r, lines);
      NoBlock(r.name, r.data, lines);
      assert r.events + [] == r.events;
    } else {
      var block, rest := lines[..b], lines[b + 1..];
      assert lines == block + ([""] + rest);
      BlockEnds(r, block, rest);
      FirstBlockOf(r.name, r.data, block, rest);
      var named, given := LastField("event: ", block, r.name), LastField("data: ", block, r.data);
      if given == "" {
        TakenInBlocks(Reader(named, "", r.events), rest);
      } else {
        TakenInBlocks(Idle(r.events + [(named, given)]), rest);
        assert r.events + [(named, given)] + BlockEvents("message", "", rest)
            == r.events + ([(named, given)] + BlockEvents("message", "", rest));
      }
    }
  }

  /** What the reader makes of any event there is, broken or not: the data's first piece is its data
      line, and its further pieces are read as lines of their own. */
  lemma TextReadAs(position: Option<nat>, name: string, data: string, breaks: char -> bool)
    requires LineBreaks(breaks) && Unbroken(name, breaks) && '\r' !in data
    ensures
      var pieces := Pieces(data, breaks);
      EventsRead(Printed(Message(position, name, data)), breaks) == BlockEvents(name, pieces[0], pieces[1..] + [""])
  {
    hide Lines, TakeLines, Decimal, BlockEvents, Pieces;
    if position.Some? {
      PositionIsSkipped(position.value, name, data, breaks);
    }
    var first, pieces := "event: " + name, Pieces(data, breaks);
    var text := Printed(Message(None, name, data));
    assert text == first + ['\n'] + ("data: " + data + ['\n'] + ("" + ['\n'] + ""));
    FirstLine(first, '\n', "data: " + data + ['\n'] + ("" + ['\n'] + ""), breaks);
    LinesOfPieces("data: ", data, "" + ['\n'] + "", breaks);
    FirstLine("", '\n', "", breaks);
    NoText(breaks);
    var second, rest := "data: " + pieces[0], pieces[1..] + [""];
    assert [""] + [] == [""];
    assert [first] + ([second] + pieces[1..] + [""]) == [first] + ([second] + rest);
    var r := Idle([]);
    TakeName(r, name);
    TakeData(r.(name := name), pieces[0]);
    TakeFirst(r, first, [second] + rest);
    TakeFirst(r.(name := name), second, rest);
    TakenInBlocks(r.(name := name, data := pieces[0]), rest);
    assert [] + BlockEvents(name, pieces[0], rest) == BlockEvents(name, pieces[0], rest);
  }

  /** Without a blank piece, the event read is named by the last piece that is an `event: ` line and
      holds what the last one that is a `data: ` line holds; without such pieces, what came before the
      first break. */
  lemma TextReadAsOne(position: Option<nat>, name: string, data: string, breaks: char -> bool)
    requires LineBreaks(breaks) && Unbroken(name, breaks) && '\r' !in data && NoneBlank(Pieces(data, breaks)[1..])
    ensures
      var pieces := Pieces(data, breaks);
      var named, given := LastField("event: ", pieces[1..], name), LastField("data: ", pieces[1..], pieces[0]);
      EventsRead(Printed(Message(position, name, data)), breaks) == if given == "" then [] else [(named, given)]
  {
    hide EventsRead, Printed, Pieces, LastField, BlockEvents, NoneBlank;
    TextReadAs(position, name, data, breaks);
    var pieces := Pieces(data, breaks);
    FirstBlockOf(name, pieces[0], pieces[1..], []);
    assert pieces[1..] + ([""] + []) == pieces[1..] + [""];
    var named, given := LastField("event: ", pieces[1..], name), LastField("data: ", pieces[1..], pieces[0]);
    NothingLeft("message", "");
    NothingLeft(named, "");
    assert [(named, given)] + [] == [(named, given)];
  }

  lemma {:induction false} PiecesOfPair(one: string, end: char, rest: string, breaks: char -> bool)
    requires Unbroken(one, breaks) && breaks(end)
    ensures Pieces(one + [end] + rest, breaks) == [one] + Pieces(rest, breaks)
  {
    var text := one + [end] + rest;
    LineEndsAt(one, end, rest, breaks);
    assert text[..|one|] == one && text[|one| + 1..] == rest;
  }

  lemma PieceOfOne(one: string, breaks: char -> bool)
    requires Unbroken(one, breaks)
    ensures Pieces(one, breaks) == [one]
  {
    WholeIsOneLine(one, breaks);
  }

  /** Data with one break and then no field: the reader yields the data up to the break, and drops the
      rest, whatever it is. */
  lemma CutAtTheBreak(position: Option<nat>, name: string, data: string, end: char, more: string, breaks: char -> bool)
    requires LineBreaks(breaks) && breaks(end) && '\r' !in data + [end] + more
    requires Unbroken(name, breaks) && Unbroken(data, breaks) && Unbroken(more, breaks)
    ensures EventsRead(Printed(Message(position, name, data + [end] + more)), breaks) ==
      if "data: " <= more then if more == "data: " then [] else [(name, more[|"data: "|..])]
      else if data == "" then []
      else [(if "event: " <= more then more[|"event: "|..] else name, data)]
  {
    hide EventsRead, Printed, Pieces;
    PiecesOfPair(data, end, more, breaks);
    PieceOfOne(more, breaks);
    TextReadAs(position, name, data + [end] + more, breaks);
    var pieces := Pieces(data + [end] + more, breaks);
    assert pieces == [data, more] && pieces[1..] == [more];
    assert "event: "[0] == 'e' && "data: "[0] == 'd';
    assert [more][..0] == [];
    assert |more| >= |"data: "| && more[|"data: "|..] == "" ==> |more| == |"data: "|;
    if more == "" {
      TwoBlanks(name, data);
    } else {
      TextReadAsOne(position, name, data + [end] + more, breaks);
      assert LastField("event: ", [more], name) == if "event: " <= more then more[|"event: "|..] else name;
      assert LastField("data: ", [more], data) == if "data: " <= more then more[|"data: "|..] else data;
    }
  }

  lemma TwoBlanks(name: string, data: string)
    ensures BlockEvents(name, data, [""] + [""]) == if data == "" then [] else [(name, data)]
  {
    hide BlockEvents;
    FirstBlockOf(name, data, [], [""]);
    FirstBlockOf(name, "", [], []);
    FirstBlockOf("message", "", [], []);
    assert [] + ([""] + [""]) == [""] + [""] && [] + ([""] + []) == [""];
    NothingLeft("message", "");
    NothingLeft(name, "");
    assert [(name, data)] + [] == [(name, data)];
  }

  lemma NothingLeft(name: string, data: string)
    ensures BlockEvents(name, data, []) == []
  {
  }

  /** A line separator in an event's text: the standard's reader takes the whole, the SDK's what comes
      before it. */
  lemma SeparatorCutsTheEvent()
    ensures
      var printed := Printed(Message(Some(1), "m", "a\U{2028}b"));
      && EventsRead(printed, StandardBreak) == [("m", "a\U{2028}b")]
      && EventsRead(printed, PythonBreak) == [("m", "a")]
  {
    hide EventsRead, Printed;
    BothAreLineBreaks();
    assert "a" + ['\U{2028}'] + "b" == "a\U{2028}b";
    CutAtTheBreak(Some(1), "m", "a", '\U{2028}', "b", PythonBreak);
    EventReadsBackIff(Message(Some(1), "m", "a\U{2028}b"));
  }

  // ---------------------------------------------------------------- a text that breaks off

  lemma {:induction false} WholeIsOneLine(line: string, breaks: char -> bool)
    requires Unbroken(line, breaks)
    ensures LineEnd(line, breaks) == |line|
  {
    if line != "" {
      WholeIsOneLine(line[1..], breaks);
    }
  }

  ghost predicate NoneBlank(lines: seq<string>) {
    forall i :: 0 <= i < |lines| ==> lines[i] != ""
  }

  /** Lines of which the last alone is blank, broken off before their end: no blank line arrived. */
  lemma {:induction false} BrokenOffLines(lines: seq<string>, n: nat, breaks: char -> bool)
    requires breaks('\n') && AllUnbroken(lines, breaks) && lines != [] && n < |Joined(lines)|
    requires lines[|lines| - 1] == "" && NoneBlank(lines[..|lines| - 1])
    ensures NoneBlank(Lines(Joined(lines)[..n], breaks))
    decreases |lines|
  {
    hide Lines;
    var first, rest, text := lines[0], lines[1..], Joined(lines)[..n];
    if n <= |first| {
      assert text == first[..n];
      LinesOfOne(text, breaks);
    } else {
      assert rest != [];
      assert first == lines[..|lines| - 1][0];
      assert text == first + ['\n'] + Joined(rest)[..n - |first| - 1];
      FirstLine(first, '\n', Joined(rest)[..n - |first| - 1], breaks);
      assert rest[..|rest| - 1] == lines[..|lines| - 1][1..];
      BrokenOffLines(rest, n - |first| - 1, breaks);
    }
  }

  lemma LinesOfOne(line: string, breaks: char -> bool)
    requires Unbroken(line, breaks)
    ensures Lines(line, breaks) == if line == "" then [] else [line]
  {
    WholeIsOneLine(line, breaks);
  }

  lemma {:induction false} NoBlankNoEvent(r: Reader, lines: seq<string>)
    requires NoneBlank(lines)
    ensures TakeLines(r, lines).events == r.events
    decreases |lines|
  {
    if lines != [] {
      NoBlankNoEvent(TakeLine(r, lines[0]), lines[1..]);
    }
  }

  lemma LastIsBlank(w: Wire)
    ensures LinesOf(w) != [] && LinesOf(w)[|LinesOf(w)| - 1] == "" && NoneBlank(LinesOf(w)[..|LinesOf(w)| - 1])
  {
    hide Decimal;
    if w.Message? && w.position.Some? {
      assert LinesOf(w)[0] == "id: " + Decimal(w.position.value);
    }
  }

  /** An event that did not arrive whole is not yielded. */
  lemma PartOfAnEvent(w: Wire, n: nat, breaks: char -> bool, events: seq<(string, string)>)
    requires LineBreaks(breaks) && OneLine(w, breaks) && n < |Printed(w)|
    ensures TakeLines(Idle(events), Lines(Printed(w)[..n], breaks)).events == events
  {
    hide Lines, TakeLines, Printed, LinesOf, Joined, NoneBlank;
    PrintedIsJoined(w);
    LinesAreUnbroken(w, breaks);
    LastIsBlank(w);
    BrokenOffLines(LinesOf(w), n, breaks);
    NoBlankNoEvent(Idle(events), Lines(Printed(w)[..n], breaks));
  }

  /** Wherever a printed stream breaks off, what the client has read is its first events, whole. */
  lemma {:induction false} FirstEventsArrive(wires: seq<Wire>, n: nat, breaks: char -> bool, events: seq<(string, string)>)
    returns (m: nat)
    requires LineBreaks(breaks) && (forall i :: 0 <= i < |wires| ==> OneLine(wires[i], breaks)) && n <= |PrintedAll(wires)|
    ensures m <= |EventsOf(wires)|
    ensures TakeLines(Idle(events), Lines(PrintedAll(wires)[..n], breaks)).events == events + EventsOf(wires)[..m]
    decreases |wires|
  {
    hide TakeLines, Lines, Printed, OneLine, LineBreaks, EventOf;
    if wires == [] {
      m := 0;
      NoText(breaks);
      assert PrintedAll(wires)[..n] == "";
      NoLines(Idle(events));
      assert events + EventsOf(wires)[..0] == events;
    } else {
      var w, rest := wires[0], wires[1..];
      if n < |Printed(w)| {
        m := 0;
        assert PrintedAll(wires)[..n] == Printed(w)[..n];
        PartOfAnEvent(w, n, breaks, events);
        assert events + EventsOf(wires)[..0] == events;
      } else {
        var k := n - |Printed(w)|;
        assert PrintedAll(wires)[..n] == Printed(w) + PrintedAll(rest)[..k];
        FirstWireRead(w, PrintedAll(rest)[..k], breaks, events);
        var most := FirstEventsArrive(rest, k, breaks, events + EventOf(w));
        m := |EventOf(w)| + most;
        assert EventsOf(wires)[..m] == EventOf(w) + EventsOf(rest)[..most];
        assert events + EventOf(w) + EventsOf(rest)[..most] == events + EventsOf(wires)[..m];
      }
    }
  }

  // ---------------------------------------------------------------- good events before a bad one

  lemma {:induction false} EventsGrow(r: Reader, lines: seq<string>)
    ensures r.events <= TakeLines(r, lines).events
    decreases |lines|
  {
    if lines != [] {
      EventsGrow(TakeLine(r, lines[0]), lines[1..]);
    }
  }

  lemma {:induction false} GoodOnesFirst(wires: seq<Wire>, rest: string, breaks: char -> bool, events: seq<(string, string)>)
    requires LineBreaks(breaks) && forall i :: 0 <= i < |wires| ==> OneLine(wires[i], breaks)
    ensures TakeLines(Idle(events), Lines(PrintedAll(wires) + rest, breaks)) ==
      TakeLines(Idle(events + EventsOf(wires)), Lines(rest, breaks))
    decreases |wires|
  {
    hide TakeLines, Lines, Printed, OneLine, LineBreaks, Idle, EventOf;
    if wires == [] {
      assert "" + rest == rest && events + [] == events;
    } else {
      var w, others := wires[0], wires[1..];
      FirstWireRead(w, PrintedAll(others) + rest, breaks, events);
      GoodOnesFirst(others, rest, breaks, events + EventOf(w));
      assert Printed(w) + (PrintedAll(others) + rest) == PrintedAll(wires) + rest;
      assert events + EventOf(w) + EventsOf(others) == events + EventsOf(wires);
    }
  }

  /** Of a printed stream that goes on in whatever way, and breaks off wherever it does: what is read is
      a beginning of the good events, or they all come first. */
  lemma GoodEventsArrive(wires: seq<Wire>, rest: string, n: nat, breaks: char -> bool) returns (m: nat)
    requires LineBreaks(breaks) && (forall i :: 0 <= i < |wires| ==> OneLine(wires[i], breaks)) && n <= |PrintedAll(wires) + rest|
    ensures m <= |EventsOf(wires)|
    ensures
      var events := EventsRead((PrintedAll(wires) + rest)[..n], breaks);
      events == EventsOf(wires)[..m] || EventsOf(wires) <= events
  {
    hide TakeLines, Lines, OneLine, LineBreaks, PrintedAll;
    var good := PrintedAll(wires);
    if n <= |good| {
      assert (good + rest)[..n] == good[..n];
      m := FirstEventsArrive(wires, n, breaks, []);
      assert [] + EventsOf(wires)[..m] == EventsOf(wires)[..m];
    } else {
      m := 0;
      assert (good + rest)[..n] == good + rest[..n - |good|];
      GoodOnesFirst(wires, rest[..n - |good|], breaks, []);
      EventsGrow(Idle([] + EventsOf(wires)), Lines(rest[..n - |good|], breaks));
      assert [] + EventsOf(wires) == EventsOf(wires);
    }
  }

  lemma {:induction false} PrintedBoth(a: seq<Wire>, b: seq<Wire>)
    ensures PrintedAll(a + b) == PrintedAll(a) + PrintedAll(b)
    decreases |a|
  {
    hide Printed;
    if a == [] {
      assert a + b == b && "" + PrintedAll(b) == PrintedAll(b);
    } else {
      PrintedBoth(a[1..], b);
      assert (a + b)[1..] == a[1..] + b && (a + b)[0] == a[0];
      assert Printed(a[0]) + (PrintedAll(a[1..]) + PrintedAll(b)) == Printed(a[0]) + PrintedAll(a[1..]) + PrintedAll(b);
    }
  }
}
