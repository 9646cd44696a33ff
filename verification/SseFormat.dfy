/**
 The event-stream format, on decoded characters. First the lines of a frame as `_format_sse` joins them:
 the event line, the id line when there is an id, one data line for each line of the payload, a blank line.
 Then the standard's parser (sections 9.2.5 and 9.2.6 of the WHATWG HTML Living Standard), line by line,
 with its data buffer, its event type buffer and its two ids. Then what the parser does with the lines of
 one frame or one comment; whole streams are in `SseFrames`.
 */
module SseFormat {
  // ---------------------------------------------------------------------------
  // Printing
  // ---------------------------------------------------------------------------

  /** The single characters `str.splitlines` breaks at ("\r\n" counts as one break). */
  predicate IsBreak(c: char) {
    c in {'\n', '\r', '\U{0B}', '\U{0C}', '\U{1C}', '\U{1D}', '\U{1E}', '\U{85}', '\U{2028}', '\U{2029}'}
  }

  /** Length of the leading run of characters that break no line. */
  function RunLength(s: string): (n: nat)
    ensures n <= |s|
    ensures forall i :: 0 <= i < n ==> !IsBreak(s[i])
    ensures n < |s| ==> IsBreak(s[n])
  {
    if s == "" || IsBreak(s[0]) then 0 else 1 + RunLength(s[1..])
  }

  /** `str.splitlines()`. */
  function SplitLines(s: string): (lines: seq<string>)
    ensures forall l :: l in lines ==> forall i :: 0 <= i < |l| ==> !IsBreak(l[i])
    decreases |s|
  {
    if s == "" then []
    else
      var n := RunLength(s);
      if n == |s| then [s]
      else if s[n] == '\r' && n + 1 < |s| && s[n + 1] == '\n' then [s[..n]] + SplitLines(s[n + 2..])
      else [s[..n]] + SplitLines(s[n + 1..])
  }

  /** `payload.splitlines() or [payload]` */
  function DataLines(payload: string): seq<string> {
    if SplitLines(payload) == [] then [payload] else SplitLines(payload)
  }

  function Labelled(lines: seq<string>): seq<string> {
    if lines == [] then [] else ["data: " + lines[0]] + Labelled(lines[1..])
  }

  /** The lines of one frame, without the blank line that ends it. */
  function FrameLines(eventType: string, payload: string, id: string): seq<string> {
    ["event: " + eventType] + (if id != "" then ["id: " + id] else []) + Labelled(DataLines(payload))
  }

  /** Every line followed by a line feed. */
  function Terminated(lines: seq<string>): string {
    if lines == [] then "" else lines[0] + "\n" + Terminated(lines[1..])
  }

  lemma {:induction false} LabelledAppend(a: seq<string>, l: string)
    ensures Labelled(a + [l]) == Labelled(a) + ["data: " + l]
  {
    if a == [] {
      assert [l][1..] == [];
    } else {
      assert (a + [l])[1..] == a[1..] + [l];
      LabelledAppend(a[1..], l);
    }
  }

  lemma {:induction false} TerminatedConcat(a: seq<string>, b: seq<string>)
    ensures Terminated(a + b) == Terminated(a) + Terminated(b)
  {
    if a == [] {
      assert a + b == b;
    } else {
      assert (a + b)[1..] == a[1..] + b;
      TerminatedConcat(a[1..], b);
      assert a[0] + "\n" + (Terminated(a[1..]) + Terminated(b)) == (a[0] + "\n" + Terminated(a[1..])) + Terminated(b);
    }
  }

  /** `sep.join(parts)` for a line feed. */
  function JoinLines(parts: seq<string>): string {
    if parts == [] then "" else if |parts| == 1 then parts[0] else parts[0] + "\n" + JoinLines(parts[1..])
  }

  lemma {:induction false} JoinTerminates(parts: seq<string>)
    requires parts != []
    ensures JoinLines(parts) + "\n" == Terminated(parts)
  {
    if |parts| == 1 {
      assert parts[1..] == [];
      assert Terminated(parts) == parts[0] + "\n" + "";
    } else {
      JoinTerminates(parts[1..]);
      assert (parts[0] + "\n" + JoinLines(parts[1..])) + "\n" == parts[0] + "\n" + (JoinLines(parts[1..]) + "\n");
    }
  }

  lemma LabelledStep(head: seq<string>, parts: seq<string>, k: nat)
    requires k < |parts|
    ensures head + Labelled(parts[..k + 1]) == head + Labelled(parts[..k]) + ["data: " + parts[k]]
  {
    hide Labelled;
    assert parts[..k + 1] == parts[..k] + [parts[k]];
    LabelledAppend(parts[..k], parts[k]);
  }

  lemma FrameText(lines: seq<string>)
    requires lines != []
    ensures JoinLines(lines) + "\n\n" == Terminated(lines + [""])
  {
    JoinTerminates(lines);
    TerminatedConcat(lines, [""]);
    assert Terminated([""]) == "" + "\n" + Terminated([]);
    hide JoinLines, Terminated;
    assert JoinLines(lines) + "\n\n" == (JoinLines(lines) + "\n") + "\n";
  }

  // ---------------------------------------------------------------------------
  // Parsing
  // ---------------------------------------------------------------------------

  predicate EndsLine(c: char) {
    c == '\n' || c == '\r'
  }

  function LineLength(s: string): (n: nat)
    ensures n <= |s|
    ensures forall i :: 0 <= i < n ==> !EndsLine(s[i])
    ensures n < |s| ==> EndsLine(s[n])
  {
    if s == "" || EndsLine(s[0]) then 0 else 1 + LineLength(s[1..])
  }

  /** The complete lines of a stream; a line ends at CR LF, LF or CR.  An unfinished last line can
      dispatch nothing and is left out. */
  function Lines(s: string): (lines: seq<string>)
    ensures forall l :: l in lines ==> forall i :: 0 <= i < |l| ==> !EndsLine(l[i])
    decreases |s|
  {
    var n := LineLength(s);
    if n == |s| then []
    else if s[n] == '\r' && n + 1 < |s| && s[n + 1] == '\n' then [s[..n]] + Lines(s[n + 2..])
    else [s[..n]] + Lines(s[n + 1..])
  }

  /** A dispatched event. */
  datatype Message = Message(eventType: string, data: string, lastEventId: string)

  /** The three buffers and the event source's last event ID string. */
  datatype Parser = Parser(data: string, eventType: string, idBuffer: string, lastEventId: string)

  function ColonAt(line: string): (n: nat)
    ensures n <= |line|
    ensures forall i :: 0 <= i < n ==> line[i] != ':'
    ensures n < |line| ==> line[n] == ':'
  {
    if line == "" || line[0] == ':' then 0 else 1 + ColonAt(line[1..])
  }

  function StripSpace(v: string): string {
    if v != "" && v[0] == ' ' then v[1..] else v
  }

  function Field(p: Parser, name: string, value: string): Parser {
    if name == "event" then p.(eventType := value)
    else if name == "data" then p.(data := p.data + (value + "\n"))
    else if name == "id" then (if '\0' in value then p else p.(idBuffer := value))
    else p
  }

  function Dispatch(p: Parser): (Parser, seq<Message>) {
    var q := p.(lastEventId := p.idBuffer);
    if q.data == "" then (q.(eventType := ""), [])
    else
      var n := |q.data| - 1;
      var data := if q.data[n] == '\n' then q.data[..n] else q.data;
      (q.(data := "", eventType := ""),
       [Message(if q.eventType != "" then q.eventType else "message", data, q.lastEventId)])
  }

  function ProcessLine(p: Parser, line: string): (Parser, seq<Message>) {
    if line == "" then Dispatch(p)
    else
      var n := ColonAt(line);
      if n == 0 then (p, [])
      else if n < |line| then (Field(p, line[..n], StripSpace(line[n + 1..])), [])
      else (Field(p, line, ""), [])
  }

  function ProcessLines(p: Parser, lines: seq<string>): (Parser, seq<Message>)
    decreases |lines|
  {
    if lines == [] then (p, [])
    else
      var (q, first) := ProcessLine(p, lines[0]);
      var (r, rest) := ProcessLines(q, lines[1..]);
      (r, first + rest)
  }

  /** Parsing a whole stream from a given id buffer and last event ID string. */
  function Parse(stream: string, idBuffer: string, lastEventId: string): (Parser, seq<Message>) {
    ProcessLines(Parser("", "", idBuffer, lastEventId), Lines(stream))
  }

  // ---------------------------------------------------------------------------
  // One frame, parsed
  // ---------------------------------------------------------------------------

  predicate OneLine(s: string) {
    forall i :: 0 <= i < |s| ==> !EndsLine(s[i])
  }

  lemma LineLengthOf(l: string, rest: string)
    requires OneLine(l)
    ensures LineLength(l + "\n" + rest) == |l|
  {
    var s := l + "\n" + rest;
    assert s[|l|] == '\n';
    assert forall i :: 0 <= i < |l| ==> s[i] == l[i];
  }

  lemma FirstLine(l: string, rest: string)
    requires OneLine(l)
    ensures Lines(l + "\n" + rest) == [l] + Lines(rest)
  {
    var s := l + "\n" + rest;
    LineLengthOf(l, rest);
    assert s[..|l|] == l && s[|l| + 1..] == rest && s[|l|] == '\n';
  }

  lemma {:induction false} LinesOfTerminated(lines: seq<string>, rest: string)
    requires forall k :: 0 <= k < |lines| ==> OneLine(lines[k])
    ensures Lines(Terminated(lines) + rest) == lines + Lines(rest)
  {
    hide Lines;
    if lines == [] {
      assert Terminated(lines) + rest == rest;
    } else {
      var l, tail := lines[0], Terminated(lines[1..]) + rest;
      assert Terminated(lines) + rest == l + "\n" + tail;
      FirstLine(l, tail);
      LinesOfTerminated(lines[1..], rest);
      assert [l] + (lines[1..] + Lines(rest)) == lines + Lines(rest);
    }
  }

  lemma ProcessCons(p: Parser, line: string, rest: seq<string>)
    ensures var (q, first) := ProcessLine(p, line);
            ProcessLines(p, [line] + rest) == (ProcessLines(q, rest).0, first + ProcessLines(q, rest).1)
  {
    hide ProcessLine;
    assert ([line] + rest)[1..] == rest;
  }

  lemma {:induction false} ProcessConcat(p: Parser, a: seq<string>, b: seq<string>)
    ensures var q := ProcessLines(p, a);
            var r := ProcessLines(q.0, b);
            ProcessLines(p, a + b) == (r.0, q.1 + r.1)
    decreases |a|
  {
    if a == [] {
      assert a + b == b;
      assert [] + ProcessLines(p, b).1 == ProcessLines(p, b).1;
    } else {
      hide ProcessLine, ProcessLines;
      var (q, first) := ProcessLine(p, a[0]);
      ProcessCons(p, a[0], a[1..]);
      ProcessCons(p, a[0], a[1..] + b);
      SplitHead(a, b);
      ProcessConcat(q, a[1..], b);
      var (end, tail) := ProcessLines(q, a[1..]);
      InARow(first, tail, ProcessLines(end, b).1);
    }
  }

  lemma SplitHead(a: seq<string>, b: seq<string>)
    requires a != []
    ensures [a[0]] + a[1..] == a
    ensures [a[0]] + (a[1..] + b) == a + b
  {
  }

  lemma InARow(a: seq<Message>, b: seq<Message>, c: seq<Message>)
    ensures a + (b + c) == (a + b) + c
  {
  }

  /** A printed field line is read back as that field. */
  lemma FieldLine(p: Parser, name: string, value: string)
    requires name != "" && ':' !in name
    ensures ProcessLine(p, name + ": " + value) == (Field(p, name, value), [])
  {
    var line := name + ": " + value;
    var n := ColonAt(line);
    assert line[|name|] == ':';
    assert forall i :: 0 <= i < |name| ==> line[i] == name[i] && name[i] in name;
    assert line[..n] == name && line[n + 1..] == " " + value;
    assert (" " + value)[1..] == value;
  }

  lemma ProcessOne(p: Parser, line: string)
    ensures ProcessLines(p, [line]) == ProcessLine(p, line)
  {
    hide ProcessLine;
    var q := ProcessLine(p, line);
    assert ProcessLines(q.0, [line][1..]) == (q.0, []);
    assert q.1 + [] == q.1;
  }

  lemma LabelledFirst(lines: seq<string>)
    requires lines != []
    ensures Labelled(lines) == ["data" + ": " + lines[0]] + Labelled(lines[1..])
  {
    assert "data" + ": " + lines[0] == "data: " + lines[0];
  }

  /** Consecutive runs of lines that dispatch nothing compose. */
  lemma Silent(p: Parser, a: seq<string>, q: Parser, b: seq<string>, r: Parser)
    requires ProcessLines(p, a) == (q, []) && ProcessLines(q, b) == (r, [])
    ensures ProcessLines(p, a + b) == (r, [])
  {
    ProcessConcat(p, a, b);
  }

  lemma DataLine(p: Parser, l: string)
    ensures ProcessLines(p, ["data" + ": " + l]) == (p.(data := p.data + (l + "\n")), [])
  {
    hide ProcessLines, ProcessLine;
    FieldLine(p, "data", l);
    ProcessOne(p, "data" + ": " + l);
  }

  lemma Associative(a: string, b: string, c: string)
    ensures (a + b) + c == a + (b + c)
  {
  }

  lemma {:induction false} DataBlock(p: Parser, lines: seq<string>)
    ensures ProcessLines(p, Labelled(lines)) == (p.(data := p.data + Terminated(lines)), [])
    decreases |lines|
  {
    if lines == [] {
      assert p.data + "" == p.data;
    } else {
      hide ProcessLines, Labelled;
      var line, rest := lines[0] + "\n", Terminated(lines[1..]);
      var q := p.(data := p.data + line);
      DataLine(p, lines[0]);
      DataBlock(q, lines[1..]);
      Associative(p.data, line, rest);
      LabelledFirst(lines);
      Silent(p, ["data" + ": " + lines[0]], q, Labelled(lines[1..]), q.(data := q.data + rest));
    }
  }

  /** What the handler writes: a printed frame, or a keep-alive comment. */
  datatype Chunk = Frame(eventType: string, payload: string, id: string) | Comment

  function ChunkLines(c: Chunk): seq<string> {
    match c
    case Frame(t, d, id) => FrameLines(t, d, id) + [""]
    case Comment => [": keepalive", ""]
  }

  function Print(chunks: seq<Chunk>): string {
    if chunks == [] then "" else Terminated(ChunkLines(chunks[0])) + Print(chunks[1..])
  }

  /** Types and ids that fit on one line; ids without NUL. */
  predicate Clean(c: Chunk) {
    c.Frame? ==> OneLine(c.eventType) && OneLine(c.id) && '\0' !in c.id
  }

  /** The id the client holds after a chunk: only a frame that carries an id moves it. */
  function IdAfter(c: Chunk, id: string): string {
    if c.Frame? && c.id != "" then c.id else id
  }

  function LastIdOf(chunks: seq<Chunk>, id: string): string {
    if chunks == [] then id else LastIdOf(chunks[1..], IdAfter(chunks[0], id))
  }

  function ChunkMessages(c: Chunk, id: string): seq<Message> {
    match c
    case Frame(t, d, _) =>
      [Message(if t != "" then t else "message", JoinLines(DataLines(d)), IdAfter(c, id))]
    case Comment => []
  }

  function Messages(chunks: seq<Chunk>, id: string): seq<Message> {
    if chunks == [] then []
    else ChunkMessages(chunks[0], id) + Messages(chunks[1..], IdAfter(chunks[0], id))
  }

  function Idle(idBuffer: string, lastEventId: string): Parser {
    Parser("", "", idBuffer, lastEventId)
  }

  lemma TerminatedNonEmpty(lines: seq<string>)
    requires lines != []
    ensures Terminated(lines) != ""
    ensures Terminated(lines)[|Terminated(lines)| - 1] == '\n'
    ensures Terminated(lines)[..|Terminated(lines)| - 1] == JoinLines(lines)
  {
    JoinTerminates(lines);
  }

  lemma FrameHead(t: string, id: string, buffer: string, last: string)
    requires '\0' !in id
    ensures ProcessLines(Idle(buffer, last), ["event: " + t] + (if id != "" then ["id: " + id] else []))
            == (Parser("", t, if id != "" then id else buffer, last), [])
  {
    hide ProcessLines, ProcessLine;
    var p := Idle(buffer, last);
    var q := p.(eventType := t);
    FieldLine(p, "event", t);
    assert "event" + ": " + t == "event: " + t;
    ProcessOne(p, "event: " + t);
    if id != "" {
      FieldLine(q, "id", id);
      assert "id" + ": " + id == "id: " + id;
      ProcessOne(q, "id: " + id);
      Silent(p, ["event: " + t], q, ["id: " + id], q.(idBuffer := id));
    } else {
      assert ["event: " + t] + [] == ["event: " + t];
    }
  }

  lemma FrameEnd(p: Parser, parts: seq<string>)
    requires parts != [] && p.data == Terminated(parts)
    ensures ProcessLines(p, [""])
            == (Idle(p.idBuffer, p.idBuffer),
                [Message(if p.eventType != "" then p.eventType else "message", JoinLines(parts), p.idBuffer)])
  {
    TerminatedNonEmpty(parts);
    ProcessOne(p, "");
    hide Terminated, JoinLines, ProcessLines;
  }

  lemma FrameParses(c: Chunk, buffer: string, last: string)
    requires c.Frame? && Clean(c)
    ensures ProcessLines(Idle(buffer, last), ChunkLines(c))
            == (Idle(IdAfter(c, buffer), IdAfter(c, buffer)), ChunkMessages(c, buffer))
  {
    hide ProcessLines, SplitLines, Terminated, JoinLines, Labelled;
    var head := ["event: " + c.eventType] + (if c.id != "" then ["id: " + c.id] else []);
    var parts := DataLines(c.payload);
    var p, id := Idle(buffer, last), IdAfter(c, buffer);
    var q := Parser("", c.eventType, id, last);
    var r := Parser("" + Terminated(parts), c.eventType, id, last);
    FrameHead(c.eventType, c.id, buffer, last);
    DataBlock(q, parts);
    Silent(p, head, q, Labelled(parts), r);
    assert r.data == Terminated(parts);
    FrameEnd(r, parts);
    ProcessConcat(p, head + Labelled(parts), [""]);
    var all := ProcessLines(p, ChunkLines(c));
    assert all.1 == [] + ChunkMessages(c, buffer);
    assert all.1 == ChunkMessages(c, buffer);
  }

  lemma CommentParses(buffer: string, last: string)
    ensures ProcessLines(Idle(buffer, last), ChunkLines(Comment)) == (Idle(buffer, buffer), ChunkMessages(Comment, buffer))
  {
    var p := Idle(buffer, last);
    ProcessOne(p, ": keepalive");
    ProcessOne(p, "");
    ProcessConcat(p, [": keepalive"], [""]);
    assert [": keepalive"] + [""] == [": keepalive", ""];
  }

  lemma {:induction false} LabelledOneLine(lines: seq<string>)
    requires forall k :: 0 <= k < |lines| ==> OneLine(lines[k])
    ensures forall k :: 0 <= k < |Labelled(lines)| ==> OneLine(Labelled(lines)[k])
  {
    if lines != [] {
      LabelledOneLine(lines[1..]);
      var l := "data: " + lines[0];
      assert OneLine(l) by {
        assert forall i :: 6 <= i < |l| ==> l[i] == lines[0][i - 6];
      }
    }
  }

  lemma PrefixedOneLine(prefix: string, l: string)
    requires OneLine(prefix) && OneLine(l)
    ensures OneLine(prefix + l)
  {
  }

  lemma DataLinesOneLine(payload: string)
    ensures forall k :: 0 <= k < |DataLines(payload)| ==> OneLine(DataLines(payload)[k])
  {
    var parts := DataLines(payload);
    assert SplitLines(payload) == [] ==> payload == "";
    hide SplitLines;
    forall k | 0 <= k < |parts| ensures OneLine(parts[k]) {
      if SplitLines(payload) != [] {
        assert parts[k] in SplitLines(payload);
      }
    }
  }

  lemma ChunkOneLine(c: Chunk)
    requires Clean(c)
    ensures forall k :: 0 <= k < |ChunkLines(c)| ==> OneLine(ChunkLines(c)[k])
  {
    if c.Frame? {
      PrefixedOneLine("event: ", c.eventType);
      PrefixedOneLine("id: ", c.id);
      DataLinesOneLine(c.payload);
      LabelledOneLine(DataLines(c.payload));
      hide DataLines, Labelled, OneLine;
      assert OneLine("") by {
        PrefixedOneLine("", "");
      }
    }
  }

  lemma ChunkParses(c: Chunk, rest: string, buffer: string, last: string)
    requires Clean(c)
    ensures var id := IdAfter(c, buffer);
            var tail := Parse(rest, id, id);
            var all := Parse(Terminated(ChunkLines(c)) + rest, buffer, last);
            all.0 == tail.0 && all.1 == ChunkMessages(c, buffer) + tail.1
  {
    hide ProcessLines, Lines, ChunkLines, ChunkMessages, Terminated, OneLine;
    ChunkOneLine(c);
    LinesOfTerminated(ChunkLines(c), rest);
    if c.Frame? {
      FrameParses(c, buffer, last);
    } else {
      CommentParses(buffer, last);
    }
    ProcessConcat(Idle(buffer, last), ChunkLines(c), Lines(rest));
  }
}
