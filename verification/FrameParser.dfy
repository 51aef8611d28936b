/**
 The incremental server-sent-events parser (packages-web/angular/src/event-stream.ts, `FrameParser`).
 The class is proved equal to a function on parser states; about that function it is proved that
 cutting the stream anywhere changes nothing, and that a written frame is read back.
 */
module FrameParsing {
  import opened Machines
  import opened Utf16

  const LF: CodeUnit := 10
  const CR: CodeUnit := 13
  const SPACE: CodeUnit := 32
  const COLON: CodeUnit := 58
  const NUL: CodeUnit := 0

  const DATA: Text := [100, 97, 116, 97]
  const EVENT: Text := [101, 118, 101, 110, 116]
  const ID: Text := [105, 100]
  const MESSAGE: Text := [109, 101, 115, 115, 97, 103, 101]

  /** The callbacks, in the order the parser makes them. */
  datatype Output = Activity | Comment | Frame(id: Text, event: Text, data: Text)

  /** The fields of the frame being read. */
  datatype Pending = Pending(data: seq<Text>, id: Text, event: Text)

  datatype Parser = Parser(buffer: Text, pending: Pending)

  datatype Taken = Taken(pending: Pending, outputs: seq<Output>)

  type Fed = Stepped<Parser, Output>

  const EMPTY := Pending([], [], MESSAGE)
  const START := Parser([], EMPTY)

  /** `indexOf` of one code unit. */
  function IndexOf(t: Text, u: CodeUnit): (i: int)
    ensures -1 <= i < |t|
    ensures i < 0 ==> u !in t
    ensures i >= 0 ==> t[i] == u && u !in t[..i]
  {
    if t == [] then -1
    else if t[0] == u then 0
    else
      var r := IndexOf(t[1..], u);
      if r < 0 then -1
      else
        assert t[..r + 1] == [t[0]] + t[1..][..r];
        r + 1
  }

  function JoinLines(lines: seq<Text>): Text {
    if |lines| == 0 then [] else if |lines| == 1 then lines[0] else lines[0] + [LF] + JoinLines(lines[1..])
  }

  function DropCR(line: Text): Text {
    if line != [] && line[|line| - 1] == CR then line[..|line| - 1] else line
  }

  function DropSpace(value: Text): Text {
    if value != [] && value[0] == SPACE then value[1..] else value
  }

  /** One complete line, without its line end. */
  function TakeLine(p: Pending, line: Text): Taken {
    if line == [] then
      Taken(EMPTY, [Activity] + (if p.data != [] then [Frame(p.id, p.event, JoinLines(p.data))] else []))
    else if line[0] == COLON then Taken(p, [Activity, Comment])
    else
      var colon := IndexOf(line, COLON);
      var field := if colon < 0 then line else line[..colon];
      var value := if colon < 0 then [] else DropSpace(line[colon + 1..]);
      Taken(TakeField(p, field, value), [Activity])
  }

  function TakeField(p: Pending, field: Text, value: Text): Pending {
    if field == DATA then p.(data := p.data + [value])
    else if field == EVENT then p.(event := value)
    else if field == ID && NUL !in value then p.(id := value)
    else p
  }

  /** Reference parser: one code unit at a time, a line ending at each line feed. */
  function TakeUnit(p: Parser, u: CodeUnit): Fed {
    if u == LF then
      var taken := TakeLine(p.pending, DropCR(p.buffer));
      Stepped(Parser([], taken.pending), taken.outputs)
    else Stepped(Parser(p.buffer + [u], p.pending), [])
  }

  function Parse(p: Parser, text: Text): Fed {
    Run(TakeUnit, p, text)
  }

  /** The source's parser object. */
  class FrameParser {
    var buffer: Text
    var data: seq<Text>
    var id: Text
    var event: Text

    function Fields(): Pending
      reads this
    {
      Pending(data, id, event)
    }

    function State(): Parser
      reads this
    {
      Parser(buffer, Fields())
    }

    constructor ()
      ensures Valid() && State() == START
    {
      buffer, data, id, event := [], [], [], MESSAGE;
    }

    /** No complete line is left in the buffer. */
    predicate Valid()
      reads this
    {
      LF !in buffer
    }

    method Feed(chunk: Text) returns (outputs: seq<Output>)
      requires Valid()
      modifies this
      ensures Valid()
      ensures Stepped(State(), outputs) == Parse(old(State()), chunk)
    {
      ghost var all := Parse(State(), chunk);
      Rescan(Fields(), buffer, chunk);
      buffer := buffer + chunk;
      outputs := [];
      while true
        invariant var rest := Parse(Parser([], Fields()), buffer);
                  rest.state == all.state && outputs + rest.outputs == all.outputs
        decreases |buffer|
      {
        var index := IndexOf(buffer, LF);
        if index < 0 {
          Scan(Fields(), [], buffer);
          assert [] + buffer == buffer && outputs + [] == outputs;
          return;
        }
        ParseLine(Fields(), buffer, index, outputs);
        var line := DropCR(buffer[..index]);
        buffer := buffer[index + 1..];
        var made := Line(line);
        outputs := outputs + made;
      }
    }

    /** The body of the loop for one line. */
    method Line(line: Text) returns (outputs: seq<Output>)
      modifies this`data, this`id, this`event
      ensures Taken(Fields(), outputs) == TakeLine(old(Fields()), line)
    {
      outputs := [Activity];
      if line == [] {
        if data != [] {
          outputs := outputs + [Frame(id, event, JoinLines(data))];
        }
        data := [];
        id := [];
        event := MESSAGE;
        return;
      }
      if line[0] == COLON {
        outputs := outputs + [Comment];
        return;
      }
      var colon := IndexOf(line, COLON);
      var field := if colon < 0 then line else line[..colon];
      var value := if colon < 0 then [] else line[colon + 1..];
      if value != [] && value[0] == SPACE {
        value := value[1..];
      }
      if field == DATA {
        data := data + [value];
      } else if field == EVENT {
        event := value;
      } else if field == ID && NUL !in value {
        id := value;
      }
    }
  }

  // ----- The loop reads the reference's lines -----

  /** Text without a line feed only grows the buffer. */
  lemma {:induction false} Scan(pending: Pending, buffer: Text, text: Text)
    requires LF !in text
    decreases |text|
    ensures Parse(Parser(buffer, pending), text) == Stepped(Parser(buffer + text, pending), [])
  {
    if text == [] {
      assert buffer + text == buffer;
    } else {
      Scan(pending, buffer + [text[0]], text[1..]);
      assert buffer + [text[0]] + text[1..] == buffer + text;
    }
  }

  /** Reading an unfinished line again, with the chunk behind it, changes nothing. */
  lemma Rescan(pending: Pending, buffer: Text, chunk: Text)
    requires LF !in buffer
    ensures Parse(Parser([], pending), buffer + chunk) == Parse(Parser(buffer, pending), chunk)
  {
    ParseAppend(Parser([], pending), buffer, chunk);
    Scan(pending, [], buffer);
    assert [] + buffer == buffer;
  }

  lemma ParseEnd(pending: Pending, line: Text, rest: Text)
    ensures var taken := TakeLine(pending, DropCR(line));
            var after := Parse(Parser([], taken.pending), rest);
            Parse(Parser(line, pending), [LF] + rest) == Stepped(after.state, taken.outputs + after.outputs)
  {
    assert ([LF] + rest)[1..] == rest;
  }

  lemma ParseLine(pending: Pending, buffer: Text, index: nat, outputs: seq<Output>)
    requires index < |buffer| && buffer[index] == LF && LF !in buffer[..index]
    ensures var taken := TakeLine(pending, DropCR(buffer[..index]));
            var all := Parse(Parser([], pending), buffer);
            var rest := Parse(Parser([], taken.pending), buffer[index + 1..]);
            all.state == rest.state && outputs + all.outputs == outputs + taken.outputs + rest.outputs
  {
    var line, rest := buffer[..index], buffer[index + 1..];
    assert buffer == line + ([LF] + rest);
    Rescan(pending, line, [LF] + rest);
    ParseEnd(pending, line, rest);
    Regroup(outputs, TakeLine(pending, DropCR(line)).outputs,
            Parse(Parser([], TakeLine(pending, DropCR(line)).pending), rest).outputs);
  }

  lemma Regroup(a: seq<Output>, b: seq<Output>, c: seq<Output>)
    ensures a + (b + c) == a + b + c
  {
  }

  // ----- Chunk independence -----

  /** Two chunks, wherever the cut falls, are one. */
  lemma ParseAppend(p: Parser, a: Text, b: Text)
    ensures var first := Parse(p, a);
            var second := Parse(first.state, b);
            Parse(p, a + b) == Stepped(second.state, first.outputs + second.outputs)
  {
    RunAppend(TakeUnit, p, a, b);
  }

  /** The new part of a cumulative text; a text shorter than the offset starts over. */
  function Suffix(offset: nat, text: Text): Text {
    if |text| < offset then text else text[offset..]
  }

  /** Each text continues the one before it. */
  predicate Growing(before: Text, texts: seq<Text>)
    decreases |texts|
  {
    texts != [] ==> before <= texts[0] && Growing(texts[0], texts[1..])
  }

  function Suffixes(before: Text, texts: seq<Text>): seq<Text>
    decreases |texts|
  {
    if texts == [] then [] else [Suffix(|before|, texts[0])] + Suffixes(texts[0], texts[1..])
  }

  function ParseAll(p: Parser, chunks: seq<Text>): Fed {
    Run(Parse, p, chunks)
  }

  /** However a stream is cut into growing texts, it is parsed as if it came in one piece. */
  lemma {:induction false} ChunksDoNotMatter(p: Parser, before: Text, texts: seq<Text>)
    requires texts != [] && Growing(before, texts)
    ensures var last := texts[|texts| - 1];
            |before| <= |last| && ParseAll(p, Suffixes(before, texts)) == Parse(p, last[|before|..])
    decreases |texts|
  {
    var first := texts[0];
    var suffix := Suffix(|before|, first);
    var chunks := Suffixes(before, texts);
    assert first == before + suffix;
    if |texts| == 1 {
      assert texts[1..] == [] && Suffixes(first, []) == [];
      assert chunks == [suffix] + Suffixes(first, texts[1..]) == [suffix];
      RunOne(Parse, p, suffix);
    } else {
      var rest := texts[1..];
      var last := rest[|rest| - 1];
      ChunksDoNotMatter(Parse(p, suffix).state, first, rest);
      assert chunks[0] == suffix && chunks[1..] == Suffixes(first, rest);
      ParseAppend(p, suffix, last[|first|..]);
      GrowingEnds(before, texts);
      assert last[|before|..] == suffix + last[|first|..];
    }
  }

  lemma {:induction false} GrowingEnds(before: Text, texts: seq<Text>)
    requires texts != [] && Growing(before, texts)
    ensures before <= texts[0] <= texts[|texts| - 1]
    decreases |texts|
  {
    if |texts| > 1 {
      GrowingEnds(texts[0], texts[1..]);
    }
  }

  // ----- Reading back a written frame -----

  /** A value the line format can carry: no line feed, and no final carriage return to lose. */
  predicate Writable(value: Text) {
    LF !in value && (value != [] ==> value[|value| - 1] != CR)
  }

  function Field(name: Text, value: Text): Text {
    name + [COLON, SPACE] + value
  }

  lemma {:induction false} IndexOfFirst(a: Text, u: CodeUnit, b: Text)
    requires u !in a
    ensures IndexOf(a + [u] + b, u) == |a|
  {
    var t := a + [u] + b;
    assert t[|a|] == u && t[..|a|] == a;
  }

  lemma FieldParts(name: Text, value: Text)
    requires COLON !in name
    ensures IndexOf(Field(name, value), COLON) == |name|
    ensures Field(name, value)[..|name|] == name && DropSpace(Field(name, value)[|name| + 1..]) == value
  {
    var line := Field(name, value);
    IndexOfFirst(name, COLON, [SPACE] + value);
    assert name + [COLON] + ([SPACE] + value) == line;
    assert line[|name| + 1..] == [SPACE] + value && ([SPACE] + value)[1..] == value;
  }

  lemma FieldLine(pending: Pending, name: Text, value: Text)
    requires name in {DATA, EVENT, ID} && Writable(value)
    ensures LF !in Field(name, value) && DropCR(Field(name, value)) == Field(name, value)
    ensures TakeLine(pending, Field(name, value)) == Taken(TakeField(pending, name, value), [Activity])
  {
    FieldParts(name, value);
    assert Field(name, value)[0] == name[0];
  }

  lemma ReadField(pending: Pending, name: Text, value: Text)
    requires name in {DATA, EVENT, ID} && Writable(value)
    ensures Parse(Parser([], pending), Field(name, value) + [LF]) ==
            Stepped(Parser([], TakeField(pending, name, value)), [Activity])
  {
    FieldLine(pending, name, value);
    ReadLine(pending, Field(name, value));
  }

  lemma ReadLine(pending: Pending, line: Text)
    requires LF !in line
    ensures var taken := TakeLine(pending, DropCR(line));
            Parse(Parser([], pending), line + [LF]) == Stepped(Parser([], taken.pending), taken.outputs)
  {
    var text := line + [LF];
    assert text[..|line|] == line && text[|line| + 1..] == [];
    ParseLine(pending, text, |line|, []);
    var taken := TakeLine(pending, DropCR(line));
    assert [] + taken.outputs + [] == taken.outputs;
    assert [] + Parse(Parser([], pending), text).outputs == Parse(Parser([], pending), text).outputs;
  }

  function DataLines(lines: seq<Text>): Text {
    if lines == [] then [] else Field(DATA, lines[0]) + [LF] + DataLines(lines[1..])
  }

  function Repeat(n: nat): seq<Output> {
    if n == 0 then [] else [Activity] + Repeat(n - 1)
  }

  lemma {:induction false} ReadDataLines(pending: Pending, lines: seq<Text>)
    requires forall i :: 0 <= i < |lines| ==> Writable(lines[i])
    ensures Parse(Parser([], pending), DataLines(lines)) ==
            Stepped(Parser([], pending.(data := pending.data + lines)), Repeat(|lines|))
    decreases |lines|
  {
    if lines == [] {
      assert pending.data + lines == pending.data;
    } else {
      var next := TakeField(pending, DATA, lines[0]);
      ReadField(pending, DATA, lines[0]);
      ReadDataLines(next, lines[1..]);
      ParseAppend(Parser([], pending), Field(DATA, lines[0]) + [LF], DataLines(lines[1..]));
      assert pending.data + [lines[0]] + lines[1..] == pending.data + lines;
    }
  }

  /** A frame as a server writes it. */
  function Written(id: Text, event: Text, lines: seq<Text>): Text {
    Field(ID, id) + [LF] + (Field(EVENT, event) + [LF] + (DataLines(lines) + [LF]))
  }

  lemma Then(p: Parser, a: Text, b: Text, middle: Fed, last: Fed)
    requires Parse(p, a) == middle && Parse(middle.state, b) == last
    ensures Parse(p, a + b) == Stepped(last.state, middle.outputs + last.outputs)
  {
    ParseAppend(p, a, b);
  }

  lemma ReadBlank(pending: Pending)
    requires pending.data != []
    ensures Parse(Parser([], pending), [LF]) ==
            Stepped(START, [Activity, Frame(pending.id, pending.event, JoinLines(pending.data))])
  {
    ReadLine(pending, []);
    assert [] + [LF] == [LF];
  }

  lemma LastActivity(n: nat, frame: Output)
    ensures Repeat(n) + [Activity, frame] == Repeat(n + 1) + [frame]
  {
    RepeatSnoc(n);
    assert [Activity, frame] == [Activity] + [frame];
  }

  lemma ReadLines(id: Text, event: Text, lines: seq<Text>)
    requires forall i :: 0 <= i < |lines| ==> Writable(lines[i])
    ensures Parse(Parser([], Pending([], id, event)), DataLines(lines)) ==
            Stepped(Parser([], Pending(lines, id, event)), Repeat(|lines|))
  {
    ReadDataLines(Pending([], id, event), lines);
    assert [] + lines == lines;
  }

  /** The data lines and the blank line deliver the frame. */
  lemma ReadTail(id: Text, event: Text, lines: seq<Text>)
    requires lines != [] && forall i :: 0 <= i < |lines| ==> Writable(lines[i])
    ensures Parse(Parser([], Pending([], id, event)), DataLines(lines) + [LF]) ==
            Stepped(START, Repeat(|lines| + 1) + [Frame(id, event, JoinLines(lines))])
  {
    var full, frame := Parser([], Pending(lines, id, event)), Frame(id, event, JoinLines(lines));
    ReadLines(id, event, lines);
    ReadBlank(full.pending);
    Then(Parser([], Pending([], id, event)), DataLines(lines), [LF], Stepped(full, Repeat(|lines|)),
         Stepped(START, [Activity, frame]));
    LastActivity(|lines|, frame);
  }

  /** One more field line in front costs one activity and sets its field. */
  lemma ReadFieldThen(pending: Pending, name: Text, value: Text, tail: Text, n: nat, frame: Output)
    requires (name == DATA || name == EVENT || name == ID) && Writable(value)
    requires Parse(Parser([], TakeField(pending, name, value)), tail) == Stepped(START, Repeat(n) + [frame])
    ensures Parse(Parser([], pending), Field(name, value) + [LF] + tail) == Stepped(START, Repeat(n + 1) + [frame])
  {
    ReadField(pending, name, value);
    Then(Parser([], pending), Field(name, value) + [LF], tail,
         Stepped(Parser([], TakeField(pending, name, value)), [Activity]), Stepped(START, Repeat(n) + [frame]));
    assert [Activity] + (Repeat(n) + [frame]) == Repeat(n + 1) + [frame];
  }

  lemma ReadNamedTail(id: Text, event: Text, lines: seq<Text>)
    requires Writable(event)
    requires lines != [] && forall i :: 0 <= i < |lines| ==> Writable(lines[i])
    ensures Parse(Parser([], Pending([], id, MESSAGE)), Field(EVENT, event) + [LF] + (DataLines(lines) + [LF])) ==
            Stepped(START, Repeat(|lines| + 2) + [Frame(id, event, JoinLines(lines))])
  {
    NamedPending(id, event);
    ReadTail(id, event, lines);
    ReadFieldThen(Pending([], id, MESSAGE), EVENT, event, DataLines(lines) + [LF], |lines| + 1, Frame(id, event, JoinLines(lines)));
  }

  lemma NamedPending(id: Text, event: Text)
    ensures TakeField(Pending([], id, MESSAGE), EVENT, event) == Pending([], id, event)
  {
  }

  /** A written frame is read back exactly, and leaves the parser ready for the next one. */
  lemma FrameRoundTrip(id: Text, event: Text, lines: seq<Text>)
    requires Writable(id) && NUL !in id && Writable(event)
    requires lines != [] && forall i :: 0 <= i < |lines| ==> Writable(lines[i])
    ensures Parse(START, Written(id, event, lines)) ==
            Stepped(START, Repeat(|lines| + 3) + [Frame(id, event, JoinLines(lines))])
  {
    ReadNamedTail(id, event, lines);
    assert TakeField(EMPTY, ID, id) == Pending([], id, MESSAGE);
    ReadFieldThen(EMPTY, ID, id, Field(EVENT, event) + [LF] + (DataLines(lines) + [LF]), |lines| + 2,
                  Frame(id, event, JoinLines(lines)));
  }

  lemma {:induction false} RepeatSnoc(n: nat)
    ensures Repeat(n + 1) == Repeat(n) + [Activity]
  {
    if n > 0 {
      RepeatSnoc(n - 1);
    }
  }
}
