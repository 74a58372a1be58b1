/**
  The printer: an escaper and a small state machine that decides commas and
  indentation. The functions say what each event adds to the output; the class
  `JsonPrinter` does it step by step, and is proved equal to them.
 */
module Printer {
  import opened JsonTables

  datatype PrintState = PrintState(indentLevel: int, afterKey: bool, enterObject: bool, first: bool)

  /** How the output is laid out: raw, or pretty with an indentation string. */
  datatype Style = Compact | Pretty(indent: Bytes)

  const DEFAULT_INDENT: Bytes := [0x09]

  /** `json_print_init`. */
  const INITIAL := PrintState(0, false, true, true)

  /** A printer state and what was written on the way to it. */
  datatype Printed = Printed(state: PrintState, text: Bytes)

  // ---------------------------------------------------------------- strings

  function HexDigit(v: nat): Byte
    requires v < 16
  {
    if v < 10 then 0x30 + v else 0x61 + v - 10
  }

  /** `character_escape`. */
  function CharacterEscape(c: Byte): Bytes
    requires c < 36
  {
    if c == 0x08 then [0x5c, 0x62]
    else if c == 0x09 then [0x5c, 0x74]
    else if c == 0x0a then [0x5c, 0x6e]
    else if c == 0x0c then [0x5c, 0x66]
    else if c == 0x0d then [0x5c, 0x72]
    else if c < 0x20 then [0x5c, 0x75, 0x30, 0x30, HexDigit(c / 16), HexDigit(c % 16)]
    else if c == 0x22 then [0x5c, 0x22]
    else [c]
  }

  /** How one byte of a string is written. */
  function EscapeByte(c: Byte): Bytes {
    if c < 36 then CharacterEscape(c)
    else if c == 0x5c then [0x5c, 0x5c]
    else [c]
  }

  function Escaped(data: Bytes): Bytes {
    if data == [] then [] else Escaped(data[..|data| - 1]) + EscapeByte(data[|data| - 1])
  }

  function StringText(data: Bytes): Bytes {
    [0x22] + Escaped(data) + [0x22]
  }

  // ---------------------------------------------------------------- events

  function Repeat(s: Bytes, n: int): Bytes {
    if n <= 0 then [] else Repeat(s, n - 1) + s
  }

  /** `print_indent`. */
  function IndentText(indent: Bytes, level: int): Bytes {
    [0x0a] + Repeat(indent, level)
  }

  function NewLine(style: Style, level: int): Bytes {
    match style
    case Compact => []
    case Pretty(indent) => IndentText(indent, level)
  }

  predicate IsEnd(kind: JsonType) { kind == JsonArrayEnd || kind == JsonObjectEnd }

  predicate IsBegin(kind: JsonType) { kind == JsonArrayBegin || kind == JsonObjectBegin }

  /** The comma and the line break before an event. */
  function LeadText(s: PrintState, kind: JsonType, style: Style): Bytes {
    if IsEnd(kind) then []
    else if !s.enterObject && !s.afterKey then [0x2c] + NewLine(style, s.indentLevel)
    else if s.enterObject && !s.first then NewLine(style, s.indentLevel)
    else []
  }

  /** The event itself. */
  function BodyText(level: int, entered: bool, ev: Event, style: Style): Bytes {
    match ev.kind
    case JsonArrayBegin => [0x5b]
    case JsonObjectBegin => [0x7b]
    case JsonArrayEnd => (if entered then [] else NewLine(style, level - 1)) + [0x5d]
    case JsonObjectEnd => (if entered then [] else NewLine(style, level - 1)) + [0x7d]
    case JsonInt | JsonFloat => ev.data
    case JsonNull => [0x6e, 0x75, 0x6c, 0x6c]
    case JsonTrue => [0x74, 0x72, 0x75, 0x65]
    case JsonFalse => [0x66, 0x61, 0x6c, 0x73, 0x65]
    case JsonKey => StringText(ev.data) + (if style.Pretty? then [0x3a, 0x20] else [0x3a])
    case JsonString => StringText(ev.data)
    case JsonNone => []
  }

  function NextState(level: int, kind: JsonType): PrintState {
    PrintState(
      if IsBegin(kind) then level + 1 else if IsEnd(kind) then level - 1 else level,
      kind == JsonKey, IsBegin(kind), false)
  }

  /** `json_print_mode`. */
  function Print(s: PrintState, ev: Event, style: Style): Printed {
    Printed(NextState(s.indentLevel, ev.kind),
            LeadText(s, ev.kind, style) + BodyText(s.indentLevel, s.enterObject, ev, style))
  }

  function PrintAll(s: PrintState, evs: seq<Event>, style: Style): Printed {
    if evs == [] then Printed(s, [])
    else
      var before := PrintAll(s, evs[..|evs| - 1], style);
      var last := Print(before.state, evs[|evs| - 1], style);
      Printed(last.state, before.text + last.text)
  }

  /** Printing a sequence of events in two parts is printing it. */
  lemma {:induction false} PrintAllAppend(s: PrintState, a: seq<Event>, b: seq<Event>, style: Style)
    ensures var p := PrintAll(s, a, style); var q := PrintAll(p.state, b, style);
            PrintAll(s, a + b, style) == Printed(q.state, p.text + q.text)
    decreases b
  {
    hide Print;
    if b == [] {
      assert a + b == a;
      assert PrintAll(s, a, style).text + [] == PrintAll(s, a, style).text;
    } else {
      var n := |b| - 1;
      assert (a + b)[..|a + b| - 1] == a + b[..n];
      PrintAllAppend(s, a, b[..n], style);
      var p := PrintAll(s, a, style);
      var q := PrintAll(p.state, b[..n], style);
      var last := Print(q.state, b[n], style);
      assert p.text + (q.text + last.text) == p.text + q.text + last.text;
    }
  }

  lemma PrintAllOne(s: PrintState, ev: Event, style: Style)
    ensures PrintAll(s, [ev], style) == Print(s, ev, style)
  {
    hide Print;
    assert [ev][..0] == [];
    assert PrintAll(s, [], style) == Printed(s, []);
    assert [] + Print(s, ev, style).text == Print(s, ev, style).text;
  }

  // ---------------------------------------------------------------- the printer object

  class JsonPrinter {
    var indentstr: Bytes
    var indentlevel: int
    var afterkey: bool
    var enterObject: bool
    var first: bool
    /** Everything the output callback has been given. */
    var output: Bytes

    function State(): PrintState
      reads this
    {
      PrintState(indentlevel, afterkey, enterObject, first)
    }

    constructor ()
      ensures State() == INITIAL && indentstr == DEFAULT_INDENT && output == []
    {
      indentstr := DEFAULT_INDENT;
      indentlevel, afterkey, enterObject, first := 0, false, true, true;
      output := [];
    }

    method PrintString(data: Bytes)
      modifies this`output
      ensures output == old(output) + StringText(data)
    {
      hide CharacterEscape;
      output := output + [0x22];
      var i := 0;
      assert output == old(output) + ([0x22] + Escaped(data[..0]));
      while i < |data|
        invariant 0 <= i <= |data|
        invariant output == old(output) + ([0x22] + Escaped(data[..i]))
      {
        var c := data[i];
        assert data[..i + 1][..i] == data[..i];
        if c < 36 {
          output := output + CharacterEscape(c);
        } else if c == 0x5c {
          output := output + [0x5c, 0x5c];
        } else {
          output := output + [c];
        }
        assert Escaped(data[..i + 1]) == Escaped(data[..i]) + EscapeByte(c);
        i := i + 1;
      }
      assert data[..|data|] == data;
      output := output + [0x22];
    }

    method PrintIndent()
      modifies this`output
      ensures output == old(output) + IndentText(indentstr, indentlevel)
    {
      output := output + [0x0a];
      var i := 0;
      while i < indentlevel
        invariant 0 <= i && (i <= indentlevel || i == 0)
        invariant output == old(output) + ([0x0a] + Repeat(indentstr, i))
      {
        output := output + indentstr;
        i := i + 1;
      }
      assert indentlevel <= 0 ==> Repeat(indentstr, indentlevel) == Repeat(indentstr, 0);
    }

    method PrintMode(kind: JsonType, data: Bytes, pretty: bool)
      modifies this`output, this`indentlevel, this`afterkey, this`enterObject, this`first
      ensures var p := Print(old(State()), Event(kind, data), if pretty then Pretty(indentstr) else Compact);
              State() == p.state && output == old(output) + p.text
    {
      hide LeadText, BodyText, NextState;
      var enterobj := enterObject;
      PrintLead(kind, pretty);
      first := false;
      enterObject := false;
      afterkey := false;
      PrintBody(kind, data, pretty, enterobj);
    }

    /** The comma and the indentation before an event. */
    method PrintLead(kind: JsonType, pretty: bool)
      modifies this`output
      ensures output == old(output) + LeadText(State(), kind, if pretty then Pretty(indentstr) else Compact)
    {
      if !enterObject && !afterkey && kind != JsonArrayEnd && kind != JsonObjectEnd {
        output := output + [0x2c];
        if pretty { PrintIndent(); }
      }
      if pretty && enterObject && !first && kind != JsonArrayEnd && kind != JsonObjectEnd {
        PrintIndent();
      }
      hide IndentText;
    }

    /** The switch of `json_print_mode`. */
    method PrintBody(kind: JsonType, data: Bytes, pretty: bool, enterobj: bool)
      requires !enterObject && !afterkey && !first
      modifies this`output, this`indentlevel, this`afterkey, this`enterObject
      ensures output == old(output)
                + BodyText(old(indentlevel), enterobj, Event(kind, data), if pretty then Pretty(indentstr) else Compact)
      ensures State() == NextState(old(indentlevel), kind)
    {
      match kind
      case JsonArrayBegin =>
        output := output + [0x5b];
        indentlevel := indentlevel + 1;
        enterObject := true;
      case JsonObjectBegin =>
        output := output + [0x7b];
        indentlevel := indentlevel + 1;
        enterObject := true;
      case JsonArrayEnd =>
        indentlevel := indentlevel - 1;
        if pretty && !enterobj { PrintIndent(); }
        output := output + [0x5d];
      case JsonObjectEnd =>
        indentlevel := indentlevel - 1;
        if pretty && !enterobj { PrintIndent(); }
        output := output + [0x7d];
      case JsonInt | JsonFloat => output := output + data;
      case JsonNull => output := output + [0x6e, 0x75, 0x6c, 0x6c];
      case JsonTrue => output := output + [0x74, 0x72, 0x75, 0x65];
      case JsonFalse => output := output + [0x66, 0x61, 0x6c, 0x73, 0x65];
      case JsonKey =>
        PrintString(data);
        output := output + (if pretty then [0x3a, 0x20] else [0x3a]);
        afterkey := true;
      case JsonString => PrintString(data);
      case JsonNone =>
    }
  }
}
