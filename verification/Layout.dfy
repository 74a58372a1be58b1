/**
  What the printer's output looks like, by recursion on the document and without the
  printer's flags. Raw output has no white space. Pretty output has every element on
  its own line, one indentation deeper than its brackets; a closing bracket on its own
  line, as deep as its opener's line; an empty array or object closed at once; and a
  colon and a space after a key.
 */
module Layout {
  import opened JsonTables
  import opened Grammar
  import opened Printer
  import opened ParserSpec
  import opened ParserTheorems
  import opened PrintParse
  import opened ReadsLexemes

  // ---------------------------------------------------------------- the layout

  /** A character of a string: with an escape of two characters if it has one, but for the slash. */
  function Quote(c: Byte): Bytes {
    if c == 0x22 then Ascii("\\\"")
    else if c == 0x5c then Ascii("\\\\")
    else if c == 0x08 then Ascii("\\b")
    else if c == 0x0c then Ascii("\\f")
    else if c == 0x0a then Ascii("\\n")
    else if c == 0x0d then Ascii("\\r")
    else if c == 0x09 then Ascii("\\t")
    else if c < 0x20 then Ascii("\\u00") + [LOWER_DIGITS[c / 16] as int, LOWER_DIGITS[c % 16] as int]
    else [c]
  }

  function Quotes(v: Bytes): Bytes { if v == [] then [] else Quote(v[0]) + Quotes(v[1..]) }

  function Quoted(v: Bytes): Bytes { Ascii("\"") + Quotes(v) + Ascii("\"") }

  function Indentation(indent: Bytes, depth: nat): Bytes {
    if depth == 0 then [] else indent + Indentation(indent, depth - 1)
  }

  /** A new line, `depth` indentations deep; nothing in raw output. */
  function Line(style: Style, depth: nat): Bytes {
    match style
    case Compact => []
    case Pretty(indent) => Ascii("\n") + Indentation(indent, depth)
  }

  function LayOut(t: Tree, style: Style, depth: nat): Bytes
    decreases t, 0
  {
    match t
    case Str(v) => Quoted(v)
    case Num(n) => NumberText(n)
    case Name(k) => if k == JsonTrue then Ascii("true") else if k == JsonFalse then Ascii("false") else Ascii("null")
    case Arr(items) =>
      if items == [] then Ascii("[]")
      else Ascii("[") + LayOutItems(items, style, depth + 1) + Line(style, depth) + Ascii("]")
    case Obj(members) =>
      if members == [] then Ascii("{}")
      else Ascii("{") + LayOutMembers(members, style, depth + 1) + Line(style, depth) + Ascii("}")
  }

  /** Each element on its line, a comma after all but the last. */
  function LayOutItems(items: seq<Tree>, style: Style, depth: nat): Bytes
    decreases items, 1
  {
    if items == [] then []
    else
      var n := |items| - 1;
      LayOutItems(items[..n], style, depth) + (if n > 0 then Ascii(",") else [])
      + Line(style, depth) + LayOut(items[n], style, depth)
  }

  function LayOutMembers(members: seq<Member>, style: Style, depth: nat): Bytes
    decreases members, 1
  {
    if members == [] then []
    else
      var n := |members| - 1;
      LayOutMembers(members[..n], style, depth) + (if n > 0 then Ascii(",") else [])
      + Line(style, depth) + Quoted(members[n].key) + (if style.Pretty? then Ascii(": ") else Ascii(":"))
      + LayOut(members[n].value, style, depth)
  }

  // ---------------------------------------------------------------- the printer writes it

  lemma QuoteIs(c: Byte)
    ensures EscapeByte(c) == Quote(c)
  {
  }

  lemma {:induction false} QuotesAppend(a: Bytes, b: Bytes)
    ensures Quotes(a + b) == Quotes(a) + Quotes(b)
    decreases |a|
  {
    hide Quote;
    if a == [] {
      assert a + b == b;
    } else {
      assert (a + b)[0] == a[0] && (a + b)[1..] == a[1..] + b;
      QuotesAppend(a[1..], b);
      assert Quote(a[0]) + (Quotes(a[1..]) + Quotes(b)) == Quote(a[0]) + Quotes(a[1..]) + Quotes(b);
    }
  }

  lemma {:induction false} EscapedIs(v: Bytes)
    ensures Escaped(v) == Quotes(v)
  {
    hide Quote, EscapeByte;
    if v != [] {
      var n := |v| - 1;
      EscapedIs(v[..n]);
      QuoteIs(v[n]);
      QuotesAppend(v[..n], [v[n]]);
      assert v[..n] + [v[n]] == v && [v[n]][1..] == [];
      assert Quotes([v[n]]) == Quote(v[n]) + Quotes([]) == Quote(v[n]);
    }
  }

  lemma StringTextIs(v: Bytes)
    ensures StringText(v) == Quoted(v)
  {
    EscapedIs(v);
    hide Escaped, Quotes;
  }

  lemma {:induction false} RepeatIs(indent: Bytes, n: nat)
    ensures Repeat(indent, n) == Indentation(indent, n)
  {
    if n > 0 {
      RepeatIs(indent, n - 1);
      IndentationSnoc(indent, n - 1);
    }
  }

  lemma {:induction false} IndentationSnoc(indent: Bytes, n: nat)
    ensures Indentation(indent, n + 1) == Indentation(indent, n) + indent
  {
    if n == 0 {
      assert indent + [] == [] + indent;
    } else {
      IndentationSnoc(indent, n - 1);
      assert indent + (Indentation(indent, n - 1) + indent) == indent + Indentation(indent, n - 1) + indent;
    }
  }

  lemma LineIs(style: Style, depth: nat)
    ensures NewLine(style, depth) == Line(style, depth)
  {
    if style.Pretty? { RepeatIs(style.indent, depth); }
  }

  /** What comes before a value or a key. */
  function Before(s: PrintState, style: Style): Bytes { LeadText(s, JsonNull, style) }

  lemma BeforeIs(s: PrintState, kind: JsonType, style: Style)
    requires !IsEnd(kind)
    ensures LeadText(s, kind, style) == Before(s, style)
  {
  }

  /** The first element inside brackets is only preceded by its line's beginning; the others by a comma too. */
  lemma BeforeElement(depth: nat, first: bool, style: Style)
    ensures Before(if first then JustInside(depth) else ValueRead(JustInside(depth)), style)
            == (if first then [] else Ascii(",")) + Line(style, depth)
  {
    LineIs(style, depth);
    assert Ascii(",") == [0x2c];
    hide Line, NewLine;
  }

  lemma PrintOpen(s: PrintState, isArray: bool, style: Style)
    ensures Print(s, Event(if isArray then JsonArrayBegin else JsonObjectBegin, []), style)
            == Printed(JustInside(s.indentLevel + 1), Before(s, style) + Ascii(if isArray then "[" else "{"))
  {
    hide NewLine;
  }

  lemma PrintClose(s: PrintState, isArray: bool, style: Style)
    requires s == JustInside(s.indentLevel) || s == ValueRead(s)
    requires s.indentLevel > 0
    ensures Print(s, Event(if isArray then JsonArrayEnd else JsonObjectEnd, []), style)
            == Printed(ValueRead(JustInside(s.indentLevel - 1)),
                       (if s.enterObject then [] else Line(style, s.indentLevel - 1))
                       + Ascii(if isArray then "]" else "}"))
  {
    LineIs(style, s.indentLevel - 1);
    hide NewLine, Line;
  }

  lemma PrintScalar(s: PrintState, t: Tree, style: Style)
    requires !IsContainer(t) && s.indentLevel >= 0
    ensures PrintAll(s, Events(t), style) == Printed(ValueRead(s), Before(s, style) + LayOut(t, style, s.indentLevel))
  {
    hide PrintAll, Print, LayOut, Before;
    var ev := ScalarEvent(t, style, s.indentLevel);
    PrintAllOne(s, ev, style);
    PrintValue(s, ev, style);
  }

  lemma PrintValue(s: PrintState, ev: Event, style: Style)
    requires !IsBegin(ev.kind) && !IsEnd(ev.kind) && ev.kind != JsonKey
    ensures Print(s, ev, style)
            == Printed(ValueRead(s), Before(s, style) + BodyText(s.indentLevel, s.enterObject, ev, style))
  {
    hide NewLine, StringText;
  }

  lemma ScalarEvent(t: Tree, style: Style, depth: nat) returns (ev: Event)
    requires !IsContainer(t)
    ensures Events(t) == [ev] && !IsBegin(ev.kind) && !IsEnd(ev.kind) && ev.kind != JsonKey
    ensures forall level, entered :: BodyText(level, entered, ev, style) == LayOut(t, style, depth)
  {
    hide StringText, Quoted, NumberText, NewLine;
    match t
    case Str(v) =>
      ev := Event(JsonString, v);
      StringTextIs(v);
    case Num(n) => ev := Event(NumberKind(n), NumberText(n));
    case Name(k) => ev := Event(k, []);
  }

  lemma PrintKey(s: PrintState, key: Bytes, style: Style)
    ensures var p := Print(s, Event(JsonKey, key), style);
            && p.text == Before(s, style) + Quoted(key) + (if style.Pretty? then Ascii(": ") else Ascii(":"))
            && Before(p.state, style) == [] && ValueRead(p.state) == ValueRead(s)
            && p.state.indentLevel == s.indentLevel
  {
    StringTextIs(key);
    hide NewLine, StringText, Quoted;
  }

  lemma {:induction false} PrintTree(s: PrintState, t: Tree, style: Style)
    requires s.indentLevel >= 0
    ensures PrintAll(s, Events(t), style) == Printed(ValueRead(s), Before(s, style) + LayOut(t, style, s.indentLevel))
    decreases t, 1
  {
    hide PrintAll, Print, Events, LayOut, Before;
    if IsContainer(t) {
      ContainerIs(t, style, s.indentLevel);
      hide ItemEvents, MemberEvents, LayOutItems, LayOutMembers, Line;
      if t.Arr? {
        PrintItems(s.indentLevel + 1, t.items, style, t);
        PrintBracketed(s, true, ItemEvents(t.items), t.items == [],
                       LayOutItems(t.items, style, s.indentLevel + 1), style);
      } else {
        PrintMembers(s.indentLevel + 1, t.members, style, t);
        PrintBracketed(s, false, MemberEvents(t.members), t.members == [],
                       LayOutMembers(t.members, style, s.indentLevel + 1), style);
      }
    } else {
      PrintScalar(s, t, style);
    }
  }

  lemma ContainerIs(t: Tree, style: Style, depth: nat)
    requires IsContainer(t)
    ensures t.Arr? ==>
              && Events(t) == [Event(JsonArrayBegin, [])] + ItemEvents(t.items) + [Event(JsonArrayEnd, [])]
              && LayOut(t, style, depth) == Ascii("[") + LayOutItems(t.items, style, depth + 1)
                                            + (if t.items == [] then [] else Line(style, depth)) + Ascii("]")
    ensures t.Obj? ==>
              && Events(t) == [Event(JsonObjectBegin, [])] + MemberEvents(t.members) + [Event(JsonObjectEnd, [])]
              && LayOut(t, style, depth) == Ascii("{") + LayOutMembers(t.members, style, depth + 1)
                                            + (if t.members == [] then [] else Line(style, depth)) + Ascii("}")
  {
    NoText(style);
    hide Line;
  }

  lemma NoText(style: Style)
    ensures forall depth: nat :: LayOutItems([], style, depth) == [] && LayOutMembers([], style, depth) == []
    ensures Ascii("[") + Ascii("]") == Ascii("[]") && Ascii("{") + Ascii("}") == Ascii("{}")
  {
  }

  /** An opening bracket, what is inside, and the closing bracket. */
  lemma PrintBracketed(s: PrintState, isArray: bool, inside: seq<Event>, empty: bool, text: Bytes, style: Style)
    requires s.indentLevel >= 0
    requires PrintAll(JustInside(s.indentLevel + 1), inside, style)
             == Printed(if empty then JustInside(s.indentLevel + 1) else ValueRead(JustInside(s.indentLevel + 1)), text)
    ensures var begin := Event(if isArray then JsonArrayBegin else JsonObjectBegin, []);
            var end := Event(if isArray then JsonArrayEnd else JsonObjectEnd, []);
            PrintAll(s, [begin] + inside + [end], style)
            == Printed(ValueRead(s), Before(s, style) + (Ascii(if isArray then "[" else "{") + text
                       + (if empty then [] else Line(style, s.indentLevel)) + Ascii(if isArray then "]" else "}")))
  {
    var begin := Event(if isArray then JsonArrayBegin else JsonObjectBegin, []);
    var end := Event(if isArray then JsonArrayEnd else JsonObjectEnd, []);
    hide PrintAll, Print, Before, Line;
    PrintOpen(s, isArray, style);
    var q := PrintAll(JustInside(s.indentLevel + 1), inside, style).state;
    PrintClose(q, isArray, style);
    PrintAllOne(s, begin, style);
    PrintAllAppend(s, [begin], inside, style);
    PrintAllOne(q, end, style);
    PrintAllAppend(s, [begin] + inside, [end], style);
    var open, close := Ascii(if isArray then "[" else "{"), Ascii(if isArray then "]" else "}");
    var line := if empty then [] else Line(style, s.indentLevel);
    hide Ascii;
    assert Before(s, style) + open + text + (line + close) == Before(s, style) + (open + text + line + close);
  }

  lemma PrintNothing(s: PrintState, style: Style)
    ensures PrintAll(s, [], style) == Printed(s, [])
  {
  }

  lemma ItemsAre(items: seq<Tree>, style: Style, depth: nat)
    ensures var n := |items| - 1;
            if items == [] then ItemEvents(items) == [] && LayOutItems(items, style, depth) == []
            else
              && ItemEvents(items) == ItemEvents(items[..n]) + Events(items[n])
              && LayOutItems(items, style, depth)
                 == LayOutItems(items[..n], style, depth) + (if n > 0 then Ascii(",") else [])
                    + Line(style, depth) + LayOut(items[n], style, depth)
  {
    hide Line, LayOut, Events;
  }

  lemma MembersAre(members: seq<Member>, style: Style, depth: nat)
    ensures var n := |members| - 1;
            if members == [] then MemberEvents(members) == [] && LayOutMembers(members, style, depth) == []
            else
              && MemberEvents(members)
                 == MemberEvents(members[..n]) + [Event(JsonKey, members[n].key)] + Events(members[n].value)
              && LayOutMembers(members, style, depth)
                 == LayOutMembers(members[..n], style, depth) + (if n > 0 then Ascii(",") else [])
                    + Line(style, depth) + Quoted(members[n].key)
                    + (if style.Pretty? then Ascii(": ") else Ascii(":")) + LayOut(members[n].value, style, depth)
  {
    hide Line, LayOut, Events, Quoted;
  }

  lemma {:induction false} PrintItems(depth: nat, items: seq<Tree>, style: Style, t: Tree)
    requires forall i :: 0 <= i < |items| ==> items[i] < t
    ensures PrintAll(JustInside(depth), ItemEvents(items), style)
            == Printed(if items == [] then JustInside(depth) else ValueRead(JustInside(depth)),
                       LayOutItems(items, style, depth))
    decreases t, 0, items
  {
    hide Events, PrintAll, Print, Before, Line, LayOut, LayOutItems, ItemEvents;
    ItemsAre(items, style, depth);
    if items == [] {
      PrintNothing(JustInside(depth), style);
    } else {
      hide Ascii;
      var n := |items| - 1;
      PrintItems(depth, items[..n], style, t);
      var p := PrintAll(JustInside(depth), ItemEvents(items[..n]), style);
      PrintTree(p.state, items[n], style);
      PrintAllAppend(JustInside(depth), ItemEvents(items[..n]), Events(items[n]), style);
      BeforeElement(depth, n == 0, style);
      var comma := if n > 0 then Ascii(",") else [];
      assert p.text + (comma + Line(style, depth) + LayOut(items[n], style, depth))
             == p.text + comma + Line(style, depth) + LayOut(items[n], style, depth);
    }
  }

  lemma {:induction false} PrintMembers(depth: nat, members: seq<Member>, style: Style, t: Tree)
    requires forall i :: 0 <= i < |members| ==> members[i].value < t
    ensures PrintAll(JustInside(depth), MemberEvents(members), style)
            == Printed(if members == [] then JustInside(depth) else ValueRead(JustInside(depth)),
                       LayOutMembers(members, style, depth))
    decreases t, 0, members
  {
    hide Events, PrintAll, Print, Before, Line, LayOut, LayOutMembers, MemberEvents, Quoted;
    MembersAre(members, style, depth);
    if members == [] {
      PrintNothing(JustInside(depth), style);
    } else {
      hide Ascii;
      var n := |members| - 1;
      var m := members[n];
      PrintMembers(depth, members[..n], style, t);
      var p := PrintAll(JustInside(depth), MemberEvents(members[..n]), style);
      var key := Event(JsonKey, m.key);
      PrintAllOne(p.state, key, style);
      PrintKey(p.state, m.key, style);
      var k := Print(p.state, key, style);
      PrintTree(k.state, m.value, style);
      PrintAllAppend(JustInside(depth), MemberEvents(members[..n]), [key], style);
      PrintAllAppend(JustInside(depth), MemberEvents(members[..n]) + [key], Events(m.value), style);
      BeforeElement(depth, n == 0, style);
      Regroup(p.text, if n > 0 then Ascii(",") else [], Line(style, depth), Quoted(m.key),
              if style.Pretty? then Ascii(": ") else Ascii(":"), LayOut(m.value, style, depth));
    }
  }

  lemma Regroup(a: Bytes, b: Bytes, c: Bytes, d: Bytes, e: Bytes, f: Bytes)
    ensures a + (b + c + d + e) + ([] + f) == a + b + c + d + e + f
  {
    assert [] + f == f;
  }

  /** What the printer writes for any document, raw or pretty, is its layout. */
  lemma PrintsLayout(t: Tree, style: Style)
    requires IsContainer(t)
    ensures PrintAll(INITIAL, Events(t), style).text == LayOut(t, style, 0)
  {
    PrintTree(INITIAL, t, style);
    assert Before(INITIAL, style) == [] && [] + LayOut(t, style, 0) == LayOut(t, style, 0) by { hide LayOut; }
  }

  /** So formatting a text that was read to its end gives the layout of the document it spells. */
  lemma FormatsLayout(cfg: Config, bytes: Bytes, style: Style) returns (ls: seq<Lexeme>, t: Tree)
    requires var o := Feed(cfg, Init(cfg), bytes); o.ret == 0 && IsDone(o.p) && o.p.log != []
    ensures Text(ls) <= bytes && Admits(cfg, ls, Text(ls), t)
    ensures PrintAll(INITIAL, Feed(cfg, Init(cfg), bytes).p.log, style).text == LayOut(t, style, 0)
  {
    hide Feed, PrintAll, LayOut, Text;
    ls, t := DoneIsDocument(cfg, bytes);
    PrintsLayout(t, style);
  }

  /** With the default indentation a level is one tab. */
  lemma DefaultLine(depth: nat)
    ensures Line(Pretty(DEFAULT_INDENT), depth) == Ascii("\n") + seq(depth, i => Ascii("\t")[0])
  {
    Tabs(depth);
  }

  lemma {:induction false} Tabs(depth: nat)
    ensures Indentation(DEFAULT_INDENT, depth) == seq(depth, i => Ascii("\t")[0])
  {
    assert DEFAULT_INDENT == Ascii("\t");
    if depth > 0 { Tabs(depth - 1); }
  }
}
