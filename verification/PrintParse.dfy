/**
  Printing and parsing undo each other: what the printer writes for a document,
  raw or pretty, is a spelling of that document, so the parser reads it back.
 */
module PrintParse {
  import opened JsonTables
  import opened ParserSpec
  import opened Grammar
  import opened TokenMachine
  import opened ReadsLexemes
  import opened FindsLexemes
  import opened ParserTheorems
  import ParserRuns
  import opened Printer

  /** Strings and keys are made of complete characters, numbers are in the parser's number language. */
  ghost predicate WellFormed(t: Tree) {
    match t
    case Str(v) => IsUtf8(v)
    case Num(n) => IsNumber(n)
    case Name(_) => true
    case Arr(items) => forall i :: 0 <= i < |items| ==> WellFormed(items[i])
    case Obj(members) => forall i :: 0 <= i < |members| ==> IsUtf8(members[i].key) && WellFormed(members[i].value)
  }

  // ---------------------------------------------------------------- lists of lexemes

  /** `ls` spells `text` and means `ts`, without comments. */
  ghost predicate Writes(ls: seq<Lexeme>, text: Bytes, ts: seq<Token>) {
    AreLexemes(ls) && CommentFree(ls) && Text(ls) == text && Meanings(ls) == ts
  }

  lemma {:induction false} WritesAppend(a: seq<Lexeme>, t1: Bytes, m1: seq<Token>, b: seq<Lexeme>, t2: Bytes,
      m2: seq<Token>)
    requires Writes(a, t1, m1) && Writes(b, t2, m2)
    ensures Writes(a + b, t1 + t2, m1 + m2)
    decreases b
  {
    hide IsLexeme, IsComment, LexemeText, Meaning;
    if b == [] {
      assert a + b == a && t1 + t2 == t1 && m1 + m2 == m1;
    } else {
      var n := |b| - 1;
      assert b[..n] + [b[n]] == b;
      assert (a + b)[..|a + b| - 1] == a + b[..n];
      WritesAppend(a, t1, m1, b[..n], Text(b[..n]), Meanings(b[..n]));
      assert t1 + t2 == t1 + Text(b[..n]) + LexemeText(b[n]);
      assert m1 + m2 == m1 + Meanings(b[..n]) + Meaning(b[n]);
    }
  }

  lemma WritesOne(l: Lexeme)
    requires IsLexeme(l) && !IsComment(l)
    ensures Writes([l], LexemeText(l), Meaning(l))
  {
    hide IsLexeme, IsComment, LexemeText, Meaning;
    assert [l][..0] == [];
    assert Text([]) == [] && Meanings([]) == [];
    assert [] + LexemeText(l) == LexemeText(l) && [] + Meaning(l) == Meaning(l);
  }

  lemma WritesNothing()
    ensures Writes([], [], [])
  {
  }

  // ---------------------------------------------------------------- strings

  lemma {:induction false} EscapedAppend(a: Bytes, b: Bytes)
    ensures Escaped(a + b) == Escaped(a) + Escaped(b)
    decreases b
  {
    hide EscapeByte;
    if b == [] {
      assert a + b == a;
    } else {
      var n := |b| - 1;
      assert (a + b)[..|a + b| - 1] == a + b[..n];
      EscapedAppend(a, b[..n]);
    }
  }

  lemma {:induction false} HighBytesAreRaw(g: Bytes)
    requires forall i :: 0 <= i < |g| ==> g[i] >= 0x80
    ensures Escaped(g) == g
  {
    if g != [] { HighBytesAreRaw(g[..|g| - 1]); }
  }

  /** How the printer writes one character. */
  function SpellGroup(g: Bytes): StrUnit
    requires |g| > 0
  {
    var c := g[0];
    if |g| > 1 then Raw(g)
    else if c == 0x08 then Esc(0x62)
    else if c == 0x09 then Esc(0x74)
    else if c == 0x0a then Esc(0x6e)
    else if c == 0x0c then Esc(0x66)
    else if c == 0x0d then Esc(0x72)
    else if c < 0x20 then Hex([0x30, 0x30, HexDigit(c / 16), HexDigit(c % 16)])
    else if c == 0x22 || c == 0x5c then Esc(c)
    else Raw(g)
  }

  lemma SpellGroupIs(g: Bytes)
    requires IsUtf8Group(g)
    ensures var u := SpellGroup(g); IsUnit(u) && UnitText(u) == Escaped(g) && UnitValue(u) == g
  {
    if |g| > 1 {
      HighBytesAreRaw(g);
    } else {
      SpellByteIs(g[0]);
      assert g == [g[0]];
    }
  }

  lemma SpellByteIs(c: Byte)
    requires c < 0x80
    ensures var u := SpellGroup([c]); IsUnit(u) && UnitText(u) == Escaped([c]) && UnitValue(u) == [c]
  {
    assert [c][..0] == [];
    assert Escaped([c]) == [] + EscapeByte(c) == EscapeByte(c);
    if c < 0x20 && SpellGroup([c]).Hex? { SmallHex(c); }
  }

  lemma SmallHex(c: Byte)
    requires c < 0x20
    ensures var q := [0x30, 0x30, HexDigit(c / 16), HexDigit(c % 16)];
            IsQuad(q) && HexQuad(q) == c
  {
  }

  /** The printer's text of a string is a string lexeme with that value. */
  lemma {:induction false} SpellGroups(groups: seq<Bytes>) returns (us: seq<StrUnit>)
    requires forall g :: g in groups ==> IsUtf8Group(g)
    ensures AreUnits(us) && UnitsText(us) == Escaped(Concat(groups)) && UnitsValue(us) == Concat(groups)
  {
    if groups == [] {
      us := [];
    } else {
      var n := |groups| - 1;
      var before := SpellGroups(groups[..n]);
      SpellGroupIs(groups[n]);
      EscapedAppend(Concat(groups[..n]), groups[n]);
      hide IsUtf8Group, SpellGroup;
      us := before + [SpellGroup(groups[n])];
      AddUnit(before, SpellGroup(groups[n]));
    }
  }

  lemma WritesString(v: Bytes) returns (ls: seq<Lexeme>)
    requires IsUtf8(v)
    ensures Writes(ls, StringText(v), [TStr(v)])
  {
    var groups :| IsUtf8Split(groups, v);
    var us := SpellGroups(groups);
    hide IsUtf8Group;
    ls := [StrLex(us)];
    WritesOne(StrLex(us));
    hide Writes, UnitsText, Escaped;
    assert LexemeText(StrLex(us)) == StringText(v);
    assert Meaning(StrLex(us)) == [TStr(v)];
  }

  // ---------------------------------------------------------------- white space

  ghost predicate IsStyle(style: Style) {
    style.Pretty? ==> forall i :: 0 <= i < |style.indent| ==> IsWhite(style.indent[i])
  }

  lemma {:induction false} WritesSpaces(s: Bytes) returns (ls: seq<Lexeme>)
    requires forall i :: 0 <= i < |s| ==> IsWhite(s[i])
    ensures Writes(ls, s, [])
  {
    if s == [] {
      ls := [];
    } else {
      var n := |s| - 1;
      var before := WritesSpaces(s[..n]);
      WritesOne(Space(s[n]));
      hide Writes;
      WritesAppend(before, s[..n], [], [Space(s[n])], [s[n]], []);
      ls := before + [Space(s[n])];
      var none: seq<Token> := [];
      assert s[..n] + [s[n]] == s && none + none == none;
    }
  }

  lemma {:induction false} RepeatIsWhite(s: Bytes, n: int)
    requires forall i :: 0 <= i < |s| ==> IsWhite(s[i])
    ensures forall i :: 0 <= i < |Repeat(s, n)| ==> IsWhite(Repeat(s, n)[i])
    decreases if n <= 0 then 0 else n
  {
    if n > 0 { RepeatIsWhite(s, n - 1); }
  }

  lemma WritesNewLine(style: Style, level: int) returns (ls: seq<Lexeme>)
    requires IsStyle(style)
    ensures Writes(ls, NewLine(style, level), [])
  {
    match style
    case Compact => ls := []; WritesNothing();
    case Pretty(indent) =>
      RepeatIsWhite(indent, level);
      ls := WritesSpaces(IndentText(indent, level));
  }

  // ---------------------------------------------------------------- events

  /** The token before a value, a key or an opening bracket. */
  function Lead(s: PrintState): seq<Token> {
    if !s.enterObject && !s.afterKey then [TPunct(COMMA)] else []
  }

  lemma WritesPunct(b: Byte)
    requires IsStructuralChar(b)
    ensures Writes([Punct(b)], [b], [TPunct(b)])
  {
    WritesOne(Punct(b));
  }

  lemma WritesLead(s: PrintState, kind: JsonType, style: Style) returns (ls: seq<Lexeme>)
    requires IsStyle(style) && !IsEnd(kind)
    ensures Writes(ls, LeadText(s, kind, style), Lead(s))
  {
    var line := WritesNewLine(style, s.indentLevel);
    WritesPunct(COMMA);
    WritesNothing();
    hide Writes, NewLine;
    if !s.enterObject && !s.afterKey {
      WritesAppend([Punct(COMMA)], [COMMA], [TPunct(COMMA)], line, NewLine(style, s.indentLevel), []);
      ls := [Punct(COMMA)] + line;
      assert [TPunct(COMMA)] + [] == [TPunct(COMMA)];
    } else if s.enterObject && !s.first {
      ls := line;
    } else {
      ls := [];
    }
  }

  /** An event other than an end, given its body's spelling. */
  lemma WritesEvent(s: PrintState, ev: Event, style: Style, body: seq<Lexeme>, ts: seq<Token>) returns (ls: seq<Lexeme>)
    requires IsStyle(style) && !IsEnd(ev.kind)
    requires Writes(body, BodyText(s.indentLevel, s.enterObject, ev, style), ts)
    ensures Writes(ls, Print(s, ev, style).text, Lead(s) + ts)
  {
    var lead := WritesLead(s, ev.kind, style);
    hide Writes, LeadText, BodyText, Lead;
    WritesAppend(lead, LeadText(s, ev.kind, style), Lead(s), body,
                 BodyText(s.indentLevel, s.enterObject, ev, style), ts);
    ls := lead + body;
  }

  function ValueRead(s: PrintState): PrintState { PrintState(s.indentLevel, false, false, false) }

  /** A scalar event, given its body's spelling. */
  lemma WritesValue(s: PrintState, ev: Event, style: Style, body: seq<Lexeme>, ts: seq<Token>) returns (ls: seq<Lexeme>)
    requires IsStyle(style) && !IsEnd(ev.kind) && !IsBegin(ev.kind) && ev.kind != JsonKey
    requires Writes(body, BodyText(s.indentLevel, s.enterObject, ev, style), ts)
    ensures var p := PrintAll(s, [ev], style);
            p.state == ValueRead(s) && Writes(ls, p.text, Lead(s) + ts)
  {
    hide Writes, Lead, LeadText, BodyText, PrintAll;
    PrintAllOne(s, ev, style);
    ls := WritesEvent(s, ev, style, body, ts);
  }

  lemma WritesScalar(s: PrintState, t: Tree, style: Style) returns (ls: seq<Lexeme>)
    requires WellFormed(t) && IsStyle(style) && (t.Str? || t.Num? || t.Name?)
    ensures var p := PrintAll(s, Events(t), style);
            p.state == ValueRead(s) && Writes(ls, p.text, Lead(s) + Tokens(t))
  {
    hide Writes, PrintAll, NumberText, StringText, Lead, Text, Meanings;
    match t {
      case Str(v) =>
        var body := WritesString(v);
        ls := WritesValue(s, Event(JsonString, v), style, body, [TStr(v)]);
      case Num(n) =>
        WritesOne(NumLex(n));
        hide IsNumber;
        ls := WritesValue(s, Event(NumberKind(n), NumberText(n)), style, [NumLex(n)], [TNum(n)]);
      case Name(k) =>
        WritesOne(NameLex(k));
        assert BodyText(s.indentLevel, s.enterObject, Event(k, []), style) == NameText(k);
        ls := WritesValue(s, Event(k, []), style, [NameLex(k)], [TName(k)]);
    }
  }

  /** A key and its colon. */
  lemma WritesKey(s: PrintState, key: Bytes, style: Style) returns (ls: seq<Lexeme>)
    requires IsUtf8(key) && IsStyle(style)
    ensures Writes(ls, Print(s, Event(JsonKey, key), style).text, Lead(s) + [TStr(key), TPunct(COLON)])
  {
    hide Writes, StringText, Lead, Print;
    var str := WritesString(key);
    WritesPunct(COLON);
    WritesAppend(str, StringText(key), [TStr(key)], [Punct(COLON)], [COLON], [TPunct(COLON)]);
    var body := str + [Punct(COLON)];
    var text := StringText(key) + [COLON];
    var ts := [TStr(key)] + [TPunct(COLON)];
    if style.Pretty? {
      var space := WritesSpaces([0x20]);
      WritesAppend(body, text, ts, space, [0x20], []);
      body := body + space;
      assert text + [0x20] == StringText(key) + [0x3a, 0x20];
      assert ts + [] == ts;
    }
    assert ts == [TStr(key), TPunct(COLON)];
    ls := WritesEvent(s, Event(JsonKey, key), style, body, ts);
  }

  lemma WritesOpen(s: PrintState, isArray: bool, style: Style) returns (ls: seq<Lexeme>)
    requires IsStyle(style)
    ensures var ev := Event(if isArray then JsonArrayBegin else JsonObjectBegin, []);
            Writes(ls, Print(s, ev, style).text, Lead(s) + [TPunct(if isArray then LSQRB else LCURB)])
  {
    WritesPunct(LSQRB);
    WritesPunct(LCURB);
    hide Writes;
    ls := WritesEvent(s, Event(if isArray then JsonArrayBegin else JsonObjectBegin, []), style,
                      [Punct(if isArray then LSQRB else LCURB)], [TPunct(if isArray then LSQRB else LCURB)]);
  }

  lemma WritesClose(s: PrintState, isArray: bool, style: Style) returns (ls: seq<Lexeme>)
    requires IsStyle(style)
    ensures var ev := Event(if isArray then JsonArrayEnd else JsonObjectEnd, []);
            Writes(ls, Print(s, ev, style).text, [TPunct(if isArray then RSQRB else RCURB)])
  {
    hide Writes, NewLine, Print;
    var b := if isArray then RSQRB else RCURB;
    var line := WritesNewLine(style, s.indentLevel - 1);
    WritesPunct(b);
    CloseText(s, isArray, style);
    if s.enterObject {
      ls := [Punct(b)];
    } else {
      WritesAppend(line, NewLine(style, s.indentLevel - 1), [], [Punct(b)], [b], [TPunct(b)]);
      ls := line + [Punct(b)];
      assert [] + [TPunct(b)] == [TPunct(b)];
    }
  }

  lemma CloseText(s: PrintState, isArray: bool, style: Style)
    ensures var ev := Event(if isArray then JsonArrayEnd else JsonObjectEnd, []);
            var b := if isArray then RSQRB else RCURB;
            Print(s, ev, style).text == if s.enterObject then [b] else NewLine(style, s.indentLevel - 1) + [b]
  {
    hide NewLine;
  }

  // ---------------------------------------------------------------- documents

  /** The state just inside a bracket. */
  function JustInside(level: int): PrintState { PrintState(level, false, true, false) }

  lemma {:induction false} WritesTree(s: PrintState, t: Tree, style: Style) returns (ls: seq<Lexeme>)
    requires WellFormed(t) && IsStyle(style)
    ensures var p := PrintAll(s, Events(t), style);
            p.state == ValueRead(s) && Writes(ls, p.text, Lead(s) + Tokens(t))
    decreases t, 2
  {
    if t.Arr? || t.Obj? {
      ls := WritesContainer(s, t, style);
    } else {
      ls := WritesScalar(s, t, style);
    }
  }

  lemma ContainerParts(t: Tree)
    requires IsContainer(t) && WellFormed(t)
    ensures t.Arr? ==>
              && Events(t) == [Event(JsonArrayBegin, [])] + ItemEvents(t.items) + [Event(JsonArrayEnd, [])]
              && Tokens(t) == [TPunct(LSQRB)] + ItemTokens(t.items) + [TPunct(RSQRB)]
              && forall i :: 0 <= i < |t.items| ==> WellFormed(t.items[i])
    ensures t.Obj? ==>
              && Events(t) == [Event(JsonObjectBegin, [])] + MemberEvents(t.members) + [Event(JsonObjectEnd, [])]
              && Tokens(t) == [TPunct(LCURB)] + MemberTokens(t.members) + [TPunct(RCURB)]
              && forall i :: 0 <= i < |t.members| ==> WellFormed(t.members[i].value) && IsUtf8(t.members[i].key)
  {
  }

  lemma {:induction false} WritesContainer(s: PrintState, t: Tree, style: Style) returns (ls: seq<Lexeme>)
    requires WellFormed(t) && IsStyle(style) && IsContainer(t)
    ensures var p := PrintAll(s, Events(t), style);
            p.state == ValueRead(s) && Writes(ls, p.text, Lead(s) + Tokens(t))
    decreases t, 1
  {
    hide Events, Tokens, ItemEvents, MemberEvents, ItemTokens, MemberTokens, WellFormed, IsStyle, Writes, PrintAll,
        Print, Lead;
    ContainerParts(t);
    if t.Arr? { ls := WritesArr(s, t, style); } else { ls := WritesObj(s, t, style); }
  }

  lemma {:induction false} WritesArr(s: PrintState, t: Tree, style: Style) returns (ls: seq<Lexeme>)
    requires t.Arr? && IsStyle(style) && forall i :: 0 <= i < |t.items| ==> WellFormed(t.items[i])
    ensures var p := PrintAll(s, [Event(JsonArrayBegin, [])] + ItemEvents(t.items) + [Event(JsonArrayEnd, [])], style);
            p.state == ValueRead(s)
            && Writes(ls, p.text, Lead(s) + ([TPunct(LSQRB)] + ItemTokens(t.items) + [TPunct(RSQRB)]))
    decreases t, 0
  {
    hide ItemEvents, ItemTokens, WellFormed, IsStyle, Writes, PrintAll, Print, Lead;
    var open := WritesOpen(s, true, style);
    var content := WritesItems(JustInside(s.indentLevel + 1), t.items, style, t);
    ls := WritesBracketed(s, style, Event(JsonArrayBegin, []), ItemEvents(t.items), Event(JsonArrayEnd, []),
                          TPunct(LSQRB), ItemTokens(t.items), TPunct(RSQRB), open, content);
    Regroup4(Lead(s), [TPunct(LSQRB)], ItemTokens(t.items), [TPunct(RSQRB)]);
  }

  lemma {:induction false} WritesObj(s: PrintState, t: Tree, style: Style) returns (ls: seq<Lexeme>)
    requires t.Obj? && IsStyle(style)
    requires forall i :: 0 <= i < |t.members| ==> WellFormed(t.members[i].value) && IsUtf8(t.members[i].key)
    ensures var p := PrintAll(s, [Event(JsonObjectBegin, [])] + MemberEvents(t.members)
            + [Event(JsonObjectEnd, [])], style);
            p.state == ValueRead(s)
            && Writes(ls, p.text, Lead(s) + ([TPunct(LCURB)] + MemberTokens(t.members) + [TPunct(RCURB)]))
    decreases t, 0
  {
    hide MemberEvents, MemberTokens, WellFormed, IsStyle, Writes, PrintAll, Print, Lead;
    var open := WritesOpen(s, false, style);
    var content := WritesMembers(JustInside(s.indentLevel + 1), t.members, style, t);
    ls := WritesBracketed(s, style, Event(JsonObjectBegin, []), MemberEvents(t.members), Event(JsonObjectEnd, []),
                          TPunct(LCURB), MemberTokens(t.members), TPunct(RCURB), open, content);
    Regroup4(Lead(s), [TPunct(LCURB)], MemberTokens(t.members), [TPunct(RCURB)]);
  }

  /** An opening bracket, what is inside, and the closing bracket. */
  lemma WritesBracketed(s: PrintState, style: Style, begin: Event, inside: seq<Event>, end: Event,
                        l: Token, ts: seq<Token>, r: Token, open: seq<Lexeme>, content: seq<Lexeme>)
      returns (ls: seq<Lexeme>)
    requires IsStyle(style)
    requires (begin == Event(JsonArrayBegin, []) && end == Event(JsonArrayEnd, []) && r == TPunct(RSQRB))
             || (begin == Event(JsonObjectBegin, []) && end == Event(JsonObjectEnd, []) && r == TPunct(RCURB))
    requires Writes(open, Print(s, begin, style).text, Lead(s) + [l])
    requires var p := PrintAll(JustInside(s.indentLevel + 1), inside, style);
             && p.state.indentLevel == s.indentLevel + 1
             && Writes(content, p.text, ts)
    ensures var p := PrintAll(s, [begin] + inside + [end], style);
            p.state == ValueRead(s) && Writes(ls, p.text, Lead(s) + [l] + ts + [r])
  {
    var p1 := Print(s, begin, style);
    var p2 := PrintAll(p1.state, inside, style);
    assert p1.state == JustInside(s.indentLevel + 1);
    var close := WritesClose(p2.state, begin.kind == JsonArrayBegin, style);
    var p3 := Print(p2.state, end, style);
    assert p3.state == ValueRead(s);
    hide Writes, Print, PrintAll, Lead;
    PrintAllOne(s, begin, style);
    PrintAllAppend(s, [begin], inside, style);
    PrintAllOne(p2.state, end, style);
    PrintAllAppend(s, [begin] + inside, [end], style);
    WritesAppend(open, p1.text, Lead(s) + [l], content, p2.text, ts);
    WritesAppend(open + content, p1.text + p2.text, Lead(s) + [l] + ts, close, p3.text, [r]);
    ls := open + content + close;
  }

  lemma {:induction false} WritesItems(s: PrintState, items: seq<Tree>, style: Style, t: Tree) returns (ls: seq<Lexeme>)
    requires IsStyle(style) && s.enterObject
    requires forall i :: 0 <= i < |items| ==> items[i] < t && WellFormed(items[i])
    ensures var p := PrintAll(s, ItemEvents(items), style);
            && p.state == (if items == [] then s else ValueRead(s))
            && Writes(ls, p.text, ItemTokens(items))
    decreases t, 0, items
  {
    if items == [] {
      ls := [];
      WritesNothing();
    } else {
      hide Writes, Events, Tokens, ItemTokens, PrintAll, Lead, WellFormed;
      var n := |items| - 1;
      var before := WritesItems(s, items[..n], style, t);
      var p := PrintAll(s, ItemEvents(items[..n]), style);
      var last := WritesTree(p.state, items[n], style);
      var q := PrintAll(p.state, Events(items[n]), style);
      PrintAllAppend(s, ItemEvents(items[..n]), Events(items[n]), style);
      WritesAppend(before, p.text, ItemTokens(items[..n]), last, q.text, Lead(p.state) + Tokens(items[n]));
      ls := before + last;
      ItemTokensSnoc(items, p.state, s);
    }
  }

  lemma ItemTokensSnoc(items: seq<Tree>, p: PrintState, s: PrintState)
    requires items != [] && s.enterObject && p == (if items[..|items| - 1] == [] then s else ValueRead(s))
    ensures var n := |items| - 1;
            ItemTokens(items) == ItemTokens(items[..n]) + (Lead(p) + Tokens(items[n]))
  {
    var n := |items| - 1;
    hide Tokens;
    if n > 0 {
      assert ItemsThenCommas(items[..n]) == ItemTokens(items[..n]) + [TPunct(COMMA)];
    }
  }

  lemma {:induction false} WritesMembers(s: PrintState, members: seq<Member>, style: Style, t: Tree)
      returns (ls: seq<Lexeme>)
    requires IsStyle(style) && s.enterObject
    requires forall i :: 0 <= i < |members| ==>
               members[i].value < t && WellFormed(members[i].value) && IsUtf8(members[i].key)
    ensures var p := PrintAll(s, MemberEvents(members), style);
            && p.state == (if members == [] then s else ValueRead(s))
            && Writes(ls, p.text, MemberTokens(members))
    decreases t, 0, members
  {
    hide Writes, Events, Tokens, Print, Lead, WellFormed;
    if members == [] {
      ls := [];
      WritesNothing();
    } else {
      hide MemberTokens, PrintAll;
      var n := |members| - 1;
      var m := members[n];
      var before := WritesMembers(s, members[..n], style, t);
      var p := PrintAll(s, MemberEvents(members[..n]), style);
      var member := WritesMember(p.state, m, style, t);
      MemberTokensSnoc(members, p.state, s);
      var evs := [Event(JsonKey, m.key)] + Events(m.value);
      assert MemberEvents(members) == MemberEvents(members[..n]) + evs;
      hide MemberEvents;
      ls := WritesBoth(s, style, MemberEvents(members[..n]), before, MemberTokens(members[..n]),
                       evs, member, Lead(p.state) + [TStr(m.key), TPunct(COLON)] + Tokens(m.value));
    }
  }

  /** Two runs of events printed one after the other. */
  lemma WritesBoth(s: PrintState, style: Style, evs1: seq<Event>, ls1: seq<Lexeme>, ts1: seq<Token>,
                   evs2: seq<Event>, ls2: seq<Lexeme>, ts2: seq<Token>) returns (ls: seq<Lexeme>)
    requires Writes(ls1, PrintAll(s, evs1, style).text, ts1)
    requires Writes(ls2, PrintAll(PrintAll(s, evs1, style).state, evs2, style).text, ts2)
    ensures var p := PrintAll(s, evs1 + evs2, style);
            && p.state == PrintAll(PrintAll(s, evs1, style).state, evs2, style).state
            && Writes(ls, p.text, ts1 + ts2)
  {
    hide Writes, PrintAll;
    var p := PrintAll(s, evs1, style);
    PrintAllAppend(s, evs1, evs2, style);
    WritesAppend(ls1, p.text, ts1, ls2, PrintAll(p.state, evs2, style).text, ts2);
    ls := ls1 + ls2;
  }

  lemma {:induction false} WritesMember(s: PrintState, m: Member, style: Style, t: Tree) returns (ls: seq<Lexeme>)
    requires IsStyle(style) && m.value < t && WellFormed(m.value) && IsUtf8(m.key)
    ensures var p := PrintAll(s, [Event(JsonKey, m.key)] + Events(m.value), style);
            && p.state == ValueRead(s)
            && Writes(ls, p.text, Lead(s) + [TStr(m.key), TPunct(COLON)] + Tokens(m.value))
    decreases m.value, 3
  {
    hide Writes, Events, Tokens, PrintAll, WellFormed, IsUtf8;
    var key := WritesKey(s, m.key, style);
    var k := Print(s, Event(JsonKey, m.key), style);
    assert Lead(k.state) == [] && k.state.indentLevel == s.indentLevel;
    hide Print, Lead;
    var value := WritesTree(k.state, m.value, style);
    var q := PrintAll(k.state, Events(m.value), style);
    PrintAllOne(s, Event(JsonKey, m.key), style);
    PrintAllAppend(s, [Event(JsonKey, m.key)], Events(m.value), style);
    assert [] + Tokens(m.value) == Tokens(m.value);
    WritesAppend(key, k.text, Lead(s) + [TStr(m.key), TPunct(COLON)], value, q.text, Tokens(m.value));
    ls := key + value;
  }

  lemma Regroup4<T>(a: seq<T>, b: seq<T>, x: seq<T>, y: seq<T>)
    ensures (a + b) + x + y == a + (b + x + y)
  {
  }

  /** Members each followed by a comma are the members, and a comma after the last. */
  lemma MembersAndCommas(members: seq<Member>)
    ensures MembersThenCommas(members) == MemberTokens(members) + (if members == [] then [] else [TPunct(COMMA)])
  {
    hide Tokens;
  }

  lemma MemberTokensSnoc(members: seq<Member>, p: PrintState, s: PrintState)
    requires members != [] && s.enterObject && p == (if members[..|members| - 1] == [] then s else ValueRead(s))
    ensures var n := |members| - 1; var m := members[n];
            MemberTokens(members)
            == MemberTokens(members[..n]) + (Lead(p) + [TStr(m.key), TPunct(COLON)] + Tokens(m.value))
  {
    var n := |members| - 1;
    var m := members[n];
    var ms := members[..n];
    assert MemberTokens(members) == MembersThenCommas(ms) + [TStr(m.key), TPunct(COLON)] + Tokens(m.value);
    hide MemberTokens, MembersThenCommas, Tokens;
    MembersAndCommas(ms);
    assert Lead(p) == if ms == [] then [] else [TPunct(COMMA)];
    Regroup4(MemberTokens(ms), Lead(p), [TStr(m.key), TPunct(COLON)], Tokens(m.value));
  }

  // ---------------------------------------------------------------- round trips

  /** The number of bytes a lexeme takes in the parse buffer is less than its text. */
  lemma WidthBelowText(l: Lexeme)
    requires IsLexeme(l)
    ensures Width(l) <= |LexemeText(l)|
  {
    if l.StrLex? { PeakBelowText(l.units); }
  }

  lemma {:induction false} PeakBelowText(us: seq<StrUnit>)
    requires AreUnits(us)
    ensures UnitsPeak(us) <= |UnitsText(us)| && |UnitsValue(us)| <= |UnitsText(us)|
  {
    if us != [] {
      var n := |us| - 1;
      PeakBelowText(us[..n]);
      hide UnitsText, UnitsValue, UnitsPeak, HexQuad;
      assert UnitPeak(us[n]) <= |UnitText(us[n])| && |UnitValue(us[n])| <= |UnitText(us[n])|;
    }
  }

  lemma {:induction false} LexemeBelowText(ls: seq<Lexeme>, i: nat)
    requires i < |ls|
    ensures |LexemeText(ls[i])| <= |Text(ls)|
  {
    hide LexemeText;
    if i < |ls| - 1 { LexemeBelowText(ls[..|ls| - 1], i); }
  }

  /** A text shorter than the data limit fits it. */
  lemma ShortTextFits(cfg: Config, ls: seq<Lexeme>)
    requires AreLexemes(ls) && (cfg.maxData == 0 || |Text(ls)| < cfg.maxData)
    ensures AllFit(cfg, ls)
  {
    hide Text, LexemeText, IsLexeme, Width;
    forall i | 0 <= i < |ls|
      ensures Fits(cfg, ls[i])
    {
      WidthBelowText(ls[i]);
      LexemeBelowText(ls, i);
    }
  }

  function Printing(t: Tree, style: Style): Bytes {
    PrintAll(INITIAL, Events(t), style).text
  }

  /**
    Round trip: whatever the style, parsing what the printer writes for a document,
    followed by any white space, returns 0, ends done, and tells exactly the
    document's events; and printing what was told gives the same text again.
   */
  lemma PrintThenParse(cfg: Config, t: Tree, style: Style, trailer: Bytes)
    requires IsContainer(t) && WellFormed(t) && IsStyle(style)
    requires forall i :: 0 <= i < |trailer| ==> IsWhite(trailer[i])
    requires Within(cfg.maxNesting, Depth(t))
    requires cfg.maxData == 0 || |Printing(t, style) + trailer| < cfg.maxData
    requires Accepts(cfg, Events(t))
    ensures var o := Feed(cfg, Init(cfg), Printing(t, style) + trailer);
            && o.ret == 0 && AtEnd(o.p) && o.p.log == Events(t)
            && PrintAll(INITIAL, o.p.log, style).text == Printing(t, style)
  {
    var ls := WritesTree(INITIAL, t, style);
    var space := WritesSpaces(trailer);
    hide Feed, StepByte, Writes, WellFormed, Events, Tokens, PrintAll, Depth, Accepts;
    assert Lead(INITIAL) + Tokens(t) == Tokens(t);
    WritesAppend(ls, Printing(t, style), Tokens(t), space, trailer, []);
    assert Tokens(t) + [] == Tokens(t);
    WrittenIsAdmitted(cfg, ls + space, Printing(t, style) + trailer, t);
    AcceptsSpelling(cfg, ls + space, Printing(t, style) + trailer, t);
  }

  lemma WrittenIsAdmitted(cfg: Config, ls: seq<Lexeme>, text: Bytes, t: Tree)
    requires Writes(ls, text, Tokens(t)) && IsContainer(t) && Within(cfg.maxNesting, Depth(t))
    requires cfg.maxData == 0 || |text| < cfg.maxData
    ensures Admits(cfg, ls, text, t)
  {
    ShortTextFits(cfg, ls);
    hide Text, Meanings, Tokens, IsLexeme, Fits;
  }

  // ---------------------------------------------------------------- what is accepted is well-formed

  ghost predicate SoundToken(t: Token) {
    (t.TStr? ==> IsUtf8(t.value)) && (t.TNum? ==> IsNumber(t.number))
  }

  ghost predicate SoundTokens(ts: seq<Token>) {
    forall t :: t in ts ==> SoundToken(t)
  }

  lemma {:induction false} MeaningsAreSound(ls: seq<Lexeme>)
    requires AreLexemes(ls)
    ensures SoundTokens(Meanings(ls))
  {
    if ls != [] {
      var n := |ls| - 1;
      MeaningsAreSound(ls[..n]);
      if ls[n].StrLex? { var groups := ParserRuns.UnitsAreUtf8(ls[n].units); }
    }
  }

  lemma {:induction false} SoundTree(t: Tree)
    requires SoundTokens(Tokens(t))
    ensures WellFormed(t)
    decreases t, 1
  {
    hide SoundToken;
    match t
    case Str(v) => assert SoundToken(TStr(v)) by { assert TStr(v) in Tokens(t); } SoundString(v);
    case Num(n) => assert SoundToken(TNum(n)) by { assert TNum(n) in Tokens(t); } SoundNumber(n);
    case Name(_) =>
    case Arr(items) => SoundItems(items, t);
    case Obj(members) => SoundMembers(members, t);
  }

  lemma SoundString(v: Bytes)
    requires SoundToken(TStr(v))
    ensures IsUtf8(v)
  {
  }

  lemma SoundNumber(n: Number)
    requires SoundToken(TNum(n))
    ensures IsNumber(n)
  {
  }

  lemma {:induction false} SoundItems(items: seq<Tree>, t: Tree)
    requires SoundTokens(ItemTokens(items)) || SoundTokens(ItemsThenCommas(items))
    requires forall i :: 0 <= i < |items| ==> items[i] < t
    ensures forall i :: 0 <= i < |items| ==> WellFormed(items[i])
    decreases t, 0, items
  {
    hide SoundToken, WellFormed;
    if items != [] {
      var n := |items| - 1;
      assert SoundTokens(ItemsThenCommas(items[..n])) && SoundTokens(Tokens(items[n])) by { hide Tokens; }
      hide Tokens, ItemTokens, ItemsThenCommas;
      SoundTree(items[n]);
      SoundItems(items[..n], t);
    }
  }

  lemma {:induction false} SoundMembers(members: seq<Member>, t: Tree)
    requires SoundTokens(MemberTokens(members)) || SoundTokens(MembersThenCommas(members))
    requires forall i :: 0 <= i < |members| ==> members[i].value < t
    ensures forall i :: 0 <= i < |members| ==> IsUtf8(members[i].key) && WellFormed(members[i].value)
    decreases t, 0, members
  {
    hide SoundToken, WellFormed;
    if members != [] {
      var n := |members| - 1;
      var m := members[n];
      assert SoundTokens(MembersThenCommas(members[..n])) && SoundTokens(Tokens(m.value))
          && SoundToken(TStr(m.key)) by {
        hide Tokens;
        assert TStr(m.key) in [TStr(m.key), TPunct(COLON)];
      }
      hide Tokens, MemberTokens, MembersThenCommas;
      SoundString(m.key);
      SoundTree(m.value);
      SoundMembers(members[..n], t);
    }
  }

  /** Every accepted document is well-formed, so it can be printed and read back. */
  lemma AcceptedIsWellFormed(cfg: Config, ls: seq<Lexeme>, bytes: Bytes, t: Tree)
    requires Admits(cfg, ls, bytes, t)
    ensures WellFormed(t)
  {
    hide SoundTokens, WellFormed;
    MeaningsAreSound(ls);
    SoundTree(t);
  }

  /**
    Reformatting. A text that was read without an error, and that `json_parser_is_done`
    finds done with something told, printed in some style, gives a text that parses to
    the same events, and that reformats to itself byte for byte: formatting preserves
    the meaning and is idempotent. With a data limit, as long as the formatted text,
    which may be longer than the text it comes from, is below it.
   */
  lemma Reformatting(cfg: Config, bytes: Bytes, style: Style)
    requires IsStyle(style)
    requires var o := Feed(cfg, Init(cfg), bytes); o.ret == 0 && IsDone(o.p) && o.p.log != []
    requires var evs := Feed(cfg, Init(cfg), bytes).p.log;
             cfg.maxData == 0 || |PrintAll(INITIAL, evs, style).text + [NEWLINE]| < cfg.maxData
    ensures var evs := Feed(cfg, Init(cfg), bytes).p.log;
            var text := PrintAll(INITIAL, evs, style).text;
            var o := Feed(cfg, Init(cfg), text + [NEWLINE]);
            && o.ret == 0 && AtEnd(o.p) && o.p.log == evs
            && PrintAll(INITIAL, o.p.log, style).text == text
  {
    hide Feed, StepByte, PrintAll, Accepts, Events, WellFormed;
    var ls, t := DoneIsDocument(cfg, bytes);
    AcceptedIsWellFormed(cfg, ls, Text(ls), t);
    PrintThenParse(cfg, t, style, [NEWLINE]);
  }
}
