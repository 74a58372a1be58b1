/**
  Completeness of the parser: every way to spell a document is accepted, and the
  callback is told the document's events.

  The proof goes lexeme by lexeme. Between two lexemes the parser is in the
  situation of the token machine (`Between`), except that a number or name it has
  read may not have been told to the callback yet.
 */
module ReadsLexemes {
  import opened JsonTables
  import opened ParserSpec
  import opened Grammar
  import opened TokenMachine

  // ---------------------------------------------------------------- between lexemes

  predicate IsNumberEnd(s: State) {
    s == STATE_Z0 || s == STATE_I0 || s == STATE_R2 || s == STATE_X3
  }

  predicate IsNumberKind(kind: JsonType) { kind.JsonInt? || kind.JsonFloat? }

  /** The number or name that has been read but not told. */
  function Pending(p: Parser): seq<Event> {
    if IsDelayed(p.kind) then [Event(p.kind, p.buffer)] else []
  }

  /** The parser, at rest in a structural state, stands where the token machine stands. */
  predicate Rests(p: Parser, c: Control) {
    && p.utf8Left == 0 && p.unicodeMulti == 0
    && IsStructural(p.state) && p.state == c.state
    && p.stack == c.stack
    && p.log + Pending(p) == c.events
    && p.expectingKey == KeyExpected(c.state)
    && (p.state != STATE_GO && p.state != STATE_OK ==> p.stack != [])
    && (p.kind == JsonNone || ((IsNumberKind(p.kind) || IsName(p.kind)) && p.state == STATE_OK && p.stack != []))
    && (IsNumberKind(p.kind) || p.buffer == [])
  }

  /** As `Rests`, or at the end of a number that nothing has ended yet. */
  predicate Between(p: Parser, c: Control) {
    || Rests(p, c)
    || (IsNumberEnd(p.state) && IsNumberKind(p.kind) && Rests(p.(state := STATE_OK), c))
  }

  /** The parser's nesting limit is the configured one. */
  predicate Limited(cfg: Config, p: Parser) {
    cfg.maxNesting != 0 ==> p.stackSize == cfg.maxNesting
  }

  /** The callback accepts these events, told in this order. */
  ghost predicate Accepts(cfg: Config, all: seq<Event>) {
    forall k :: 0 <= k < |all| ==> cfg.callback(all[..k], all[k]) == 0
  }

  /** `n` more bytes fit under the data limit. */
  predicate Room(cfg: Config, p: Parser, n: nat) {
    cfg.maxData == 0 || |p.buffer| + n < cfg.maxData
  }

  lemma EmitAccepted(cfg: Config, p: Parser, ev: Event, all: seq<Event>)
    requires Accepts(cfg, all) && p.log + [ev] <= all
    ensures Emit(cfg, p, ev) == Outcome(p.(log := p.log + [ev]), 0)
  {
    var k := |p.log|;
    assert all[k] == (p.log + [ev])[k];
    assert all[..k] == p.log;
  }

  /** Flushing tells the pending event and empties the buffer. */
  lemma FlushAccepted(cfg: Config, p: Parser, all: seq<Event>)
    requires Accepts(cfg, all) && p.log + Pending(p) <= all
    ensures DoBuffer(cfg, p) == Outcome(p.(log := p.log + Pending(p), buffer := []), 0)
  {
    if IsDelayed(p.kind) {
      EmitAccepted(cfg, p, Event(p.kind, p.buffer), all);
    } else {
      assert p.log + [] == p.log;
    }
  }

  lemma PushFits(cfg: Config, p: Parser, ch: Byte)
    requires Room(cfg, p, 1)
    ensures var o := BufferPush(cfg, p, ch);
            o.ret == 0 && o.p == p.(buffer := p.buffer + [ch], bufferSize := o.p.bufferSize)
  {
  }

  // ---------------------------------------------------------------- white space and structural characters

  /** How a byte that is not rejected is taken, outside `\u` escapes. */
  lemma StepTakes(cfg: Config, p: Parser, ch: Byte, left: nat, c: Class, t: Target, policy: Policy)
    requires Ready(p)
    requires Classify(p.utf8Left, ch) == Classified(left, c, 0)
    requires Transition(p.state, c) == t != REJECT && BufferPolicy(p.state, c) == policy
    requires t != ACT_UC
    ensures var o := Push(cfg, p.(utf8Left := left), policy, ch);
            StepByte(cfg, p, ch) == if o.ret != 0 then o else Move(cfg, o.p, t)
  {
    hide Transition, BufferPolicy, Classify, Push, Move;
  }

  predicate IsDelimiter(ch: Byte) {
    ch == COMMA || ch == RCURB || ch == RSQRB || IsWhite(ch)
  }

  function DelimiterTarget(ch: Byte): Target
    requires IsDelimiter(ch)
  {
    if ch == COMMA then ACT_SP else if ch == RCURB then ACT_OE else if ch == RSQRB then ACT_AE else STATE_OK
  }

  lemma DelimiterStep(cfg: Config, p: Parser, ch: Byte)
    requires p.state == STATE_OK || IsNumberEnd(p.state)
    requires p.utf8Left == 0 && IsDelimiter(ch)
    ensures StepByte(cfg, p, ch) == Move(cfg, p, DelimiterTarget(ch))
  {
    StepTakes(cfg, p, ch, 0, CharacterClass(ch), DelimiterTarget(ch), Ignore);
    hide StepByte, Move, Transition;
  }

  /** Flushing does not look at the state. */
  lemma FlushForgetsState(cfg: Config, p: Parser, s: State)
    ensures var o := DoBuffer(cfg, p);
            DoBuffer(cfg, p.(state := s)) == Outcome(o.p.(state := s), o.ret)
  {
  }

  lemma ActForgetsState(cfg: Config, p: Parser, s: State, t: Action)
    requires t == ACT_SP || t == ACT_AE || t == ACT_OE
    ensures var o := Act(cfg, p.(state := s), t);
            && Act(cfg, p, t).ret == o.ret
            && (o.ret == 0 ==>
                  Act(cfg, p, t).p.(state := ActionState(Act(cfg, p, t).p.state, t))
                      == o.p.(state := ActionState(o.p.state, t)))
  {
  }

  /** A number that has ended behaves as a value that has been read. */
  lemma NumberEndsLike(cfg: Config, p: Parser, ch: Byte)
    requires IsNumberEnd(p.state) && p.utf8Left == 0 && IsDelimiter(ch)
    ensures var o := StepByte(cfg, p.(state := STATE_OK), ch);
            StepByte(cfg, p, ch).ret == o.ret && (o.ret == 0 ==> StepByte(cfg, p, ch) == o)
  {
    DelimiterStep(cfg, p, ch);
    DelimiterStep(cfg, p.(state := STATE_OK), ch);
    hide StepByte;
    var t := DelimiterTarget(ch);
    if t != STATE_OK {
      FlushForgetsState(cfg, p, STATE_OK);
      ActForgetsState(cfg, DoBuffer(cfg, p).p, STATE_OK, t);
      hide DoBuffer, Act, ActionState;
    }
  }

  lemma SpaceStep(cfg: Config, p: Parser, c: Control, ch: Byte)
    requires Rests(p, c) && IsWhite(ch)
    ensures StepByte(cfg, p, ch) == Outcome(p, 0)
  {
    StepTakes(cfg, p, ch, 0, CharacterClass(ch), p.state, Ignore);
    hide StepByte;
  }

  lemma OpenStep(cfg: Config, p: Parser, c: Control, ch: Byte, all: seq<Event>)
    requires Rests(p, c) && Limited(cfg, p) && Accepts(cfg, all)
    requires (ch == LCURB || ch == LSQRB) && TokenStep(cfg.maxNesting, c, TPunct(ch)).Some?
    requires TokenStep(cfg.maxNesting, c, TPunct(ch)).value.events <= all
    ensures var o := StepByte(cfg, p, ch);
            o.ret == 0 && Rests(o.p, TokenStep(cfg.maxNesting, c, TPunct(ch)).value) && Limited(cfg, o.p)
  {
    var t := if ch == LCURB then ACT_OB else ACT_AB;
    hide StepByte;
    StepTakes(cfg, p, ch, 0, CharacterClass(ch), t, Ignore);
    hide Transition, BufferPolicy, Classify, CharacterClass;
    var ev := Event(if ch == LCURB then JsonObjectBegin else JsonArrayBegin, []);
    assert p.log + [] == p.log;
    EmitAccepted(cfg, p, ev, all);
  }

  lemma CloseStep(cfg: Config, p: Parser, c: Control, ch: Byte, all: seq<Event>)
    requires Rests(p, c) && Limited(cfg, p) && Accepts(cfg, all)
    requires (ch == RCURB || ch == RSQRB) && TokenStep(cfg.maxNesting, c, TPunct(ch)).Some?
    requires TokenStep(cfg.maxNesting, c, TPunct(ch)).value.events <= all
    ensures var o := StepByte(cfg, p, ch);
            o.ret == 0 && Rests(o.p, TokenStep(cfg.maxNesting, c, TPunct(ch)).value) && Limited(cfg, o.p)
  {
    var t := if ch == RCURB then ACT_OE else ACT_AE;
    hide StepByte;
    StepTakes(cfg, p, ch, 0, CharacterClass(ch), t, Ignore);
    hide Transition, BufferPolicy, Classify, CharacterClass;
    FlushAccepted(cfg, p, all);
    hide DoBuffer;
    var q := p.(log := p.log + Pending(p), buffer := [], stack := p.stack[..|p.stack| - 1]);
    EmitAccepted(cfg, q, Event(if ch == RCURB then JsonObjectEnd else JsonArrayEnd, []), all);
  }

  lemma MarkStep(cfg: Config, p: Parser, c: Control, ch: Byte, all: seq<Event>)
    requires Rests(p, c) && Limited(cfg, p) && Accepts(cfg, all)
    requires (ch == COMMA || ch == COLON) && TokenStep(cfg.maxNesting, c, TPunct(ch)).Some?
    requires c.events <= all
    ensures var o := StepByte(cfg, p, ch);
            o.ret == 0 && Rests(o.p, TokenStep(cfg.maxNesting, c, TPunct(ch)).value) && Limited(cfg, o.p)
  {
    var t := if ch == COMMA then ACT_SP else ACT_KS;
    hide StepByte;
    StepTakes(cfg, p, ch, 0, CharacterClass(ch), t, Ignore);
    hide Transition, BufferPolicy, Classify, CharacterClass;
    FlushAccepted(cfg, p, all);
    hide DoBuffer;
  }

  // ---------------------------------------------------------------- strings

  /** Like `p`, with `bs` added to the buffer. */
  predicate Grew(p: Parser, q: Parser, bs: Bytes) {
    q == p.(buffer := p.buffer + bs, bufferSize := q.bufferSize)
  }

  /** A byte that is buffered on the way to a plain state. */
  lemma AppendStep(cfg: Config, p: Parser, ch: Byte, left: nat, c: Class, t: State)
    requires Ready(p) && Room(cfg, p, 1)
    requires Classify(p.utf8Left, ch) == Classified(left, c, 0)
    requires Transition(p.state, c) == t && BufferPolicy(p.state, c) == Append
    ensures var o := StepByte(cfg, p, ch);
            o.ret == 0 && Grew(p.(state := t, utf8Left := left), o.p, [ch])
  {
    StepTakes(cfg, p, ch, left, c, t, Append);
    hide StepByte, Transition, BufferPolicy, Classify;
    PushFits(cfg, p.(utf8Left := left), ch);
    hide BufferPush;
  }

  /** A byte that is not buffered on the way to a plain state. */
  lemma SkipStep(cfg: Config, p: Parser, ch: Byte, c: Class, t: State)
    requires Ready(p) && p.utf8Left == 0
    requires Classify(0, ch) == Classified(0, c, 0)
    requires Transition(p.state, c) == t && BufferPolicy(p.state, c) == Ignore
    ensures StepByte(cfg, p, ch) == Outcome(p.(state := t), 0)
  {
    StepTakes(cfg, p, ch, 0, c, t, Ignore);
    hide StepByte, Transition, BufferPolicy, Classify;
  }

  lemma {:induction false} FeedContinuations(cfg: Config, p: Parser, rest: Bytes)
    requires p.state == STATE_S && p.utf8Left == |rest| && Room(cfg, p, |rest|)
    requires forall i :: 0 <= i < |rest| ==> IsContinuation(rest[i])
    ensures var o := Feed(cfg, p, rest);
            o.ret == 0 && Grew(p.(utf8Left := 0), o.p, rest)
    decreases rest
  {
    if rest == [] {
      assert p.buffer + [] == p.buffer;
    } else {
      AppendStep(cfg, p, rest[0], |rest| - 1, C_OTHER, STATE_S);
      var o := StepByte(cfg, p, rest[0]);
      FeedContinuations(cfg, o.p, rest[1..]);
      assert [rest[0]] + rest[1..] == rest;
      FeedCons(cfg, p, rest[0], rest[1..]);
      hide StepByte, Feed;
      assert p.buffer + [rest[0]] + rest[1..] == p.buffer + rest;
    }
  }

  /** The first byte of a character in a string. */
  lemma RawLead(cfg: Config, p: Parser, g: Bytes)
    requires p.state == STATE_S && p.utf8Left == 0 && IsUnit(Raw(g)) && Room(cfg, p, |g|)
    ensures var o := StepByte(cfg, p, g[0]);
            o.ret == 0 && Grew(p.(utf8Left := |g| - 1), o.p, [g[0]])
  {
    hide StepByte;
    var header := Utf8Header(g[0]);
    var c := if header > 0 then C_OTHER else CharacterClass(g[0]);
    assert Transition(STATE_S, c) == STATE_S && BufferPolicy(STATE_S, c) == Append;
    AppendStep(cfg, p, g[0], header, c, STATE_S);
  }

  lemma FeedRaw(cfg: Config, p: Parser, g: Bytes)
    requires p.state == STATE_S && p.utf8Left == 0 && IsUnit(Raw(g)) && Room(cfg, p, |g|)
    ensures var o := Feed(cfg, p, g);
            o.ret == 0 && Grew(p, o.p, g)
  {
    hide Transition, BufferPolicy, StepByte, Feed, CharacterClass, Utf8Header, Classify;
    RawLead(cfg, p, g);
    var o := StepByte(cfg, p, g[0]);
    FeedContinuations(cfg, o.p, g[1..]);
    assert [g[0]] + g[1..] == g;
    FeedCons(cfg, p, g[0], g[1..]);
    assert p.buffer + [g[0]] + g[1..] == p.buffer + g;
  }

  lemma FeedEscape(cfg: Config, p: Parser, b: Byte)
    requires p.state == STATE_S && p.utf8Left == 0 && IsEscapeLetter(b) && Room(cfg, p, 1)
    ensures var o := Feed(cfg, p, [BACKSLASH, b]);
            o.ret == 0 && Grew(p, o.p, [EscapeValue(b)])
  {
    SkipStep(cfg, p, BACKSLASH, C_BACKS, STATE_E0);
    var q := p.(state := STATE_E0);
    StepTakes(cfg, q, b, 0, CharacterClass(b), STATE_S, Escape);
    PushFits(cfg, q, EscapeValue(b));
    hide StepByte, Feed, BufferPush, EscapeValue;
    FeedCons(cfg, p, BACKSLASH, [b]);
    assert [BACKSLASH] + [b] == [BACKSLASH, b];
    FeedOne(cfg, q, b);
  }

  /** The digits of a `\u` escape but the last. */
  lemma HexStep(cfg: Config, p: Parser, ch: Byte)
    requires Ready(p) && p.utf8Left == 0 && IsHexDigit(ch) && Room(cfg, p, 1)
    requires p.state == STATE_U1 || p.state == STATE_U2 || p.state == STATE_U3
    ensures var o := StepByte(cfg, p, ch);
            o.ret == 0 && Grew(p.(state := p.state + 1), o.p, [ch]) && Ready(o.p)
  {
    AppendStep(cfg, p, ch, 0, CharacterClass(ch), p.state + 1);
    hide StepByte;
  }

  /** The last digit, which decodes the escape. */
  lemma LastHexStep(cfg: Config, p: Parser, ch: Byte)
    requires Ready(p) && p.state == STATE_U4 && p.utf8Left == 0 && IsHexDigit(ch) && Room(cfg, p, 1)
    ensures EndsInHex(p.buffer + [ch], 4)
    ensures var d := DecodeUnicode(p.(buffer := p.buffer + [ch]));
            var o := StepByte(cfg, p, ch);
            o.ret == d.ret
            && (d.ret == 0 ==> o.p == d.p.(state := if d.p.unicodeMulti != 0 then STATE_D1 else STATE_S,
                                            kind := JsonNone, bufferSize := o.p.bufferSize))
  {
    EndsInHexSnoc(p.buffer, 3, ch);
    PushFits(cfg, p, ch);
    var c := CharacterClass(ch);
    assert Transition(STATE_U4, c) == ACT_UC && BufferPolicy(STATE_U4, c) == Append;
    hide Transition, BufferPolicy, BufferPush, CharacterClass, HexQuad, AllHex;
  }

  lemma QuadEnds(b: Bytes, q: Bytes)
    requires IsQuad(q)
    ensures EndsInHex(b + q, 4) && (b + q)[|b + q| - 4..] == q && (b + q)[..|b + q| - 4] == b
  {
  }

  /** Four digits are decoded at the last of them. */
  lemma FeedQuad(cfg: Config, p: Parser, q: Bytes)
    requires p.state == STATE_U1 && p.utf8Left == 0 && IsQuad(q) && Room(cfg, p, 4)
    ensures EndsInHex(p.buffer + q, 4)
    ensures var d := DecodeUnicode(p.(buffer := p.buffer + q));
            var o := Feed(cfg, p, q);
            o.ret == d.ret
            && (d.ret == 0 ==> o.p == d.p.(state := if d.p.unicodeMulti != 0 then STATE_D1 else STATE_S,
                                            kind := JsonNone, bufferSize := o.p.bufferSize))
  {
    hide StepByte, Feed, AllHex, EndsInHex, DecodeUnicode, Ready;
    QuadEnds(p.buffer, q);
    HexQuadDigits(q);
    Readies(p);
    HexStep(cfg, p, q[0]);
    var p1 := StepByte(cfg, p, q[0]).p;
    HexStep(cfg, p1, q[1]);
    var p2 := StepByte(cfg, p1, q[1]).p;
    HexStep(cfg, p2, q[2]);
    var p3 := StepByte(cfg, p2, q[2]).p;
    LastHexStep(cfg, p3, q[3]);
    assert p3.buffer + [q[3]] == p.buffer + q;
    FeedFour(cfg, p, q);
    DecodeForgets(p3.(buffer := p3.buffer + [q[3]]), p.(buffer := p.buffer + q));
  }

  lemma HexQuadDigits(q: Bytes)
    requires IsQuad(q)
    ensures IsHexDigit(q[0]) && IsHexDigit(q[1]) && IsHexDigit(q[2]) && IsHexDigit(q[3])
  {
  }

  lemma Readies(p: Parser)
    requires p.state != STATE_U2 && p.state != STATE_U3 && p.state != STATE_U4
    ensures Ready(p)
  {
  }

  lemma FeedFour(cfg: Config, p: Parser, q: Bytes)
    requires Ready(p) && |q| == 4
    requires StepByte(cfg, p, q[0]).ret == 0
    requires StepByte(cfg, StepByte(cfg, p, q[0]).p, q[1]).ret == 0
    requires StepByte(cfg, StepByte(cfg, StepByte(cfg, p, q[0]).p, q[1]).p, q[2]).ret == 0
    ensures var o3 := StepByte(cfg, StepByte(cfg, StepByte(cfg, p, q[0]).p, q[1]).p, q[2]);
            Feed(cfg, p, q) == StepByte(cfg, o3.p, q[3])
  {
    hide StepByte, Feed, Ready;
    var p1 := StepByte(cfg, p, q[0]).p;
    var p2 := StepByte(cfg, p1, q[1]).p;
    var p3 := StepByte(cfg, p2, q[2]).p;
    FeedCons(cfg, p, q[0], q[1..]);
    FeedCons(cfg, p1, q[1], q[2..]);
    FeedCons(cfg, p2, q[2], q[3..]);
    assert [q[0]] + q[1..] == q && [q[1]] + q[2..] == q[1..] && [q[2]] + q[3..] == q[2..] && q[3..] == [q[3]];
    FeedOne(cfg, p3, q[3]);
  }

  /** Decoding looks at the buffer and the pending surrogate only. */
  lemma DecodeForgets(p: Parser, q: Parser)
    requires p.buffer == q.buffer && p.unicodeMulti == q.unicodeMulti && EndsInHex(q.buffer, 4)
    ensures var d := DecodeUnicode(p); var e := DecodeUnicode(q);
            d.ret == e.ret && d.p == p.(buffer := e.p.buffer, unicodeMulti := e.p.unicodeMulti)
            && e.p == q.(buffer := e.p.buffer, unicodeMulti := e.p.unicodeMulti)
  {
    hide HexQuad, AllHex;
  }

  /** From `\` to the first digit. */
  lemma FeedBackslashU(cfg: Config, p: Parser)
    requires p.utf8Left == 0 && (p.state == STATE_S || p.state == STATE_D1)
    ensures Feed(cfg, p, [BACKSLASH, LOWER_U]) == Outcome(p.(state := STATE_U1), 0)
  {
    var e := if p.state == STATE_S then STATE_E0 else STATE_D2;
    SkipStep(cfg, p, BACKSLASH, C_BACKS, e);
    SkipStep(cfg, p.(state := e), LOWER_U, C_LOW_U, STATE_U1);
    hide StepByte, Feed;
    FeedCons(cfg, p, BACKSLASH, [LOWER_U]);
    assert [BACKSLASH] + [LOWER_U] == [BACKSLASH, LOWER_U];
    FeedOne(cfg, p.(state := e), LOWER_U);
  }

  lemma FeedHex(cfg: Config, p: Parser, q: Bytes)
    requires p.state == STATE_S && p.utf8Left == 0 && p.unicodeMulti == 0 && p.kind == JsonNone
    requires IsUnit(Hex(q)) && Room(cfg, p, 4)
    ensures var o := Feed(cfg, p, UnitText(Hex(q)));
            o.ret == 0 && Grew(p, o.p, UnitValue(Hex(q)))
  {
    FeedBackslashU(cfg, p);
    var p1 := p.(state := STATE_U1);
    FeedQuad(cfg, p1, q);
    QuadEnds(p.buffer, q);
    hide Feed, StepByte, HexQuad;
    FeedAppend(cfg, p, [BACKSLASH, LOWER_U], q);
  }

  /** A high surrogate is kept until its low half comes. */
  lemma FeedHigh(cfg: Config, p: Parser, h: Bytes)
    requires p.state == STATE_S && p.utf8Left == 0 && p.unicodeMulti == 0 && p.kind == JsonNone
    requires IsQuad(h) && IsHighSurrogate(HexQuad(h)) && Room(cfg, p, 4)
    ensures var o := Feed(cfg, p, [BACKSLASH, LOWER_U] + h);
            o.ret == 0 && Grew(p.(state := STATE_D1, unicodeMulti := HexQuad(h)), o.p, [])
  {
    FeedBackslashU(cfg, p);
    var p1 := p.(state := STATE_U1);
    FeedQuad(cfg, p1, h);
    QuadEnds(p.buffer, h);
    hide Feed, StepByte, HexQuad;
    FeedAppend(cfg, p, [BACKSLASH, LOWER_U], h);
    assert p.buffer + [] == p.buffer;
  }

  lemma FeedPair(cfg: Config, p: Parser, h: Bytes, l: Bytes)
    requires p.state == STATE_S && p.utf8Left == 0 && p.unicodeMulti == 0 && p.kind == JsonNone
    requires IsUnit(Pair(h, l)) && Room(cfg, p, 4)
    ensures var o := Feed(cfg, p, UnitText(Pair(h, l)));
            o.ret == 0 && Grew(p, o.p, UnitValue(Pair(h, l)))
  {
    FeedHigh(cfg, p, h);
    var p1 := Feed(cfg, p, [BACKSLASH, LOWER_U] + h).p;
    FeedBackslashU(cfg, p1);
    var p2 := p1.(state := STATE_U1);
    FeedQuad(cfg, p2, l);
    QuadEnds(p.buffer, l);
    hide Feed, StepByte, HexQuad;
    FeedAppend(cfg, p, [BACKSLASH, LOWER_U] + h, [BACKSLASH, LOWER_U]);
    FeedAppend(cfg, p, [BACKSLASH, LOWER_U] + h + [BACKSLASH, LOWER_U], l);
  }

  lemma FeedUnit(cfg: Config, p: Parser, u: StrUnit)
    requires p.state == STATE_S && p.utf8Left == 0 && p.unicodeMulti == 0 && p.kind == JsonNone
    requires IsUnit(u) && Room(cfg, p, UnitPeak(u))
    ensures var o := Feed(cfg, p, UnitText(u));
            o.ret == 0 && Grew(p, o.p, UnitValue(u))
  {
    hide Feed, StepByte, HexQuad;
    match u
    case Raw(g) => FeedRaw(cfg, p, g);
    case Esc(b) => FeedEscape(cfg, p, b);
    case Hex(q) => FeedHex(cfg, p, q);
    case Pair(h, l) => FeedPair(cfg, p, h, l);
  }

  lemma {:induction false} FeedUnits(cfg: Config, p: Parser, us: seq<StrUnit>)
    requires p.state == STATE_S && p.utf8Left == 0 && p.unicodeMulti == 0 && p.kind == JsonNone
    requires AreUnits(us) && Room(cfg, p, UnitsPeak(us))
    ensures var o := Feed(cfg, p, UnitsText(us));
            o.ret == 0 && Grew(p, o.p, UnitsValue(us))
    decreases us
  {
    hide StepByte, UnitText, UnitValue, UnitPeak, IsUnit;
    if us == [] {
      assert Feed(cfg, p, []) == Outcome(p, 0);
      assert p.buffer + [] == p.buffer;
    } else {
      var n := |us| - 1;
      FeedUnits(cfg, p, us[..n]);
      hide Feed;
      var q := Feed(cfg, p, UnitsText(us[..n])).p;
      FeedUnit(cfg, q, us[n]);
      FeedAppend(cfg, p, UnitsText(us[..n]), UnitText(us[n]));
      assert p.buffer + UnitsValue(us[..n]) + UnitValue(us[n]) == p.buffer + UnitsValue(us);
    }
  }

  /** A string lexeme, from its opening to its closing quote. */
  lemma FeedString(cfg: Config, p: Parser, c: Control, us: seq<StrUnit>, all: seq<Event>)
    requires Rests(p, c) && Limited(cfg, p) && Accepts(cfg, all)
    requires AreUnits(us) && Room(cfg, p, UnitsPeak(us))
    requires TokenStep(cfg.maxNesting, c, TStr(UnitsValue(us))).Some?
    requires TokenStep(cfg.maxNesting, c, TStr(UnitsValue(us))).value.events <= all
    ensures var o := Feed(cfg, p, LexemeText(StrLex(us)));
            o.ret == 0 && Limited(cfg, o.p)
            && Rests(o.p, TokenStep(cfg.maxNesting, c, TStr(UnitsValue(us))).value)
  {
    SkipStep(cfg, p, QUOTE, C_QUOTE, STATE_S);
    var q := p.(state := STATE_S);
    hide Feed, StepByte;
    FeedUnits(cfg, q, us);
    var q2 := Feed(cfg, q, UnitsText(us)).p;
    assert q2.buffer == UnitsValue(us);
    CloseString(cfg, p, q2, c, UnitsValue(us), all);
    FeedCons(cfg, p, QUOTE, UnitsText(us));
    FeedSnoc(cfg, p, [QUOTE] + UnitsText(us), QUOTE);
    hide UnitsValue, UnitsText, UnitsPeak, Rests, Limited, TokenStep;
  }

  /** The closing quote: `p` is the parser at the opening one, `q` at the closing one. */
  lemma CloseString(cfg: Config, p: Parser, q: Parser, c: Control, v: Bytes, all: seq<Event>)
    requires Rests(p, c) && Limited(cfg, p) && Accepts(cfg, all)
    requires Grew(p.(state := STATE_S), q, v)
    requires TokenStep(cfg.maxNesting, c, TStr(v)).Some?
    requires TokenStep(cfg.maxNesting, c, TStr(v)).value.events <= all
    ensures var o := StepByte(cfg, q, QUOTE);
            o.ret == 0 && Limited(cfg, o.p) && Rests(o.p, TokenStep(cfg.maxNesting, c, TStr(v)).value)
  {
    assert [] + v == v;
    StepTakes(cfg, q, QUOTE, 0, C_QUOTE, ACT_SE, Ignore);
    hide StepByte, Transition, BufferPolicy, Classify;
    assert p.log + [] == p.log;
    EmitAccepted(cfg, q, Event(if p.expectingKey then JsonKey else JsonString, v), all);
    hide Emit, Accepts;
  }

  // ---------------------------------------------------------------- numbers

  /** A buffered byte whose action only sets the state and the type. */
  lemma NumberAction(cfg: Config, p: Parser, ch: Byte, c: Class, a: Action)
    requires Ready(p) && Room(cfg, p, 1) && p.utf8Left == 0
    requires Classify(0, ch) == Classified(0, c, 0)
    requires Transition(p.state, c) == a && BufferPolicy(p.state, c) == Append
    requires a == ACT_MX || a == ACT_ZX || a == ACT_IX || a == ACT_DE || a == ACT_DF
    ensures var o := StepByte(cfg, p, ch);
            o.ret == 0 && Grew(p.(state := ActionState(p.state, a), kind := ActionKind(a)), o.p, [ch])
  {
    StepTakes(cfg, p, ch, 0, c, a, Append);
    hide StepByte, Transition, BufferPolicy, Classify;
    PushFits(cfg, p, ch);
    hide BufferPush;
  }

  predicate ReadsDigit(s: State) {
    s == STATE_M0 || s == STATE_I0 || s == STATE_R1 || s == STATE_R2 || s == STATE_X1 || s == STATE_X2 || s == STATE_X3
  }

  function AfterDigit(s: State, ch: Byte): State {
    if s == STATE_M0 then (if ch == 0x30 then STATE_Z0 else STATE_I0)
    else if s == STATE_R1 then STATE_R2
    else if s == STATE_X1 || s == STATE_X2 then STATE_X3
    else s
  }

  lemma DigitStep(cfg: Config, p: Parser, ch: Byte)
    requires ReadsDigit(p.state) && IsDigit(ch) && p.utf8Left == 0 && Room(cfg, p, 1)
    ensures var o := StepByte(cfg, p, ch);
            o.ret == 0 && Grew(p.(state := AfterDigit(p.state, ch)), o.p, [ch])
  {
    AppendStep(cfg, p, ch, 0, CharacterClass(ch), AfterDigit(p.state, ch));
    hide StepByte;
  }

  lemma SignStep(cfg: Config, p: Parser, ch: Byte)
    requires p.state == STATE_X1 && (ch == 0x2b || ch == 0x2d) && p.utf8Left == 0 && Room(cfg, p, 1)
    ensures var o := StepByte(cfg, p, ch);
            o.ret == 0 && Grew(p.(state := STATE_X2), o.p, [ch])
  {
    AppendStep(cfg, p, ch, 0, CharacterClass(ch), STATE_X2);
    hide StepByte;
  }

  lemma MarkEStep(cfg: Config, p: Parser, ch: Byte)
    requires p.utf8Left == 0 && (p.state == STATE_I0 || (p.state == STATE_R2 && p.kind == JsonFloat))
    requires IsMark(ch) && Room(cfg, p, 1)
    ensures var o := StepByte(cfg, p, ch);
            o.ret == 0 && Grew(p.(state := STATE_X1, kind := JsonFloat), o.p, [ch])
  {
    if p.state == STATE_I0 {
      NumberAction(cfg, p, ch, CharacterClass(ch), ACT_DE);
    } else {
      AppendStep(cfg, p, ch, 0, CharacterClass(ch), STATE_X1);
    }
    hide StepByte;
  }

  lemma PointStep(cfg: Config, p: Parser)
    requires p.utf8Left == 0 && (p.state == STATE_Z0 || p.state == STATE_I0) && Room(cfg, p, 1)
    ensures var o := StepByte(cfg, p, 0x2e);
            o.ret == 0 && Grew(p.(state := STATE_R1, kind := JsonFloat), o.p, [0x2e])
  {
    NumberAction(cfg, p, 0x2e, C_DOT, ACT_DF);
    hide StepByte;
  }

  /** The first byte of a number. */
  lemma StartStep(cfg: Config, p: Parser, ch: Byte)
    requires ValueExpected(p.state) && p.utf8Left == 0 && (ch == 0x2d || IsDigit(ch)) && Room(cfg, p, 1)
    ensures var o := StepByte(cfg, p, ch);
            o.ret == 0 && Grew(p.(state := if ch == 0x2d then STATE_M0 else AfterDigit(STATE_M0, ch), kind := JsonInt),
                               o.p, [ch])
  {
    NumberAction(cfg, p, ch, CharacterClass(ch), if ch == 0x2d then ACT_MX else if ch == 0x30 then ACT_ZX else ACT_IX);
    hide StepByte;
  }

  lemma {:induction false} FeedDigits(cfg: Config, p: Parser, ds: Bytes)
    requires ds == [] || p.state == STATE_I0 || p.state == STATE_R2 || p.state == STATE_X3
    requires AreDigits(ds) && Room(cfg, p, |ds|) && p.utf8Left == 0 && Ready(p)
    ensures var o := Feed(cfg, p, ds); o.ret == 0 && Grew(p, o.p, ds)
    decreases ds
  {
    hide StepByte;
    if ds == [] {
      assert p.buffer + [] == p.buffer;
      assert Feed(cfg, p, ds) == Outcome(p, 0);
    } else {
      hide Feed;
      DigitStep(cfg, p, ds[0]);
      var q := StepByte(cfg, p, ds[0]).p;
      FeedDigits(cfg, q, ds[1..]);
      assert [ds[0]] + ds[1..] == ds;
      FeedCons(cfg, p, ds[0], ds[1..]);
      assert p.buffer + [ds[0]] + ds[1..] == p.buffer + ds;
    }
  }

  /** Digits from the first, which may change the state, on. */
  lemma FeedDigitRun(cfg: Config, p: Parser, ds: Bytes)
    requires |ds| > 0 && AreDigits(ds) && ReadsDigit(p.state) && Room(cfg, p, |ds|) && p.utf8Left == 0
    requires p.state == STATE_M0 ==> IsWhole(ds)
    ensures var o := Feed(cfg, p, ds);
            o.ret == 0 && Grew(p.(state := AfterDigit(p.state, ds[0])), o.p, ds)
  {
    hide StepByte, Feed;
    DigitStep(cfg, p, ds[0]);
    var q := StepByte(cfg, p, ds[0]).p;
    FeedDigits(cfg, q, ds[1..]);
    assert [ds[0]] + ds[1..] == ds;
    FeedCons(cfg, p, ds[0], ds[1..]);
    assert p.buffer + [ds[0]] + ds[1..] == p.buffer + ds;
  }

  function WholeState(whole: Bytes): State { if whole == [0x30] then STATE_Z0 else STATE_I0 }

  function SignText(minus: bool): Bytes { if minus then [0x2d] else [] }

  lemma WholeStateIs(whole: Bytes)
    requires IsWhole(whole)
    ensures |whole| > 0 && WholeState(whole) == AfterDigit(STATE_M0, whole[0]) && AreDigits(whole)
  {
  }

  /** The integer part, with the minus sign before it. */
  lemma FeedWhole(cfg: Config, p: Parser, minus: bool, whole: Bytes)
    requires ValueExpected(p.state) && p.utf8Left == 0 && IsWhole(whole)
    requires Room(cfg, p, |SignText(minus) + whole|)
    ensures var o := Feed(cfg, p, SignText(minus) + whole);
            o.ret == 0
            && Grew(p.(state := WholeState(whole), kind := JsonInt), o.p, SignText(minus) + whole)
  {
    hide Feed, StepByte, WholeState, IsWhole;
    if minus {
      FeedNegative(cfg, p, whole);
    } else {
      FeedPositive(cfg, p, whole);
      assert [] + whole == whole;
    }
  }

  lemma FeedNegative(cfg: Config, p: Parser, whole: Bytes)
    requires ValueExpected(p.state) && p.utf8Left == 0 && IsWhole(whole) && Room(cfg, p, 1 + |whole|)
    ensures var o := Feed(cfg, p, [0x2d] + whole);
            o.ret == 0 && Grew(p.(state := WholeState(whole), kind := JsonInt), o.p, [0x2d] + whole)
  {
    hide Feed, StepByte, WholeState, AreDigits;
    WholeStateIs(whole);
    StartStep(cfg, p, 0x2d);
    var q := StepByte(cfg, p, 0x2d).p;
    FeedDigitRun(cfg, q, whole);
    FeedCons(cfg, p, 0x2d, whole);
    assert p.buffer + [0x2d] + whole == p.buffer + ([0x2d] + whole);
  }

  lemma FeedPositive(cfg: Config, p: Parser, whole: Bytes)
    requires ValueExpected(p.state) && p.utf8Left == 0 && IsWhole(whole) && Room(cfg, p, |whole|)
    ensures var o := Feed(cfg, p, whole);
            o.ret == 0 && Grew(p.(state := WholeState(whole), kind := JsonInt), o.p, whole)
  {
    hide Feed, StepByte;
    WholeStateIs(whole);
    var d, ds := whole[0], whole[1..];
    assert [d] + ds == whole;
    FeedUnsigned(cfg, p, d, ds);
  }

  lemma FeedUnsigned(cfg: Config, p: Parser, d: Byte, ds: Bytes)
    requires ValueExpected(p.state) && p.utf8Left == 0 && Room(cfg, p, 1 + |ds|)
    requires IsDigit(d) && AreDigits(ds) && (ds == [] || d != 0x30)
    ensures var o := Feed(cfg, p, [d] + ds);
            o.ret == 0 && Grew(p.(state := AfterDigit(STATE_M0, d), kind := JsonInt), o.p, [d] + ds)
  {
    hide Feed, StepByte, AreDigits;
    StartStep(cfg, p, d);
    var q := StepByte(cfg, p, d).p;
    FeedDigits(cfg, q, ds);
    FeedCons(cfg, p, d, ds);
    assert p.buffer + [d] + ds == p.buffer + ([d] + ds);
  }

  /** The fraction. */
  lemma FeedFrac(cfg: Config, p: Parser, frac: Bytes)
    requires (p.state == STATE_Z0 || p.state == STATE_I0) && p.utf8Left == 0
    requires |frac| > 0 && AreDigits(frac) && Room(cfg, p, 1 + |frac|)
    ensures var o := Feed(cfg, p, [0x2e] + frac);
            o.ret == 0 && Grew(p.(state := STATE_R2, kind := JsonFloat), o.p, [0x2e] + frac)
  {
    hide StepByte, Feed;
    PointStep(cfg, p);
    var q := StepByte(cfg, p, 0x2e).p;
    FeedDigitRun(cfg, q, frac);
    FeedCons(cfg, p, 0x2e, frac);
    assert p.buffer + [0x2e] + frac == p.buffer + ([0x2e] + frac);
  }

  /** The sign and digits of an exponent. */
  lemma FeedPower(cfg: Config, p: Parser, sign: Bytes, power: Bytes)
    requires p.state == STATE_X1 && p.utf8Left == 0
    requires IsSign(sign) && |power| > 0 && AreDigits(power) && Room(cfg, p, |sign| + |power|)
    ensures var o := Feed(cfg, p, sign + power);
            o.ret == 0 && Grew(p.(state := STATE_X3), o.p, sign + power)
  {
    hide Feed, StepByte;
    if sign == [] {
      FeedDigitRun(cfg, p, power);
      assert sign + power == power;
    } else {
      SignStep(cfg, p, sign[0]);
      var q := StepByte(cfg, p, sign[0]).p;
      FeedDigitRun(cfg, q, power);
      FeedCons(cfg, p, sign[0], power);
      assert [sign[0]] + power == sign + power;
      assert p.buffer + [sign[0]] + power == p.buffer + (sign + power);
    }
  }

  function ExponentText(e: Exponent): Bytes { [e.mark] + e.sign + e.power }

  /** The exponent. */
  lemma FeedExp(cfg: Config, p: Parser, e: Exponent)
    requires p.utf8Left == 0 && (p.state == STATE_I0 || (p.state == STATE_R2 && p.kind == JsonFloat))
    requires IsMark(e.mark) && IsSign(e.sign) && |e.power| > 0 && AreDigits(e.power)
    requires Room(cfg, p, |ExponentText(e)|)
    ensures var o := Feed(cfg, p, ExponentText(e));
            o.ret == 0 && Grew(p.(state := STATE_X3, kind := JsonFloat), o.p, ExponentText(e))
  {
    hide StepByte, Feed;
    MarkEStep(cfg, p, e.mark);
    var q := StepByte(cfg, p, e.mark).p;
    FeedPower(cfg, q, e.sign, e.power);
    FeedCons(cfg, p, e.mark, e.sign + e.power);
    assert [e.mark] + (e.sign + e.power) == ExponentText(e);
    assert p.buffer + [e.mark] + (e.sign + e.power) == p.buffer + ExponentText(e);
  }

  lemma FeedNothing(cfg: Config, p: Parser)
    requires Ready(p)
    ensures Feed(cfg, p, []) == Outcome(p, 0)
  {
  }

  function NumberState(n: Number): State {
    if n.exp.Some? then STATE_X3 else if n.frac.Some? then STATE_R2 else WholeState(n.whole)
  }

  /** The integer part and the fraction. */
  lemma FeedMantissa(cfg: Config, p: Parser, minus: bool, whole: Bytes, frac: Option<Bytes>)
    requires ValueExpected(p.state) && p.utf8Left == 0 && IsWhole(whole)
    requires frac.Some? ==> |frac.value| > 0 && AreDigits(frac.value)
    requires Room(cfg, p, |SignText(minus) + whole + FracText(frac)|)
    ensures var o := Feed(cfg, p, SignText(minus) + whole + FracText(frac));
            o.ret == 0
            && Grew(p.(state := if frac.Some? then STATE_R2 else WholeState(whole),
                       kind := if frac.Some? then JsonFloat else JsonInt),
                    o.p, SignText(minus) + whole + FracText(frac))
  {
    hide StepByte, Feed, IsWhole, AreDigits, SignText;
    var a := SignText(minus) + whole;
    var b := FracText(frac);
    FeedWhole(cfg, p, minus, whole);
    var q := Feed(cfg, p, a).p;
    if frac.Some? { FeedFrac(cfg, q, frac.value); } else { FeedNothing(cfg, q); }
    FeedAppend(cfg, p, a, b);
    assert p.buffer + a + b == p.buffer + (a + b);
  }

  function FracText(frac: Option<Bytes>): Bytes { if frac.Some? then [0x2e] + frac.value else [] }

  /** A whole number lexeme. */
  lemma FeedNumber(cfg: Config, p: Parser, n: Number)
    requires ValueExpected(p.state) && p.utf8Left == 0
    requires IsNumber(n) && Room(cfg, p, |NumberText(n)|)
    ensures var o := Feed(cfg, p, NumberText(n));
            o.ret == 0 && Grew(p.(state := NumberState(n), kind := NumberKind(n)), o.p, NumberText(n))
  {
    var a := SignText(n.minus) + n.whole + FracText(n.frac);
    if n.exp.Some? {
      assert NumberText(n) == a + ExponentText(n.exp.value);
      FeedWithExponent(cfg, p, n, a, n.exp.value);
    } else {
      assert NumberText(n) == a;
      hide StepByte, Feed, NumberText, IsWhole, AreDigits, SignText, FracText;
      FeedMantissa(cfg, p, n.minus, n.whole, n.frac);
    }
  }

  lemma FeedWithExponent(cfg: Config, p: Parser, n: Number, a: Bytes, e: Exponent)
    requires ValueExpected(p.state) && p.utf8Left == 0
    requires IsNumber(n) && n.exp == Some(e) && a == SignText(n.minus) + n.whole + FracText(n.frac)
    requires Room(cfg, p, |a + ExponentText(e)|)
    ensures var o := Feed(cfg, p, a + ExponentText(e));
            o.ret == 0 && Grew(p.(state := STATE_X3, kind := JsonFloat), o.p, a + ExponentText(e))
  {
    hide StepByte, Feed, AreDigits, ExponentText, SignText, FracText;
    FeedMantissa(cfg, p, n.minus, n.whole, n.frac);
    var q := Feed(cfg, p, a).p;
    FeedExp(cfg, q, e);
    FeedAppend(cfg, p, a, ExponentText(e));
    assert p.buffer + a + ExponentText(e) == p.buffer + (a + ExponentText(e));
  }

  // ---------------------------------------------------------------- names

  /** The last letter of a name. */
  lemma NameEnds(cfg: Config, p: Parser, ch: Byte, a: Action)
    requires p.utf8Left == 0
    requires (p.state == STATE_T3 && ch == 0x65 && a == ACT_TR) || (p.state == STATE_F4 && ch == 0x65 && a == ACT_FA)
             || (p.state == STATE_N3 && ch == 0x6c && a == ACT_NU)
    ensures StepByte(cfg, p, ch) == Outcome(p.(state := STATE_OK, kind := ActionKind(a)), 0)
  {
    StepTakes(cfg, p, ch, 0, CharacterClass(ch), a, Ignore);
    hide StepByte, Transition, BufferPolicy;
  }

  lemma FeedTwo(cfg: Config, p: Parser, a: Byte, b: Byte, s: State, t: State)
    requires Ready(p) && s != STATE_U2 && s != STATE_U3 && s != STATE_U4
    requires StepByte(cfg, p, a) == Outcome(p.(state := s), 0)
    requires StepByte(cfg, p.(state := s), b) == Outcome(p.(state := t), 0)
    ensures Feed(cfg, p, [a, b]) == Outcome(p.(state := t), 0)
  {
    hide StepByte, Feed;
    FeedCons(cfg, p, a, [b]);
    assert [a] + [b] == [a, b];
    FeedOne(cfg, p.(state := s), b);
  }

  lemma FeedTrue(cfg: Config, p: Parser)
    requires ValueExpected(p.state) && p.utf8Left == 0
    ensures Feed(cfg, p, NameText(JsonTrue)) == Outcome(p.(state := STATE_OK, kind := JsonTrue), 0)
  {
    hide StepByte, Feed;
    SkipStep(cfg, p, 0x74, C_LOW_T, STATE_T1);
    SkipStep(cfg, p.(state := STATE_T1), 0x72, C_LOW_R, STATE_T2);
    SkipStep(cfg, p.(state := STATE_T2), 0x75, C_LOW_U, STATE_T3);
    hide Transition, BufferPolicy;
    FeedTwo(cfg, p, 0x74, 0x72, STATE_T1, STATE_T2);
    NameEnds(cfg, p.(state := STATE_T3), 0x65, ACT_TR);
    FeedSnoc(cfg, p, [0x74, 0x72], 0x75);
    FeedSnoc(cfg, p, [0x74, 0x72] + [0x75], 0x65);
    assert NameText(JsonTrue) == [0x74, 0x72] + [0x75] + [0x65];
  }

  lemma FalseSteps(cfg: Config, p: Parser)
    requires ValueExpected(p.state) && p.utf8Left == 0
    ensures StepByte(cfg, p, 0x66) == Outcome(p.(state := STATE_F1), 0)
    ensures StepByte(cfg, p.(state := STATE_F1), 0x61) == Outcome(p.(state := STATE_F2), 0)
    ensures StepByte(cfg, p.(state := STATE_F2), 0x6c) == Outcome(p.(state := STATE_F3), 0)
    ensures StepByte(cfg, p.(state := STATE_F3), 0x73) == Outcome(p.(state := STATE_F4), 0)
  {
    hide StepByte;
    SkipStep(cfg, p, 0x66, C_LOW_F, STATE_F1);
    SkipStep(cfg, p.(state := STATE_F1), 0x61, C_LOW_A, STATE_F2);
    SkipStep(cfg, p.(state := STATE_F2), 0x6c, C_LOW_L, STATE_F3);
    SkipStep(cfg, p.(state := STATE_F3), 0x73, C_LOW_S, STATE_F4);
  }

  lemma FeedFalse(cfg: Config, p: Parser)
    requires ValueExpected(p.state) && p.utf8Left == 0
    ensures Feed(cfg, p, NameText(JsonFalse)) == Outcome(p.(state := STATE_OK, kind := JsonFalse), 0)
  {
    hide StepByte, Feed, Transition, BufferPolicy, Classify;
    FalseSteps(cfg, p);
    FeedTwo(cfg, p, 0x66, 0x61, STATE_F1, STATE_F2);
    NameEnds(cfg, p.(state := STATE_F4), 0x65, ACT_FA);
    FeedSnoc(cfg, p, [0x66, 0x61], 0x6c);
    FeedSnoc(cfg, p, [0x66, 0x61] + [0x6c], 0x73);
    FeedSnoc(cfg, p, [0x66, 0x61] + [0x6c] + [0x73], 0x65);
    assert NameText(JsonFalse) == [0x66, 0x61] + [0x6c] + [0x73] + [0x65];
  }

  lemma FeedNull(cfg: Config, p: Parser)
    requires ValueExpected(p.state) && p.utf8Left == 0
    ensures Feed(cfg, p, NameText(JsonNull)) == Outcome(p.(state := STATE_OK, kind := JsonNull), 0)
  {
    hide StepByte, Feed;
    SkipStep(cfg, p, 0x6e, C_LOW_N, STATE_N1);
    SkipStep(cfg, p.(state := STATE_N1), 0x75, C_LOW_U, STATE_N2);
    SkipStep(cfg, p.(state := STATE_N2), 0x6c, C_LOW_L, STATE_N3);
    hide Transition, BufferPolicy;
    FeedTwo(cfg, p, 0x6e, 0x75, STATE_N1, STATE_N2);
    NameEnds(cfg, p.(state := STATE_N3), 0x6c, ACT_NU);
    FeedSnoc(cfg, p, [0x6e, 0x75], 0x6c);
    FeedSnoc(cfg, p, [0x6e, 0x75] + [0x6c], 0x6c);
    assert NameText(JsonNull) == [0x6e, 0x75] + [0x6c] + [0x6c];
  }

  lemma FeedName(cfg: Config, p: Parser, kind: JsonType)
    requires ValueExpected(p.state) && p.utf8Left == 0 && IsName(kind)
    ensures Feed(cfg, p, NameText(kind)) == Outcome(p.(state := STATE_OK, kind := kind), 0)
  {
    hide StepByte, Feed, NameText;
    match kind
    case JsonTrue => FeedTrue(cfg, p);
    case JsonFalse => FeedFalse(cfg, p);
    case JsonNull => FeedNull(cfg, p);
  }

  // ---------------------------------------------------------------- comments

  function Resume(s: State): State { if IsStructural(s) then s else STATE_OK }

  lemma ConcatSnoc(groups: seq<Bytes>, g: Bytes)
    ensures Concat(groups + [g]) == Concat(groups) + g
  {
    assert (groups + [g])[..|groups|] == groups;
  }

  predicate CommentMark(s: State, ch: Byte) { (s == STATE_C3 && ch == SLASH) || (s == STATE_Y1 && ch == NEWLINE) }

  lemma CommentEnds(cfg: Config, p: Parser, ch: Byte)
    requires p.utf8Left == 0 && p.kind == JsonNone && CommentMark(p.state, ch)
    ensures StepByte(cfg, p, ch) == Outcome(p.(state := Resume(p.saveState)), 0)
  {
    hide StepByte;
    StepTakes(cfg, p, ch, 0, CharacterClass(ch), ACT_CE, Ignore);
  }

  function CommentState(s: State, ch: Byte): State {
    if s == STATE_Y1 then STATE_Y1 else if ch == STAR then STATE_C3 else STATE_C2
  }

  /** A byte inside a comment. */
  lemma CommentByteStep(cfg: Config, p: Parser, ch: Byte, left: nat, c: Class)
    requires p.state == STATE_C2 || p.state == STATE_C3 || p.state == STATE_Y1
    requires Classify(p.utf8Left, ch) == Classified(left, c, 0)
    requires !(p.utf8Left == 0 && CommentMark(p.state, ch))
    ensures StepByte(cfg, p, ch)
            == Outcome(p.(state := CommentState(p.state, if p.utf8Left > 0 then 0x80 else ch), utf8Left := left), 0)
  {
    hide StepByte;
    var t := CommentState(p.state, if p.utf8Left > 0 then 0x80 else ch);
    StepTakes(cfg, p, ch, left, c, t, Ignore);
  }

  lemma {:induction false} FeedCommentTail(cfg: Config, p: Parser, rest: Bytes)
    requires p.state == STATE_C2 || p.state == STATE_Y1
    requires p.utf8Left == |rest| && forall i :: 0 <= i < |rest| ==> IsContinuation(rest[i])
    ensures Feed(cfg, p, rest) == Outcome(p.(utf8Left := 0), 0)
    decreases rest
  {
    hide StepByte;
    if rest != [] {
      CommentByteStep(cfg, p, rest[0], |rest| - 1, C_OTHER);
      FeedCommentTail(cfg, p.(utf8Left := |rest| - 1), rest[1..]);
    }
  }

  /** A whole character inside a comment. */
  lemma FeedCommentGroup(cfg: Config, p: Parser, g: Bytes)
    requires p.state == STATE_C2 || p.state == STATE_C3 || p.state == STATE_Y1
    requires p.utf8Left == 0 && IsPlainGroup(g) && !CommentMark(p.state, g[0])
    ensures Feed(cfg, p, g) == Outcome(p.(state := CommentState(p.state, g[0])), 0)
  {
    hide StepByte;
    var header := Utf8Header(g[0]);
    var c := if header > 0 then C_OTHER else CharacterClass(g[0]);
    CommentByteStep(cfg, p, g[0], header, c);
    hide Feed, CharacterClass;
    var q := p.(state := CommentState(p.state, g[0]), utf8Left := header);
    FeedCons(cfg, p, g[0], g[1..]);
    assert [g[0]] + g[1..] == g;
    if header > 0 {
      FeedCommentTail(cfg, q, g[1..]);
    } else {
      FeedNothing(cfg, q);
      assert g[1..] == [];
    }
  }

  function BodyState(body: seq<Bytes>): State {
    if body != [] && body[|body| - 1] == [STAR] then STATE_C3 else STATE_C2
  }

  lemma {:induction false} FeedBlockBody(cfg: Config, p: Parser, body: seq<Bytes>)
    requires p.state == STATE_C2 && p.utf8Left == 0 && IsBlockBody(body)
    ensures Feed(cfg, p, Concat(body)) == Outcome(p.(state := BodyState(body)), 0)
    decreases body
  {
    hide StepByte;
    if body == [] {
      FeedNothing(cfg, p);
    } else {
      hide Feed;
      var n := |body| - 1;
      var g := body[n];
      FeedBlockBody(cfg, p, body[..n]);
      var q := p.(state := BodyState(body[..n]));
      assert q.state == STATE_C3 ==> body[n - 1] == [STAR];
      MarkIsAlone(g, SLASH);
      MarkIsAlone(g, STAR);
      FeedCommentGroup(cfg, q, g);
      FeedAppend(cfg, p, Concat(body[..n]), g);
    }
  }

  /** A character that begins with an ASCII byte is that byte. */
  lemma MarkIsAlone(g: Bytes, b: Byte)
    requires IsPlainGroup(g) && b < 0x80
    ensures g[0] == b <==> g == [b]
  {
  }

  lemma {:induction false} FeedLineBody(cfg: Config, p: Parser, body: seq<Bytes>)
    requires p.state == STATE_Y1 && p.utf8Left == 0 && IsLineBody(body)
    ensures Feed(cfg, p, Concat(body)) == Outcome(p, 0)
    decreases body
  {
    hide StepByte;
    if body == [] {
      FeedNothing(cfg, p);
    } else {
      hide Feed;
      var n := |body| - 1;
      FeedLineBody(cfg, p, body[..n]);
      MarkIsAlone(body[n], NEWLINE);
      FeedCommentGroup(cfg, p, body[n]);
      FeedAppend(cfg, p, Concat(body[..n]), body[n]);
    }
  }

  /** A comment begins: what is pending is told, and the state is kept for later. */
  lemma CommentBegins(cfg: Config, p: Parser, c: Control, ch: Byte, all: seq<Event>)
    requires Between(p, c) && p.state != STATE_X3 && Accepts(cfg, all) && c.events <= all
    requires (ch == SLASH && cfg.allowCComments) || (ch == HASH && cfg.allowYamlComments)
    ensures var o := StepByte(cfg, p, ch); var t := if ch == SLASH then STATE_C1 else STATE_Y1;
            o == Outcome(p.(log := c.events, buffer := [], saveState := p.state, state := t, kind := JsonNone), 0)
  {
    hide StepByte;
    StepTakes(cfg, p, ch, 0, CharacterClass(ch), if ch == SLASH then ACT_CB else ACT_YB, Ignore);
    hide Transition, BufferPolicy, Classify, CharacterClass;
    FlushAccepted(cfg, p, all);
    hide DoBuffer;
  }

  lemma Resumes(p: Parser, c: Control)
    requires Between(p, c)
    ensures Rests(p.(log := c.events, buffer := [], saveState := p.state, kind := JsonNone,
            state := Resume(p.state)), c)
  {
    assert c.events + [] == c.events;
  }

  lemma ReadBlockComment(cfg: Config, p: Parser, c: Control, body: seq<Bytes>, all: seq<Event>)
    requires Between(p, c) && p.state != STATE_X3 && Accepts(cfg, all) && c.events <= all
    requires cfg.allowCComments && IsBlockBody(body)
    ensures var o := Feed(cfg, p, LexemeText(BlockComment(body)));
            o.ret == 0 && Rests(o.p, c) && o.p.stackSize == p.stackSize
  {
    hide StepByte, Feed, IsBlockBody, Concat;
    CommentBegins(cfg, p, c, SLASH, all);
    Resumes(p, c);
    assert p.utf8Left == 0;
    hide Between, Rests;
    var p1 := StepByte(cfg, p, SLASH).p;
    SkipStep(cfg, p1, STAR, C_STAR, STATE_C2);
    var p2 := p1.(state := STATE_C2);
    FeedCons(cfg, p, SLASH, [STAR]);
    assert [SLASH] + [STAR] == [SLASH, STAR];
    FeedOne(cfg, p1, STAR);
    FeedBlockBody(cfg, p2, body);
    var p3 := p2.(state := BodyState(body));
    CommentByteStep(cfg, p3, STAR, 0, C_STAR);
    var p4 := p3.(state := STATE_C3);
    CommentEnds(cfg, p4, SLASH);
    FeedAppend(cfg, p, [SLASH, STAR], Concat(body));
    FeedSnoc(cfg, p, [SLASH, STAR] + Concat(body), STAR);
    FeedSnoc(cfg, p, [SLASH, STAR] + Concat(body) + [STAR], SLASH);
    assert [SLASH, STAR] + Concat(body) + [STAR] + [SLASH] == LexemeText(BlockComment(body));
  }

  lemma ReadLineComment(cfg: Config, p: Parser, c: Control, body: seq<Bytes>, all: seq<Event>)
    requires Between(p, c) && p.state != STATE_X3 && Accepts(cfg, all) && c.events <= all
    requires cfg.allowYamlComments && IsLineBody(body)
    ensures var o := Feed(cfg, p, LexemeText(LineComment(body)));
            o.ret == 0 && Rests(o.p, c) && o.p.stackSize == p.stackSize
  {
    hide StepByte, Feed, IsLineBody, Concat;
    CommentBegins(cfg, p, c, HASH, all);
    Resumes(p, c);
    assert p.utf8Left == 0;
    hide Between, Rests;
    var p1 := StepByte(cfg, p, HASH).p;
    FeedLineBody(cfg, p1, body);
    CommentEnds(cfg, p1, NEWLINE);
    FeedCons(cfg, p, HASH, Concat(body));
    FeedSnoc(cfg, p, [HASH] + Concat(body), NEWLINE);
  }

  // ---------------------------------------------------------------- any lexeme

  predicate Fits(cfg: Config, l: Lexeme)
    requires IsLexeme(l)
  {
    cfg.maxData == 0 || Width(l) < cfg.maxData
  }

  lemma PunctStep(cfg: Config, p: Parser, c: Control, ch: Byte, all: seq<Event>)
    requires Rests(p, c) && Limited(cfg, p) && Accepts(cfg, all) && IsStructuralChar(ch)
    requires TokenStep(cfg.maxNesting, c, TPunct(ch)).Some?
    requires TokenStep(cfg.maxNesting, c, TPunct(ch)).value.events <= all
    ensures var o := StepByte(cfg, p, ch);
            o.ret == 0 && Rests(o.p, TokenStep(cfg.maxNesting, c, TPunct(ch)).value) && Limited(cfg, o.p)
  {
    if ch == LCURB || ch == LSQRB {
      OpenStep(cfg, p, c, ch, all);
    } else if ch == RCURB || ch == RSQRB {
      CloseStep(cfg, p, c, ch, all);
    } else {
      MarkStep(cfg, p, c, ch, all);
    }
    hide StepByte;
  }

  /** What the token machine makes of a lexeme. */
  function LexemeStep(limit: nat, c: Control, l: Lexeme): Option<Control>
    requires IsLexeme(l)
  {
    TokenRun(limit, c, Meaning(l))
  }

  lemma LexemeStepIs(limit: nat, c: Control, l: Lexeme)
    requires IsLexeme(l)
    ensures LexemeStep(limit, c, l) == if Meaning(l) == [] then Some(c) else TokenStep(limit, c, Meaning(l)[0])
  {
    hide TokenStep;
    if Meaning(l) != [] {
      assert Meaning(l) == [Meaning(l)[0]];
      TokenRunOne(limit, c, Meaning(l)[0]);
    }
  }

  /** White space and structural characters, from a state at rest or at the end of a number. */
  lemma ReadOneByte(cfg: Config, p: Parser, c: Control, l: Lexeme, all: seq<Event>)
    requires Between(p, c) && Limited(cfg, p) && Accepts(cfg, all)
    requires l.Space? || l.Punct?
    requires IsLexeme(l) && LexemeStep(cfg.maxNesting, c, l).Some?
    requires LexemeStep(cfg.maxNesting, c, l).value.events <= all
    ensures var o := Feed(cfg, p, LexemeText(l));
            o.ret == 0 && Rests(o.p, LexemeStep(cfg.maxNesting, c, l).value) && Limited(cfg, o.p)
  {
    LexemeStepIs(cfg.maxNesting, c, l);
    var q := if Rests(p, c) then p else p.(state := STATE_OK);
    assert Rests(q, c);
    if l.Space? {
      SpaceStep(cfg, q, c, l.ch);
    } else {
      PunctStep(cfg, q, c, l.ch, all);
    }
    hide StepByte, Feed, LexemeStep;
    FeedOne(cfg, p, l.ch);
    if !Rests(p, c) {
      assert IsDelimiter(l.ch);
      NumberEndsLike(cfg, p, l.ch);
    }
  }

  lemma ReadNumber(cfg: Config, p: Parser, c: Control, n: Number)
    requires Rests(p, c) && ValueExpected(c.state)
    requires IsNumber(n) && (cfg.maxData == 0 || |NumberText(n)| < cfg.maxData)
    ensures var o := Feed(cfg, p, NumberText(n));
            o.ret == 0 && o.p.stackSize == p.stackSize && o.p.state == NumberState(n)
            && Between(o.p, WithValue(c, [Event(NumberKind(n), NumberText(n))]))
  {
    hide StepByte, Feed, NumberText;
    FeedNumber(cfg, p, n);
    hide IsNumber;
    assert p.log + [] == p.log;
    assert [] + NumberText(n) == NumberText(n);
  }

  lemma ReadName(cfg: Config, p: Parser, c: Control, kind: JsonType)
    requires Rests(p, c) && ValueExpected(c.state) && IsName(kind)
    ensures var o := Feed(cfg, p, NameText(kind));
            o.ret == 0 && o.p.stackSize == p.stackSize && o.p.state == STATE_OK
            && Between(o.p, WithValue(c, [Event(kind, [])]))
  {
    hide StepByte, Feed, NameText;
    FeedName(cfg, p, kind);
    assert p.log + [] == p.log;
  }

  /** Strings, numbers and names. */
  lemma ReadWord(cfg: Config, p: Parser, c: Control, l: Lexeme, all: seq<Event>)
    requires Rests(p, c) && Limited(cfg, p) && Accepts(cfg, all)
    requires l.StrLex? || l.NumLex? || l.NameLex?
    requires IsLexeme(l) && Fits(cfg, l) && LexemeStep(cfg.maxNesting, c, l).Some?
    requires LexemeStep(cfg.maxNesting, c, l).value.events <= all
    ensures var o := Feed(cfg, p, LexemeText(l));
            && o.ret == 0 && Between(o.p, LexemeStep(cfg.maxNesting, c, l).value) && Limited(cfg, o.p)
            && (o.p.state == STATE_X3 ==> l.NumLex? && l.number.exp.Some?)
  {
    WordSteps(cfg.maxNesting, c, l);
    hide StepByte, Feed, LexemeStep, NumberText, NameText, UnitsText, IsNumber, TokenStep;
    match l
    case StrLex(us) =>
      assert p.buffer == [];
      FeedString(cfg, p, c, us, all);
      hide TokenStep;
    case NumLex(n) =>
      ReadNumber(cfg, p, c, n);
      hide Rests, Between;
    case NameLex(k) =>
      ReadName(cfg, p, c, k);
      hide Rests, Between;
  }

  lemma WordSteps(limit: nat, c: Control, l: Lexeme)
    requires (l.StrLex? || l.NumLex? || l.NameLex?) && IsLexeme(l) && LexemeStep(limit, c, l).Some?
    ensures l.StrLex? ==> LexemeStep(limit, c, l) == TokenStep(limit, c, TStr(UnitsValue(l.units)))
    ensures l.NumLex? ==>
              ValueExpected(c.state)
              && LexemeStep(limit, c, l).value == WithValue(c, [Event(NumberKind(l.number), NumberText(l.number))])
    ensures l.NameLex? ==>
              ValueExpected(c.state) && LexemeStep(limit, c, l).value == WithValue(c, [Event(l.kind, [])])
  {
    LexemeStepIs(limit, c, l);
    hide LexemeStep, NumberText, UnitsValue;
  }

  /** The configuration lets this lexeme stand. */
  predicate Allowed(cfg: Config, l: Lexeme) {
    (l.BlockComment? ==> cfg.allowCComments) && (l.LineComment? ==> cfg.allowYamlComments)
  }

  lemma ReadLexeme(cfg: Config, p: Parser, c: Control, l: Lexeme, all: seq<Event>)
    requires Between(p, c) && Limited(cfg, p) && Accepts(cfg, all)
    requires IsLexeme(l) && Fits(cfg, l) && Allowed(cfg, l) && LexemeStep(cfg.maxNesting, c, l).Some?
    requires IsComment(l) ==> p.state != STATE_X3
    requires LexemeStep(cfg.maxNesting, c, l).value.events <= all
    ensures var o := Feed(cfg, p, LexemeText(l));
            && o.ret == 0 && Between(o.p, LexemeStep(cfg.maxNesting, c, l).value) && Limited(cfg, o.p)
            && (o.p.state == STATE_X3 ==> l.NumLex? && l.number.exp.Some?)
  {
    if l.Space? || l.Punct? {
      hide Feed, StepByte, LexemeText;
      ReadOneByte(cfg, p, c, l, all);
    } else if IsComment(l) {
      LexemeStepIs(cfg.maxNesting, c, l);
      hide Feed, StepByte, LexemeText, LexemeStep;
      if l.BlockComment? { ReadBlockComment(cfg, p, c, l.body, all); } else { ReadLineComment(cfg, p, c, l.body, all); }
    } else {
      LexemeStepIs(cfg.maxNesting, c, l);
      hide Feed, StepByte, LexemeText, LexemeStep;
      ReadWord(cfg, p, c, l, all);
    }
  }

  // ---------------------------------------------------------------- any text

  predicate AllFit(cfg: Config, ls: seq<Lexeme>)
    requires AreLexemes(ls)
  {
    forall i :: 0 <= i < |ls| ==> Fits(cfg, ls[i])
  }

  predicate AllAllowed(cfg: Config, ls: seq<Lexeme>) {
    forall i :: 0 <= i < |ls| ==> Allowed(cfg, ls[i])
  }

  /** The token machine's events only grow. */
  lemma EventsGrow(limit: nat, c: Control, t: Token)
    requires TokenStep(limit, c, t).Some?
    ensures c.events <= TokenStep(limit, c, t).value.events
  {
  }

  lemma {:induction false} ReadLexemes(cfg: Config, ls: seq<Lexeme>, all: seq<Event>)
    requires AreLexemes(ls) && AllFit(cfg, ls) && Accepts(cfg, all)
    requires AllAllowed(cfg, ls) && CommentsPlaced(ls)
    requires TokenRun(cfg.maxNesting, START, Meanings(ls)).Some?
    requires TokenRun(cfg.maxNesting, START, Meanings(ls)).value.events <= all
    ensures var o := Feed(cfg, Init(cfg), Text(ls));
            o.ret == 0 && Limited(cfg, o.p)
            && Between(o.p, TokenRun(cfg.maxNesting, START, Meanings(ls)).value)
            && (o.p.state == STATE_X3 ==> EndsInExponent(ls))
  {
    if ls == [] {
      FeedNothing(cfg, Init(cfg));
      StartsAtRest(cfg);
    } else {
      hide StepByte, Feed, LexemeText, TokenStep, TokenRun, Between, IsLexeme, Fits, Allowed;
      var n := |ls| - 1;
      var l := ls[n];
      TokenRunAppend(cfg.maxNesting, START, Meanings(ls[..n]), Meaning(l));
      var c := TokenRun(cfg.maxNesting, START, Meanings(ls[..n])).value;
      assert LexemeStep(cfg.maxNesting, c, l) == TokenRun(cfg.maxNesting, START, Meanings(ls));
      LexemeStepIs(cfg.maxNesting, c, l);
      if Meaning(l) != [] { EventsGrow(cfg.maxNesting, c, Meaning(l)[0]); }
      PlacedPrefix(ls, n);
      ReadLexemes(cfg, ls[..n], all);
      var q := Feed(cfg, Init(cfg), Text(ls[..n])).p;
      ReadLexeme(cfg, q, c, l, all);
      FeedAppend(cfg, Init(cfg), Text(ls[..n]), LexemeText(l));
    }
  }

  lemma PlacedPrefix(ls: seq<Lexeme>, n: nat)
    requires CommentsPlaced(ls) && n < |ls|
    ensures CommentsPlaced(ls[..n]) && (IsComment(ls[n]) ==> !EndsInExponent(ls[..n]))
  {
    hide IsComment, EndsInExponent;
    forall i | 0 <= i < n && IsComment(ls[i])
      ensures !EndsInExponent(ls[..n][..i])
    {
      assert ls[..n][..i] == ls[..i];
    }
  }

  lemma StartsAtRest(cfg: Config)
    ensures Between(Init(cfg), START) && Limited(cfg, Init(cfg))
  {
  }

  /** A document has been read, and the parser is not inside a comment. */
  predicate AtEnd(p: Parser) { IsDone(p) && p.state == STATE_OK }

  /** `ls` spells the document `t` as `bytes`, in a way and within limits that the configuration admits. */
  ghost predicate Admits(cfg: Config, ls: seq<Lexeme>, bytes: Bytes, t: Tree) {
    && Spells(ls, bytes, t) && AllFit(cfg, ls) && AllAllowed(cfg, ls) && CommentsPlaced(ls)
    && IsContainer(t) && Within(cfg.maxNesting, Depth(t))
  }

  /**
    Completeness: every admitted spelling of an object or array, with a callback
    that accepts the document's events, returns 0, ends done, and has told
    exactly those events.
   */
  lemma AcceptsSpelling(cfg: Config, ls: seq<Lexeme>, bytes: Bytes, t: Tree)
    requires Admits(cfg, ls, bytes, t) && Accepts(cfg, Events(t))
    ensures var o := Feed(cfg, Init(cfg), bytes);
            o.ret == 0 && AtEnd(o.p) && o.p.log == Events(t)
  {
    AcceptsEveryDocument(cfg.maxNesting, t);
    ReadLexemes(cfg, ls, Events(t));
    hide Feed, StepByte;
    var p := Feed(cfg, Init(cfg), bytes).p;
    assert Rests(p, Finished(t));
    assert p.log + [] == p.log;
  }
}
