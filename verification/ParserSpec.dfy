/**
  The streaming parser as a function of its state: what one byte does, and what
  a chunk of bytes does. The class `JsonParser` is proved equal to these
  functions, and the language results are proved about them.

  `log` is everything the callback has been told so far. The callback itself is
  a parameter: a function from what it was told before and the event it is told
  now to the code it returns.
 */
module ParserSpec {
  import opened JsonTables

  datatype Config = Config(
    bufferInitialSize: nat,
    maxNesting: nat,
    maxData: nat,
    allowCComments: bool,
    allowYamlComments: bool,
    callback: (seq<Event>, Event) -> int)

  const DEFAULT_STACK_SIZE: nat := 256
  const DEFAULT_BUFFER_SIZE: nat := 4096

  datatype Parser = Parser(
    state: State,
    saveState: State,
    expectingKey: bool,
    utf8Left: nat,
    unicodeMulti: nat,
    kind: JsonType,
    stack: seq<Mode>,
    stackSize: nat,
    buffer: Bytes,
    bufferSize: nat,
    log: seq<Event>)

  /** A parser state together with the code a C function returns. */
  datatype Outcome = Outcome(p: Parser, ret: int)

  function InitialBufferSize(cfg: Config): nat {
    var size := if cfg.bufferInitialSize > 0 then cfg.bufferInitialSize else DEFAULT_BUFFER_SIZE;
    if cfg.maxData > 0 && size > cfg.maxData then cfg.maxData else size
  }

  function Init(cfg: Config): Parser {
    Parser(STATE_GO, STATE_GO, false, 0, 0, JsonNone,
           [], if cfg.maxNesting > 0 then cfg.maxNesting else DEFAULT_STACK_SIZE,
           [], InitialBufferSize(cfg), [])
  }

  predicate IsDone(p: Parser) {
    p.stack == [] && p.state != STATE_GO
  }

  // ---------------------------------------------------------------- stack and buffer

  function StatePush(cfg: Config, p: Parser, mode: Mode): Outcome {
    if |p.stack| < p.stackSize then Outcome(p.(stack := p.stack + [mode]), 0)
    else if cfg.maxNesting != 0 then Outcome(p, ERROR_NESTING_LIMIT)
    else Outcome(p.(stack := p.stack + [mode], stackSize := p.stackSize * 2), 0)
  }

  function StatePop(p: Parser, mode: Mode): Outcome {
    if p.stack == [] then Outcome(p, ERROR_POP_EMPTY)
    else
      var top := p.stack[|p.stack| - 1];
      var q := p.(stack := p.stack[..|p.stack| - 1]);
      Outcome(q, if top != mode then ERROR_POP_UNEXPECTED_MODE else 0)
  }

  function GrownSize(cfg: Config, size: nat): nat {
    if cfg.maxData > 0 && size * 2 > cfg.maxData then cfg.maxData else size * 2
  }

  function BufferPush(cfg: Config, p: Parser, c: Byte): Outcome {
    if |p.buffer| + 1 < p.bufferSize then Outcome(p.(buffer := p.buffer + [c]), 0)
    else if cfg.maxData > 0 && p.bufferSize == cfg.maxData then Outcome(p, ERROR_DATA_LIMIT)
    else Outcome(p.(buffer := p.buffer + [c], bufferSize := GrownSize(cfg, p.bufferSize)), 0)
  }

  function EscapeValue(letter: Byte): Byte {
    if letter == 0x62 then 0x08
    else if letter == 0x66 then 0x0c
    else if letter == 0x6e then 0x0a
    else if letter == 0x72 then 0x0d
    else if letter == 0x74 then 0x09
    else if letter == 0x22 || letter == 0x2f || letter == 0x5c then letter
    else 0
  }

  // ---------------------------------------------------------------- callbacks

  function Emit(cfg: Config, p: Parser, ev: Event): Outcome {
    Outcome(p.(log := p.log + [ev]), cfg.callback(p.log, ev))
  }

  predicate IsDelayed(kind: JsonType) {
    kind.JsonKey? || kind.JsonString? || kind.JsonFloat? || kind.JsonInt?
    || kind.JsonNull? || kind.JsonTrue? || kind.JsonFalse?
  }

  function DoBuffer(cfg: Config, p: Parser): Outcome {
    if IsDelayed(p.kind) then
      var o := Emit(cfg, p, Event(p.kind, p.buffer));
      if o.ret != 0 then o else Outcome(o.p.(buffer := []), 0)
    else Outcome(p.(buffer := []), 0)
  }

  // ---------------------------------------------------------------- unicode escapes

  predicate IsHighSurrogate(u: nat) { 0xd800 <= u < 0xdc00 }
  predicate IsLowSurrogate(u: nat) { 0xdc00 <= u < 0xe000 }

  predicate AllHex(s: Bytes) {
    forall i :: 0 <= i < |s| ==> IsHexDigit(s[i])
  }

  function HexQuad(h: Bytes): (u: nat)
    requires |h| == 4 && AllHex(h)
    ensures u < 0x10000
  {
    HexValue(h[0]) * 0x1000 + HexValue(h[1]) * 0x100 + HexValue(h[2]) * 0x10 + HexValue(h[3])
  }

  /** The value a surrogate pair stands for. */
  function PairValue(high: nat, low: nat): nat {
    0x10000 + (high % 0x400) * 0x400 + low % 0x400
  }

  /** The bytes `decode_unicode_char` writes for a pair. */
  function FourBytes(u: nat): Bytes
    requires u < 0x110000
  {
    [u / 0x40000 + 0xf0, u / 0x1000 % 0x40 + 0x80, u / 0x40 % 0x40 + 0x80, u % 0x40 + 0x80]
  }

  /** The bytes `decode_unicode_char` writes for a single unit. */
  function UpToThreeBytes(u: nat): Bytes
    requires u < 0x10000
  {
    if u < 0x80 then [u]
    else if u < 0x800 then [u / 0x40 + 0xc0, u % 0x40 + 0x80]
    else [u / 0x1000 + 0xe0, u / 0x40 % 0x40 + 0x80, u % 0x40 + 0x80]
  }

  predicate EndsInHex(b: Bytes, n: nat) {
    n <= |b| && AllHex(b[|b| - n..])
  }

  function DecodeUnicode(p: Parser): Outcome
    requires EndsInHex(p.buffer, 4)
  {
    var at := |p.buffer| - 4;
    var u := HexQuad(p.buffer[at..]);
    var rest := p.buffer[..at];
    if p.unicodeMulti != 0 then
      if !IsLowSurrogate(u) then Outcome(p.(buffer := rest), ERROR_MISSING_LOW_SURROGATE)
      else Outcome(p.(buffer := rest + FourBytes(PairValue(p.unicodeMulti, u)), unicodeMulti := 0), 0)
    else if IsLowSurrogate(u) then Outcome(p.(buffer := rest), ERROR_UNEXPECTED_LOW_SURROGATE)
    else if IsHighSurrogate(u) then Outcome(p.(buffer := rest, unicodeMulti := u), 0)
    else Outcome(p.(buffer := rest + UpToThreeBytes(u)), 0)
  }

  // ---------------------------------------------------------------- actions

  /** The function an action calls (`act_*`). */
  function Act(cfg: Config, p: Parser, a: Action): Outcome
    requires a == ACT_UC ==> EndsInHex(p.buffer, 4)
  {
    match a
    case ACT_OB =>
      var o := Emit(cfg, p, Event(JsonObjectBegin, []));
      if o.ret != 0 then o else
      var o2 := StatePush(cfg, o.p, ModeObject);
      if o2.ret != 0 then o2 else Outcome(o2.p.(expectingKey := true), 0)
    case ACT_AB =>
      var o := Emit(cfg, p, Event(JsonArrayBegin, []));
      if o.ret != 0 then o else StatePush(cfg, o.p, ModeArray)
    case ACT_OE =>
      var o := StatePop(p, ModeObject);
      if o.ret != 0 then o else
      var o2 := Emit(cfg, o.p, Event(JsonObjectEnd, []));
      if o2.ret != 0 then o2 else Outcome(o2.p.(expectingKey := false), 0)
    case ACT_AE =>
      var o := StatePop(p, ModeArray);
      if o.ret != 0 then o else Emit(cfg, o.p, Event(JsonArrayEnd, []))
    case ACT_SE =>
      var o := Emit(cfg, p, Event(if p.expectingKey then JsonKey else JsonString, p.buffer));
      if o.ret != 0 then o else
      Outcome(o.p.(buffer := [], state := if p.expectingKey then STATE_CO else STATE_OK, expectingKey := false), 0)
    case ACT_SP =>
      if p.stack == [] then Outcome(p, ERROR_COMMA_OUT_OF_STRUCTURE)
      else if p.stack[|p.stack| - 1] == ModeObject then Outcome(p.(expectingKey := true, state := STATE_K), 0)
      else Outcome(p.(state := STATE_V), 0)
    case ACT_CB =>
      if !cfg.allowCComments then Outcome(p, ERROR_COMMENT_NOT_ALLOWED)
      else Outcome(p.(saveState := p.state), 0)
    case ACT_YB =>
      if !cfg.allowYamlComments then Outcome(p, ERROR_COMMENT_NOT_ALLOWED)
      else Outcome(p.(saveState := p.state), 0)
    case ACT_CE =>
      Outcome(p.(state := if IsStructural(p.saveState) then p.saveState else STATE_OK), 0)
    case ACT_UC =>
      var o := DecodeUnicode(p);
      if o.ret != 0 then o else
      Outcome(o.p.(state := if o.p.unicodeMulti != 0 then STATE_D1 else STATE_S), 0)
    case _ => Outcome(p, 0)
  }

  /** Column `dobuffer` of `actions_map`. */
  predicate FlushesBuffer(a: Action) {
    a == ACT_SP || a == ACT_AE || a == ACT_OE || a == ACT_CB || a == ACT_YB
  }

  /** Column `state` of `actions_map`: the current state where the table holds 0. */
  function ActionState(s: State, a: Action): State {
    match a
    case ACT_KS => STATE_V
    case ACT_AB => STATE_A
    case ACT_OB => STATE_O
    case ACT_AE | ACT_OE | ACT_FA | ACT_TR | ACT_NU => STATE_OK
    case ACT_CB => STATE_C1
    case ACT_YB => STATE_Y1
    case ACT_DE => STATE_X1
    case ACT_DF => STATE_R1
    case ACT_MX => STATE_M0
    case ACT_ZX => STATE_Z0
    case ACT_IX => STATE_I0
    case ACT_SP | ACT_CE | ACT_SE | ACT_UC => s
  }

  /** Column `type` of `actions_map`. */
  function ActionKind(a: Action): JsonType {
    match a
    case ACT_FA => JsonFalse
    case ACT_TR => JsonTrue
    case ACT_NU => JsonNull
    case ACT_DE | ACT_DF => JsonFloat
    case ACT_MX | ACT_ZX | ACT_IX => JsonInt
    case _ => JsonNone
  }

  function DoAction(cfg: Config, p: Parser, a: Action): (o: Outcome)
    requires a == ACT_UC ==> EndsInHex(p.buffer, 4)
    ensures o.ret == 0 ==> o.p.state != STATE_U2 && o.p.state != STATE_U3 && o.p.state != STATE_U4
  {
    var flushed := if FlushesBuffer(a) then DoBuffer(cfg, p) else Outcome(p, 0);
    if flushed.ret != 0 then flushed else
    var o := Act(cfg, flushed.p, a);
    if o.ret != 0 then o else
    Outcome(o.p.(state := ActionState(o.p.state, a), kind := ActionKind(a)), 0)
  }

  // ---------------------------------------------------------------- one byte

  /** What the UTF-8 check makes of a byte: its class, or an error, and the bytes left to come. */
  datatype Classified = Classified(left: nat, cls: Class, ret: int)

  function Classify(left: nat, ch: Byte): Classified {
    if left > 0 then
      if !IsContinuation(ch) then Classified(left, C_ERROR, ERROR_UTF8)
      else Classified(left - 1, C_OTHER, 0)
    else
      var header := Utf8Header(ch);
      if header == 0xff then Classified(0xff, C_ERROR, ERROR_UTF8)
      else
        var cls := if header > 0 then C_OTHER else CharacterClass(ch);
        Classified(header, cls, if cls == C_ERROR then ERROR_BAD_CHAR else 0)
  }

  /** Enough of the parser's invariant to run: a digit of a `\u` escape has the digits before it. */
  predicate Ready(p: Parser) {
    && (p.state == STATE_U2 ==> EndsInHex(p.buffer, 1))
    && (p.state == STATE_U3 ==> EndsInHex(p.buffer, 2))
    && (p.state == STATE_U4 ==> EndsInHex(p.buffer, 3))
  }

  function Push(cfg: Config, p: Parser, policy: Policy, ch: Byte): Outcome {
    match policy
    case Ignore => Outcome(p, 0)
    case Append => BufferPush(cfg, p, ch)
    case Escape => BufferPush(cfg, p, EscapeValue(ch))
  }

  lemma HexClassIsHexDigit(left: nat, ch: Byte)
    requires Classify(left, ch).ret == 0
    requires IsHexClass(Classify(left, ch).cls)
    ensures IsHexDigit(ch)
  {
  }

  /** Only the digits of an escape lead on to its later digits, and each is buffered. */
  lemma IntoUnicode(s: State, c: Class)
    ensures Transition(s, c) == STATE_U2 ==> s == STATE_U1
    ensures Transition(s, c) == STATE_U3 ==> s == STATE_U2
    ensures Transition(s, c) == STATE_U4 ==> s == STATE_U3
    ensures Transition(s, c) == ACT_UC ==> s == STATE_U4
    ensures (s == STATE_U1 || s == STATE_U2 || s == STATE_U3 || s == STATE_U4) && Transition(s, c) != REJECT
            ==> IsHexClass(c) && BufferPolicy(s, c) == Append
  {
  }

  lemma EndsInHexSnoc(b: Bytes, n: nat, ch: Byte)
    requires EndsInHex(b, n) && IsHexDigit(ch)
    ensures EndsInHex(b + [ch], n + 1)
  {
    assert (b + [ch])[|b| + 1 - (n + 1)..] == b[|b| - n..] + [ch];
  }

  /** What precedes the transition: the byte's class and its effect on the buffer. */
  function Advance(cfg: Config, p: Parser, cl: Classified, ch: Byte): Outcome
    requires Ready(p)
  {
    Push(cfg, p.(utf8Left := cl.left), BufferPolicy(p.state, cl.cls), ch)
  }

  lemma AdvanceKeepsDigits(cfg: Config, p: Parser, ch: Byte)
    requires Ready(p) && Classify(p.utf8Left, ch).ret == 0
    ensures var cl := Classify(p.utf8Left, ch);
            var o := Advance(cfg, p, cl, ch);
            var t := Transition(p.state, cl.cls);
            o.ret == 0 && t != REJECT ==>
              && (t == STATE_U2 ==> EndsInHex(o.p.buffer, 1))
              && (t == STATE_U3 ==> EndsInHex(o.p.buffer, 2))
              && (t == STATE_U4 ==> EndsInHex(o.p.buffer, 3))
              && (t == ACT_UC ==> EndsInHex(o.p.buffer, 4))
  {
    var cl := Classify(p.utf8Left, ch);
    IntoUnicode(p.state, cl.cls);
    hide Transition;
    if IsHexClass(cl.cls) {
      HexClassIsHexDigit(p.utf8Left, ch);
      if p.state == STATE_U1 { EndsInHexSnoc(p.buffer, 0, ch); }
      if p.state == STATE_U2 { EndsInHexSnoc(p.buffer, 1, ch); }
      if p.state == STATE_U3 { EndsInHexSnoc(p.buffer, 2, ch); }
      if p.state == STATE_U4 { EndsInHexSnoc(p.buffer, 3, ch); }
    }
  }

  /** Taking a table entry: an action, or a plain move to the next state. */
  function Move(cfg: Config, p: Parser, target: Target): Outcome
    requires target != REJECT
    requires target == ACT_UC ==> EndsInHex(p.buffer, 4)
  {
    if IsAction(target) then DoAction(cfg, p, target) else Outcome(p.(state := target), 0)
  }

  function StepByte(cfg: Config, p: Parser, ch: Byte): (o: Outcome)
    requires Ready(p)
    ensures o.ret == 0 ==> Ready(o.p)
  {
    hide Transition, BufferPolicy, Classify, CharacterClass, BufferPush, Push, Advance, EndsInHex;
    var cl := Classify(p.utf8Left, ch);
    if cl.ret != 0 then Outcome(p.(utf8Left := cl.left), cl.ret) else
    var target := Transition(p.state, cl.cls);
    if target == REJECT then Outcome(p.(utf8Left := cl.left), ERROR_UNEXPECTED_CHAR) else
    var pushed := Advance(cfg, p, cl, ch);
    if pushed.ret != 0 then pushed else
    AdvanceKeepsDigits(cfg, p, ch);
    Move(cfg, pushed.p, target)
  }

  /** Feeding a chunk; stops at the first byte that is refused. */
  function Feed(cfg: Config, p: Parser, s: Bytes): (o: Outcome)
    requires Ready(p)
    ensures o.ret == 0 ==> Ready(o.p)
    decreases s
  {
    hide StepByte;
    if s == [] then Outcome(p, 0)
    else
      var o := StepByte(cfg, p, s[0]);
      if o.ret != 0 then o else Feed(cfg, o.p, s[1..])
  }

  /** Chunking does not matter: a chunk in two parts is the chunk. */
  lemma {:induction false} FeedAppend(cfg: Config, p: Parser, a: Bytes, b: Bytes)
    requires Ready(p)
    ensures var o := Feed(cfg, p, a);
            Feed(cfg, p, a + b) == if o.ret != 0 then o else Feed(cfg, o.p, b)
    decreases a
  {
    hide StepByte;
    if a == [] {
      assert a + b == b;
    } else {
      assert (a + b)[0] == a[0] && (a + b)[1..] == a[1..] + b;
      var o := StepByte(cfg, p, a[0]);
      if o.ret == 0 {
        FeedAppend(cfg, o.p, a[1..], b);
      }
    }
  }

  /** Feeding one byte is one step. */
  lemma FeedOne(cfg: Config, p: Parser, ch: Byte)
    requires Ready(p)
    ensures Feed(cfg, p, [ch]) == StepByte(cfg, p, ch)
  {
    var o := StepByte(cfg, p, ch);
    if o.ret == 0 {
      assert [ch][1..] == [];
      assert Feed(cfg, o.p, []) == Outcome(o.p, 0);
    }
  }

  /** Feeding a chunk from its first byte. */
  lemma FeedCons(cfg: Config, p: Parser, ch: Byte, s: Bytes)
    requires Ready(p)
    ensures var o := StepByte(cfg, p, ch);
            Feed(cfg, p, [ch] + s) == if o.ret != 0 then o else Feed(cfg, o.p, s)
  {
    hide StepByte;
    assert ([ch] + s)[1..] == s;
  }

  /** Feeding a chunk from its last byte. */
  lemma FeedSnoc(cfg: Config, p: Parser, s: Bytes, ch: Byte)
    requires Ready(p)
    ensures var o := Feed(cfg, p, s);
            Feed(cfg, p, s + [ch]) == if o.ret != 0 then o else StepByte(cfg, o.p, ch)
  {
    FeedAppend(cfg, p, s, [ch]);
    var o := Feed(cfg, p, s);
    if o.ret == 0 {
      FeedOne(cfg, o.p, ch);
    }
  }
}
