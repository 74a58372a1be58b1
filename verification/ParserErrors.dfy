/**
  Which error a byte ends in, by the byte and not by the tables: after a value, where a
  value may begin, and inside a string.
 */
module ParserErrors {
  import opened JsonTables
  import opened ParserSpec
  import opened Grammar
  import opened TokenMachine
  import opened ReadsLexemes
  import opened FindsLexemes
  import opened ParserTheorems

  /** Bytes of no text: control characters other than white space, and what cannot begin a character. */
  predicate IsControl(ch: Byte) { ch < 0x20 && ch != 0x09 && ch != 0x0a && ch != 0x0d }
  predicate IsStray(ch: Byte) { 0x80 <= ch < 0xc0 || ch >= 0xfe }
  predicate IsBlank(ch: Byte) { ch == 0x20 || ch == 0x09 || ch == 0x0a || ch == 0x0d }

  /** A closing bracket: nothing to close, something else to close, or what the callback says. */
  function CloseError(cfg: Config, p: Parser, mode: Mode, end: JsonType): int {
    if p.stack == [] then 3
    else if p.stack[|p.stack| - 1] != mode then 4
    else cfg.callback(p.log, Event(end, []))
  }

  /** An opening bracket: what the callback says, and then whether there is room for it. */
  function OpenError(cfg: Config, p: Parser, begin: JsonType): int {
    var ret := cfg.callback(p.log, Event(begin, []));
    if ret != 0 then ret else if cfg.maxNesting != 0 && |p.stack| >= p.stackSize then 5 else 0
  }

  function AfterValueError(cfg: Config, p: Parser, ch: Byte): int {
    if IsStray(ch) then 13
    else if IsControl(ch) then 2
    else if ch == Ascii("]")[0] then CloseError(cfg, p, ModeArray, JsonArrayEnd)
    else if ch == Ascii("}")[0] then CloseError(cfg, p, ModeObject, JsonObjectEnd)
    else if ch == Ascii(",")[0] then (if p.stack == [] then 11 else 0)
    else if ch == Ascii("/")[0] then (if cfg.allowCComments then 0 else 7)
    else if ch == Ascii("#")[0] then (if cfg.allowYamlComments then 0 else 7)
    else if IsBlank(ch) then 0
    else 8
  }

  /** Nothing is half read or pending. */
  predicate IsQuiet(p: Parser) { p.utf8Left == 0 && p.kind == JsonNone }

  lemma ClassifyIs(ch: Byte)
    ensures Classify(0, ch).ret == if IsStray(ch) then 13 else if IsControl(ch) then 2 else 0
    ensures ch < 0x80 && !IsControl(ch) ==> Classify(0, ch) == Classified(0, CharacterClass(ch), 0)
    ensures ch >= 0x80 && !IsStray(ch) ==> Classify(0, ch).cls == C_OTHER
  {
  }

  lemma BadByte(cfg: Config, p: Parser, ch: Byte)
    requires Ready(p) && p.utf8Left == 0
    ensures Classify(0, ch).ret != 0 ==> StepByte(cfg, p, ch).ret == Classify(0, ch).ret
    ensures Classify(0, ch).ret == 0 && Transition(p.state, Classify(0, ch).cls) == REJECT ==>
              StepByte(cfg, p, ch).ret == 8
  {
    hide Classify, Transition;
  }

  /** A byte that no row buffers takes its table entry. */
  lemma TakesEntry(cfg: Config, p: Parser, ch: Byte, t: Target)
    requires Ready(p) && p.utf8Left == 0 && ch < 0x80 && !IsControl(ch)
    requires Transition(p.state, CharacterClass(ch)) == t && t != REJECT && t != ACT_UC
    requires BufferPolicy(p.state, CharacterClass(ch)) == Ignore
    ensures StepByte(cfg, p, ch) == Move(cfg, p, t)
  {
    ClassifyIs(ch);
    hide Classify, Transition, CharacterClass, BufferPolicy, Move;
  }

  lemma AfterValueErrors(cfg: Config, p: Parser, ch: Byte)
    requires p.state == STATE_OK && IsQuiet(p)
    ensures StepByte(cfg, p, ch).ret == AfterValueError(cfg, p, ch)
  {
    ClassifyIs(ch);
    BadByte(cfg, p, ch);
    if !IsStray(ch) && !IsControl(ch) && ch < 0x80 {
      var t := Transition(STATE_OK, CharacterClass(ch));
      if t != REJECT { TakesEntry(cfg, p, ch, t); }
    }
    hide StepByte, Classify;
  }

  /** One more byte would reach the data limit. */
  predicate IsFull(cfg: Config, p: Parser) { cfg.maxData > 0 && |p.buffer| + 1 >= cfg.maxData }

  function BeforeValueError(cfg: Config, p: Parser, ch: Byte): int {
    if IsStray(ch) then 13
    else if IsControl(ch) then 2
    else if ch == Ascii("[")[0] then OpenError(cfg, p, JsonArrayBegin)
    else if ch == Ascii("{")[0] then OpenError(cfg, p, JsonObjectBegin)
    else if ch == Ascii("]")[0] && p.state == STATE_A then CloseError(cfg, p, ModeArray, JsonArrayEnd)
    else if ch == Ascii("-")[0] || Ascii("0")[0] <= ch <= Ascii("9")[0] then (if IsFull(cfg, p) then 6 else 0)
    else if ch == Ascii("/")[0] then (if cfg.allowCComments then 0 else 7)
    else if ch == Ascii("#")[0] then (if cfg.allowYamlComments then 0 else 7)
    else if IsBlank(ch) || ch == Ascii("\"")[0] then 0
    else if ch == Ascii("t")[0] || ch == Ascii("f")[0] || ch == Ascii("n")[0] then 0
    else 8
  }

  lemma PushIs(cfg: Config, p: Parser, ch: Byte)
    requires Sized(cfg, p)
    ensures BufferPush(cfg, p, ch).ret == if IsFull(cfg, p) then 6 else 0
  {
  }

  lemma BeforeValueErrors(cfg: Config, p: Parser, ch: Byte)
    requires ValueExpected(p.state) && IsQuiet(p) && Sized(cfg, p)
    ensures StepByte(cfg, p, ch).ret == BeforeValueError(cfg, p, ch)
  {
    ClassifyIs(ch);
    BadByte(cfg, p, ch);
    if ch == 0x2d || IsDigit(ch) {
      NumberErrors(cfg, p, ch);
    } else if !IsStray(ch) && !IsControl(ch) && ch < 0x80 {
      BeforeValueEntry(p.state, ch);
      var t := Transition(p.state, CharacterClass(ch));
      hide Transition, CharacterClass, BufferPolicy;
      if t != REJECT {
        TakesEntry(cfg, p, ch, t);
        EntryErrors(cfg, p, ch, t);
      }
    }
    hide StepByte, Classify, Sized, Move;
  }

  /** The table's entry for a byte, other than a number's, where a value may begin. */
  function BeforeValueTarget(s: State, ch: Byte): Target {
    if ch == Ascii("[")[0] then ACT_AB
    else if ch == Ascii("{")[0] then ACT_OB
    else if ch == Ascii("]")[0] && s == STATE_A then ACT_AE
    else if ch == Ascii("/")[0] then ACT_CB
    else if ch == Ascii("#")[0] then ACT_YB
    else if IsBlank(ch) then s
    else if ch == Ascii("\"")[0] then STATE_S
    else if ch == Ascii("t")[0] then STATE_T1
    else if ch == Ascii("f")[0] then STATE_F1
    else if ch == Ascii("n")[0] then STATE_N1
    else REJECT
  }

  lemma BeforeValueEntry(s: State, ch: Byte)
    requires ValueExpected(s) && ch < 0x80 && !IsControl(ch) && ch != 0x2d && !IsDigit(ch)
    ensures Transition(s, CharacterClass(ch)) == BeforeValueTarget(s, ch)
    ensures BeforeValueTarget(s, ch) != REJECT ==> BufferPolicy(s, CharacterClass(ch)) == Ignore
  {
  }

  lemma EntryErrors(cfg: Config, p: Parser, ch: Byte, t: Target)
    requires ValueExpected(p.state) && IsQuiet(p) && t == BeforeValueTarget(p.state, ch) && t != REJECT
    requires !IsStray(ch) && !IsControl(ch) && ch != 0x2d && !IsDigit(ch)
    ensures Move(cfg, p, t).ret == BeforeValueError(cfg, p, ch)
  {
  }

  lemma NumberErrors(cfg: Config, p: Parser, ch: Byte)
    requires ValueExpected(p.state) && IsQuiet(p) && Sized(cfg, p) && (ch == 0x2d || IsDigit(ch))
    ensures StepByte(cfg, p, ch).ret == if IsFull(cfg, p) then 6 else 0
  {
    ClassifyIs(ch);
    PushIs(cfg, p, ch);
    hide Classify, BufferPush;
  }

  function InStringError(cfg: Config, p: Parser, ch: Byte): int {
    if IsStray(ch) then 13
    else if IsControl(ch) then 2
    else if ch == Ascii("\"")[0] then
      cfg.callback(p.log, Event(if p.expectingKey then JsonKey else JsonString, p.buffer))
    else if ch == Ascii("\\")[0] then 0
    else if ch < 0x20 then 8
    else if IsFull(cfg, p) then 6
    else 0
  }

  lemma InStringErrors(cfg: Config, p: Parser, ch: Byte)
    requires p.state == STATE_S && IsQuiet(p) && Sized(cfg, p)
    ensures StepByte(cfg, p, ch).ret == InStringError(cfg, p, ch)
  {
    ClassifyIs(ch);
    BadByte(cfg, p, ch);
    if !IsStray(ch) && !IsControl(ch) {
      if ch == 0x22 || ch == 0x5c {
        TakesEntry(cfg, p, ch, Transition(STATE_S, CharacterClass(ch)));
      } else if ch >= 0x20 {
        RawErrors(cfg, p, ch);
      }
    }
    hide StepByte, Classify, Sized;
  }

  lemma RawErrors(cfg: Config, p: Parser, ch: Byte)
    requires p.state == STATE_S && IsQuiet(p) && Sized(cfg, p)
    requires !IsStray(ch) && ch >= 0x20 && ch != 0x22 && ch != 0x5c
    ensures StepByte(cfg, p, ch).ret == if IsFull(cfg, p) then 6 else 0
  {
    var cl := Classify(0, ch);
    PushIs(cfg, p.(utf8Left := cl.left), ch);
    RawEntry(ch);
    hide Classify, BufferPush, Transition, BufferPolicy, CharacterClass;
  }

  lemma RawEntry(ch: Byte)
    requires !IsStray(ch) && ch >= 0x20 && ch != 0x22 && ch != 0x5c
    ensures var cl := Classify(0, ch);
            cl.ret == 0 && Transition(STATE_S, cl.cls) == STATE_S && BufferPolicy(STATE_S, cl.cls) == Append
  {
  }

  /** Inside a character only its continuation may come. */
  lemma MidCharacterErrors(cfg: Config, p: Parser, ch: Byte)
    requires p.state == STATE_S && p.utf8Left > 0 && Sized(cfg, p)
    ensures StepByte(cfg, p, ch).ret == if !(0x80 <= ch < 0xc0) then 13 else if IsFull(cfg, p) then 6 else 0
  {
    PushIs(cfg, p.(utf8Left := p.utf8Left - 1), ch);
    assert Transition(STATE_S, C_OTHER) == STATE_S && BufferPolicy(STATE_S, C_OTHER) == Append;
    hide BufferPush, Transition, BufferPolicy;
  }
}
