/**
  The parser as the object it is: fields that the byte loop updates, a mode stack
  and a parse buffer that grow by copying to a larger array. Every method is
  proved equal to its function in `ParserSpec`, so what is proved about `Feed`
  holds of `ParseString`.
 */
module JsonParsers {
  import opened JsonTables
  import opened ParserSpec
  import opened ReadsLexemes
  import opened FindsLexemes
  import opened ParserRuns

  class JsonParser {
    const config: Config
    var state: State
    var saveState: State
    var expectingKey: bool
    var utf8MultibyteLeft: nat
    var unicodeMulti: nat
    var kind: JsonType
    var stack: array<Mode>
    var stackOffset: nat
    var buffer: array<Byte>
    var bufferOffset: nat
    /** Everything the callback has been told. */
    var told: seq<Event>

    /** The fields hold a state of the functional model, within its bounds. */
    ghost predicate Valid()
      reads this, stack, buffer
    {
      && stackOffset <= stack.Length && bufferOffset <= buffer.Length
      && Bounded(config, Snapshot())
    }

    ghost function Snapshot(): Parser
      reads this, stack, buffer
      requires stackOffset <= stack.Length && bufferOffset <= buffer.Length
    {
      Parser(state, saveState, expectingKey, utf8MultibyteLeft, unicodeMulti, kind,
             stack[..stackOffset], stack.Length, buffer[..bufferOffset], buffer.Length, told)
    }

    constructor (cfg: Config)
      ensures Valid() && fresh(stack) && fresh(buffer)
      ensures config == cfg && Snapshot() == Init(cfg)
    {
      config := cfg;
      state, saveState, expectingKey, utf8MultibyteLeft, unicodeMulti := STATE_GO, STATE_GO, false, 0, 0;
      kind := JsonNone;
      stack := new Mode[if cfg.maxNesting > 0 then cfg.maxNesting else DEFAULT_STACK_SIZE](_ => ModeArray);
      stackOffset := 0;
      buffer := new Byte[InitialBufferSize(cfg)](_ => 0);
      bufferOffset := 0;
      told := [];
    }

    /** `json_parser_is_done`. */
    method IsDone() returns (done: bool)
      requires Valid()
      ensures done == ParserSpec.IsDone(Snapshot())
    {
      done := stackOffset == 0 && state != STATE_GO;
    }

    method StatePush(mode: Mode) returns (ret: int)
      requires Valid()
      modifies this`stack, this`stackOffset, stack
      ensures stack == old(stack) || fresh(stack)
      ensures Valid() && Outcome(Snapshot(), ret) == ParserSpec.StatePush(config, old(Snapshot()), mode)
    {
      if stackOffset >= stack.Length {
        if config.maxNesting != 0 { return ERROR_NESTING_LIMIT; }
        var larger := new Mode[stack.Length * 2](i requires 0 <= i reads this, stack =>
          if i < stack.Length then stack[i] else ModeArray);
        stack := larger;
      }
      stack[stackOffset] := mode;
      stackOffset := stackOffset + 1;
      ret := 0;
    }

    method StatePop(mode: Mode) returns (ret: int)
      requires Valid()
      modifies this`stackOffset
      ensures Valid() && Outcome(Snapshot(), ret) == ParserSpec.StatePop(old(Snapshot()), mode)
    {
      if stackOffset == 0 { return ERROR_POP_EMPTY; }
      stackOffset := stackOffset - 1;
      assert stack[..stackOffset] == old(stack[..stackOffset])[..stackOffset];
      if stack[stackOffset] != mode { return ERROR_POP_UNEXPECTED_MODE; }
      ret := 0;
    }

    method BufferPush(c: Byte) returns (ret: int)
      requires Valid()
      modifies this`buffer, this`bufferOffset, buffer
      ensures buffer == old(buffer) || fresh(buffer)
      ensures Valid() && Outcome(Snapshot(), ret) == ParserSpec.BufferPush(config, old(Snapshot()), c)
    {
      if bufferOffset + 1 >= buffer.Length {
        if config.maxData > 0 && buffer.Length == config.maxData { return ERROR_DATA_LIMIT; }
        var larger := new Byte[GrownSize(config, buffer.Length)](i requires 0 <= i reads this, buffer =>
          if i < buffer.Length then buffer[i] else 0);
        buffer := larger;
      }
      buffer[bufferOffset] := c;
      bufferOffset := bufferOffset + 1;
      ret := 0;
    }

    method Callback(ev: Event) returns (ret: int)
      requires Valid()
      modifies this`told
      ensures Valid() && Outcome(Snapshot(), ret) == Emit(config, old(Snapshot()), ev)
    {
      ret := config.callback(told, ev);
      told := told + [ev];
    }

    method DoBuffer() returns (ret: int)
      requires Valid()
      modifies this`told, this`bufferOffset
      ensures Valid() && Outcome(Snapshot(), ret) == ParserSpec.DoBuffer(config, old(Snapshot()))
    {
      ret := 0;
      if IsDelayed(kind) {
        ret := Callback(Event(kind, buffer[..bufferOffset]));
        if ret != 0 { return; }
      }
      bufferOffset := 0;
    }

    method DecodeUnicodeChar() returns (ret: int)
      requires Valid() && EndsInHex(Snapshot().buffer, 4)
      modifies this`bufferOffset, this`unicodeMulti, buffer
      ensures Valid() && Outcome(Snapshot(), ret) == DecodeUnicode(old(Snapshot()))
    {
      ghost var before := buffer[..bufferOffset];
      ghost var at := bufferOffset - 4;
      LastFour(before);
      var uval := HexValue(buffer[bufferOffset - 4]) * 0x1000 + HexValue(buffer[bufferOffset - 3]) * 0x100
        + HexValue(buffer[bufferOffset - 2]) * 0x10 + HexValue(buffer[bufferOffset - 1]);
      assert uval == HexQuad(before[at..]);
      bufferOffset := bufferOffset - 4;
      assert buffer[..bufferOffset] == before[..at];
      hide HexQuad, HexValue, AllHex;

      if unicodeMulti == 0 && uval < 0x80 {
        WriteBytes([uval]);
        return 0;
      }
      if unicodeMulti != 0 {
        if !IsLowSurrogate(uval) { return ERROR_MISSING_LOW_SURROGATE; }
        WriteBytes(FourBytes(PairValue(unicodeMulti, uval)));
        unicodeMulti := 0;
        return 0;
      }
      if IsLowSurrogate(uval) { return ERROR_UNEXPECTED_LOW_SURROGATE; }
      if IsHighSurrogate(uval) {
        unicodeMulti := uval;
        return 0;
      }
      if uval < 0x800 {
        WriteBytes([uval / 0x40 + 0xc0, uval % 0x40 + 0x80]);
      } else {
        WriteBytes([uval / 0x1000 + 0xe0, uval / 0x40 % 0x40 + 0x80, uval % 0x40 + 0x80]);
      }
      ret := 0;
    }

    /** The writes through `b[parser->buffer_offset++]`, over the digits that have just been taken back. */
    method WriteBytes(bytes: Bytes)
      requires bufferOffset + |bytes| <= buffer.Length
      modifies this`bufferOffset, buffer
      ensures bufferOffset == old(bufferOffset) + |bytes|
      ensures buffer[..bufferOffset] == old(buffer[..bufferOffset]) + bytes
    {
      ghost var before := buffer[..bufferOffset];
      var i := 0;
      while i < |bytes|
        invariant 0 <= i <= |bytes|
        invariant bufferOffset == old(bufferOffset) + i
        invariant buffer[..bufferOffset] == before + bytes[..i]
      {
        buffer[bufferOffset] := bytes[i];
        bufferOffset := bufferOffset + 1;
        i := i + 1;
      }
    }

    method ActObjectBegin() returns (ret: int)
      requires Valid()
      modifies this`told, this`stack, this`stackOffset, this`expectingKey, stack
      ensures stack == old(stack) || fresh(stack)
      ensures Valid() && Outcome(Snapshot(), ret) == ParserSpec.Act(config, old(Snapshot()), ACT_OB)
    {
      ret := Callback(Event(JsonObjectBegin, []));
      if ret != 0 { return; }
      ret := StatePush(ModeObject);
      if ret != 0 { return; }
      expectingKey := true;
    }

    method ActArrayBegin() returns (ret: int)
      requires Valid()
      modifies this`told, this`stack, this`stackOffset, stack
      ensures stack == old(stack) || fresh(stack)
      ensures Valid() && Outcome(Snapshot(), ret) == ParserSpec.Act(config, old(Snapshot()), ACT_AB)
    {
      ret := Callback(Event(JsonArrayBegin, []));
      if ret != 0 { return; }
      ret := StatePush(ModeArray);
    }

    method ActObjectEnd() returns (ret: int)
      requires Valid()
      modifies this`told, this`stackOffset, this`expectingKey
      ensures Valid() && Outcome(Snapshot(), ret) == ParserSpec.Act(config, old(Snapshot()), ACT_OE)
    {
      ret := StatePop(ModeObject);
      if ret != 0 { return; }
      ret := Callback(Event(JsonObjectEnd, []));
      if ret != 0 { return; }
      expectingKey := false;
    }

    method ActArrayEnd() returns (ret: int)
      requires Valid()
      modifies this`told, this`stackOffset
      ensures Valid() && Outcome(Snapshot(), ret) == ParserSpec.Act(config, old(Snapshot()), ACT_AE)
    {
      ret := StatePop(ModeArray);
      if ret != 0 { return; }
      ret := Callback(Event(JsonArrayEnd, []));
    }

    method ActStringEnd() returns (ret: int)
      requires Valid()
      modifies this`told, this`bufferOffset, this`state, this`expectingKey
      ensures Valid() && Outcome(Snapshot(), ret) == ParserSpec.Act(config, old(Snapshot()), ACT_SE)
    {
      ret := Callback(Event(if expectingKey then JsonKey else JsonString, buffer[..bufferOffset]));
      if ret != 0 { return; }
      bufferOffset := 0;
      state := if expectingKey then STATE_CO else STATE_OK;
      expectingKey := false;
    }

    method ActSeparator() returns (ret: int)
      requires Valid()
      modifies this`state, this`expectingKey
      ensures Valid() && Outcome(Snapshot(), ret) == ParserSpec.Act(config, old(Snapshot()), ACT_SP)
    {
      if stackOffset == 0 { return ERROR_COMMA_OUT_OF_STRUCTURE; }
      if stack[stackOffset - 1] == ModeObject {
        expectingKey := true;
        state := STATE_K;
      } else {
        state := STATE_V;
      }
      ret := 0;
    }

    method ActCommentBegin() returns (ret: int)
      requires Valid()
      modifies this`saveState
      ensures Valid() && Outcome(Snapshot(), ret) == ParserSpec.Act(config, old(Snapshot()), ACT_CB)
    {
      if !config.allowCComments { return ERROR_COMMENT_NOT_ALLOWED; }
      saveState := state;
      ret := 0;
    }

    method ActYamlBegin() returns (ret: int)
      requires Valid()
      modifies this`saveState
      ensures Valid() && Outcome(Snapshot(), ret) == ParserSpec.Act(config, old(Snapshot()), ACT_YB)
    {
      if !config.allowYamlComments { return ERROR_COMMENT_NOT_ALLOWED; }
      saveState := state;
      ret := 0;
    }

    method ActCommentEnd() returns (ret: int)
      requires Valid()
      modifies this`state
      ensures Valid() && Outcome(Snapshot(), ret) == ParserSpec.Act(config, old(Snapshot()), ACT_CE)
    {
      state := if saveState > STATE_A then STATE_OK else saveState;
      ret := 0;
    }

    method ActUnicode() returns (ret: int)
      requires Valid() && EndsInHex(Snapshot().buffer, 4)
      modifies this`state, this`bufferOffset, this`unicodeMulti, buffer
      ensures Valid() && Outcome(Snapshot(), ret) == ParserSpec.Act(config, old(Snapshot()), ACT_UC)
    {
      hide DecodeUnicode, EndsInHex;
      ret := DecodeUnicodeChar();
      if ret != 0 { return; }
      state := if unicodeMulti != 0 then STATE_D1 else STATE_S;
    }

    /** The function that an action of the table calls, if it calls one. */
    method Act(a: Action) returns (ret: int)
      requires Valid() && (a == ACT_UC ==> EndsInHex(Snapshot().buffer, 4))
      modifies this, stack, buffer
      ensures stack == old(stack) || fresh(stack)
      ensures buffer == old(buffer)
      ensures Valid() && Outcome(Snapshot(), ret) == ParserSpec.Act(config, old(Snapshot()), a)
    {
      if !CallsFunction(a) {
        return 0;
      }
      hide ParserSpec.Act, Bounded, EndsInHex;
      match a
      case ACT_OB => ret := ActObjectBegin();
      case ACT_AB => ret := ActArrayBegin();
      case ACT_OE => ret := ActObjectEnd();
      case ACT_AE => ret := ActArrayEnd();
      case ACT_SE => ret := ActStringEnd();
      case ACT_SP => ret := ActSeparator();
      case ACT_CB => ret := ActCommentBegin();
      case ACT_YB => ret := ActYamlBegin();
      case ACT_CE => ret := ActCommentEnd();
      case _ => ret := ActUnicode();
    }

    method DoAction(a: Action) returns (ret: int)
      requires Valid() && (a == ACT_UC ==> EndsInHex(Snapshot().buffer, 4))
      modifies this, stack, buffer
      ensures stack == old(stack) || fresh(stack)
      ensures buffer == old(buffer)
      ensures Valid() && Outcome(Snapshot(), ret) == ParserSpec.DoAction(config, old(Snapshot()), a)
    {
      if FlushesBuffer(a) {
        ret := DoBuffer();
        if ret != 0 { return; }
      }
      ret := Act(a);
      if ret != 0 { return; }
      state := ActionState(state, a);
      kind := ActionKind(a);
    }

    /** The UTF-8 check, which also gives the byte's class. */
    method Check(ch: Byte) returns (ret: int, nextClass: Class)
      requires Valid()
      modifies this`utf8MultibyteLeft
      ensures var cl := Classify(old(utf8MultibyteLeft), ch);
              && Valid() && Snapshot() == old(Snapshot()).(utf8Left := cl.left)
              && ret == cl.ret && (ret == 0 ==> nextClass == cl.cls)
    {
      nextClass := C_OTHER;
      if utf8MultibyteLeft > 0 {
        if !IsContinuation(ch) { return ERROR_UTF8, C_ERROR; }
        utf8MultibyteLeft := utf8MultibyteLeft - 1;
      } else {
        utf8MultibyteLeft := Utf8Header(ch);
        if utf8MultibyteLeft == 0xff { return ERROR_UTF8, C_ERROR; }
        nextClass := if utf8MultibyteLeft > 0 then C_OTHER else CharacterClass(ch);
        if nextClass == C_ERROR { return ERROR_BAD_CHAR, C_ERROR; }
      }
      ret := 0;
    }

    /** One turn of the loop of `json_parser_string`. */
    method Step(ch: Byte) returns (ret: int)
      requires Valid() && Ready(Snapshot())
      modifies this, stack, buffer
      ensures stack == old(stack) || fresh(stack)
      ensures buffer == old(buffer) || fresh(buffer)
      ensures Valid() && Outcome(Snapshot(), ret) == StepByte(config, old(Snapshot()), ch)
    {
      hide Classify, Transition, BufferPolicy, EndsInHex, ParserSpec.DoAction, Ready, ParserSpec.BufferPush, Bounded;
      ghost var before := Snapshot();
      var nextClass;
      ret, nextClass := Check(ch);
      if ret != 0 { return; }
      var nextState := Transition(state, nextClass);
      var bufferPolicy := BufferPolicy(state, nextClass);
      if nextState == REJECT { return ERROR_UNEXPECTED_CHAR; }
      AdvanceKeepsDigits(config, before, ch);
      if bufferPolicy != Ignore {
        ret := BufferPush(if bufferPolicy == Escape then EscapeValue(ch) else ch);
        if ret != 0 { return; }
      }
      assert Snapshot() == Advance(config, before, Classify(before.utf8Left, ch), ch).p;
      ret := Take(nextState);
    }

    method Take(nextState: Target) returns (ret: int)
      requires Valid() && nextState != REJECT && (nextState == ACT_UC ==> EndsInHex(Snapshot().buffer, 4))
      modifies this, stack, buffer
      ensures stack == old(stack) || fresh(stack)
      ensures buffer == old(buffer)
      ensures Valid() && Outcome(Snapshot(), ret) == Move(config, old(Snapshot()), nextState)
    {
      if IsAction(nextState) {
        ret := DoAction(nextState);
      } else {
        state := nextState;
        ret := 0;
      }
    }

    /** `json_parser_string`: feeds a chunk, and says how many of its bytes were taken. */
    method ParseString(s: Bytes) returns (ret: int, processed: nat)
      requires Valid() && Ready(Snapshot())
      modifies this, stack, buffer
      ensures stack == old(stack) || fresh(stack)
      ensures buffer == old(buffer) || fresh(buffer)
      ensures Valid() && Outcome(Snapshot(), ret) == Feed(config, old(Snapshot()), s)
      ensures ret == 0 ==> processed == |s|
      ensures ret != 0 ==>
                && processed < |s|
                && Feed(config, old(Snapshot()), s[..processed]).ret == 0
                && StepByte(config, Feed(config, old(Snapshot()), s[..processed]).p, s[processed])
                    == Outcome(Snapshot(), ret)
    {
      hide StepByte, Feed, Ready, Bounded;
      ghost var start := Snapshot();
      ret := 0;
      var i := 0;
      FeedNothing(config, start);
      assert s[..0] == [] && s[0..] == s;
      while i < |s|
        invariant 0 <= i <= |s| && ret == 0
        invariant Valid() && Ready(Snapshot())
        invariant stack == old(stack) || fresh(stack)
        invariant buffer == old(buffer) || fresh(buffer)
        invariant Feed(config, start, s[..i]) == Outcome(Snapshot(), 0)
      {
        ghost var p := Snapshot();
        assert s[..i + 1] == s[..i] + [s[i]];
        FeedSnoc(config, start, s[..i], s[i]);
        ret := Step(s[i]);
        if ret != 0 {
          assert s == s[..i + 1] + s[i + 1..];
          FeedAppend(config, start, s[..i + 1], s[i + 1..]);
          return ret, i;
        }
        i := i + 1;
      }
      assert s[..|s|] == s;
      processed := i;
    }
  }

  /** Column `call` of `actions_map` is not NULL. */
  predicate CallsFunction(a: Action) {
    a == ACT_OB || a == ACT_AB || a == ACT_OE || a == ACT_AE || a == ACT_SE || a == ACT_SP
    || a == ACT_CB || a == ACT_YB || a == ACT_CE || a == ACT_UC
  }

  /** The last four bytes of a buffer that ends in four digits. */
  lemma LastFour(b: Bytes)
    requires EndsInHex(b, 4)
    ensures var n := |b|;
            && n >= 4
            && IsHexDigit(b[n - 4]) && IsHexDigit(b[n - 3]) && IsHexDigit(b[n - 2]) && IsHexDigit(b[n - 1])
            && b[n - 4..] == [b[n - 4], b[n - 3], b[n - 2], b[n - 1]]
  {
    var t := b[|b| - 4..];
    assert t[0] == b[|b| - 4] && t[1] == b[|b| - 3] && t[2] == b[|b| - 2] && t[3] == b[|b| - 1];
  }
}
