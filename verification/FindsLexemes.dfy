/**
  Soundness of the parser: whatever it has accepted is a spelling of the
  beginning of a document, and after every byte that was accepted the parser
  stands exactly where that beginning leaves it.

  `Tracks` is the invariant of every run. It holds the lexemes read so far, the
  lexeme being read (`Piece`), and the situation of the token machine.
 */
module FindsLexemes {
  import opened JsonTables
  import opened ParserSpec
  import opened Grammar
  import opened TokenMachine
  import opened ReadsLexemes

  // ---------------------------------------------------------------- the lexeme being read

  /** Where a string stands after its last complete unit. */
  datatype Tail =
    | Idle
    | InGroup(part: Bytes)
    | InEscape
    | InHex(high: Option<Bytes>, digits: Bytes)
    | AwaitLow(half: Bytes, slash: bool)

  datatype Piece =
    | Nothing
    | PStr(units: seq<StrUnit>, tail: Tail)
    | PNum(number: Number)
    | PName(kind: JsonType, letters: nat)
    | PSlash
    | PBlock(body: seq<Bytes>, star: bool, part: Bytes)
    | PLine(body: seq<Bytes>, part: Bytes)

  function TailText(t: Tail): Bytes {
    match t
    case Idle => []
    case InGroup(part) => part
    case InEscape => [BACKSLASH]
    case InHex(high, digits) =>
      (if high.Some? then [BACKSLASH, LOWER_U] + high.value else []) + [BACKSLASH, LOWER_U] + digits
    case AwaitLow(high, slash) => [BACKSLASH, LOWER_U] + high + (if slash then [BACKSLASH] else [])
  }

  function PieceText(piece: Piece): Bytes {
    match piece
    case Nothing => []
    case PStr(units, tail) => [QUOTE] + UnitsText(units) + TailText(tail)
    case PNum(n) => NumberText(n)
    case PName(kind, k) => if k <= |NameText(kind)| then NameText(kind)[..k] else []
    case PSlash => [SLASH]
    case PBlock(body, star, part) => [SLASH, STAR] + Concat(body) + (if star then [STAR] else []) + part
    case PLine(body, part) => [HASH] + Concat(body) + part
  }

  // ---------------------------------------------------------------- the invariant

  /** The buffer is within its size, and its size within the limit. */
  predicate Sized(cfg: Config, p: Parser) {
    |p.buffer| < p.bufferSize && (cfg.maxData > 0 ==> p.bufferSize <= cfg.maxData)
  }

  /** The stack, the log and the key flag are those of the token machine. */
  predicate Stands(p: Parser, c: Control) {
    && IsStructural(c.state)
    && p.stack == c.stack
    && p.log == c.events
    && p.expectingKey == KeyExpected(c.state)
    && (c.state != STATE_GO && c.state != STATE_OK ==> p.stack != [])
  }

  function TailState(t: Tail): State {
    match t
    case Idle => STATE_S
    case InGroup(_) => STATE_S
    case InEscape => STATE_E0
    case InHex(_, digits) => if |digits| < 4 then STATE_U1 + |digits| else STATE_U1
    case AwaitLow(_, slash) => if slash then STATE_D2 else STATE_D1
  }

  /** The bytes of an unfinished unit that are in the buffer. */
  function TailBuffer(t: Tail): Bytes {
    match t
    case InGroup(part) => part
    case InHex(_, digits) => digits
    case _ => []
  }

  function TailHigh(t: Tail): nat
    requires TailOk(t)
  {
    match t
    case InHex(high, _) => if high.Some? then HexQuad(high.value) else 0
    case AwaitLow(high, _) => HexQuad(high)
    case _ => 0
  }

  /** The beginning of an encoded character, with the continuations still to come. */
  predicate IsPartGroup(part: Bytes) {
    && |part| > 0
    && 0 < Utf8Header(part[0]) < 0xff
    && |part| < 1 + Utf8Header(part[0])
    && forall i :: 1 <= i < |part| ==> IsContinuation(part[i])
  }

  function PartLeft(part: Bytes): nat
    requires part == [] || IsPartGroup(part)
  {
    if part == [] then 0 else 1 + Utf8Header(part[0]) - |part|
  }

  predicate IsHighQuad(h: Bytes) { IsQuad(h) && IsHighSurrogate(HexQuad(h)) }

  predicate TailOk(t: Tail) {
    match t
    case InGroup(part) => IsPartGroup(part)
    case InHex(high, digits) => (high.Some? ==> IsHighQuad(high.value)) && |digits| < 4 && AllHex(digits)
    case AwaitLow(high, _) => IsHighQuad(high)
    case _ => true
  }

  function TailLeft(t: Tail): nat
    requires TailOk(t)
  {
    if t.InGroup? then PartLeft(t.part) else 0
  }

  predicate InString(cfg: Config, p: Parser, units: seq<StrUnit>, tail: Tail) {
    && AreUnits(units) && TailOk(tail)
    && p.state == TailState(tail) && p.utf8Left == TailLeft(tail) && p.unicodeMulti == TailHigh(tail)
    && p.kind == JsonNone
    && p.buffer == UnitsValue(units) + TailBuffer(tail)
    && (cfg.maxData == 0 || UnitsPeak(units) < cfg.maxData)
  }

  predicate NumberAt(n: Number, s: State) {
    if s == STATE_M0 then n.minus && n.whole == [] && n.frac == None && n.exp == None
    else
      && IsWhole(n.whole)
      && (s == STATE_Z0 ==> n.whole == [0x30] && n.frac == None && n.exp == None)
      && (s == STATE_I0 ==> n.whole != [0x30] && n.frac == None && n.exp == None)
      && (s == STATE_R1 ==> n.frac == Some([]) && n.exp == None)
      && (s == STATE_R2 ==> n.frac.Some? && n.exp == None)
      && (s == STATE_X1 || s == STATE_X2 || s == STATE_X3 ==> n.exp.Some? && (n.whole == [0x30] ==> n.frac.Some?))
      && (s != STATE_R1 && n.frac.Some? ==> |n.frac.value| > 0 && AreDigits(n.frac.value))
      && (n.exp.Some? ==> PowerAt(n.exp.value, s))
      && (s == STATE_Z0 || s == STATE_I0 || s == STATE_R1 || s == STATE_R2
          || s == STATE_X1 || s == STATE_X2 || s == STATE_X3)
  }

  predicate PowerAt(e: Exponent, s: State) {
    && IsMark(e.mark) && IsSign(e.sign) && AreDigits(e.power)
    && (s == STATE_X1 ==> e.sign == [] && e.power == [])
    && (s == STATE_X2 ==> e.sign != [] && e.power == [])
    && (s == STATE_X3 ==> e.power != [])
  }

  predicate InNumber(p: Parser, n: Number) {
    && NumberAt(n, p.state)
    && p.utf8Left == 0 && p.unicodeMulti == 0
    && p.kind == NumberKind(n)
    && p.buffer == NumberText(n)
  }

  /** The state after `k` letters of a name. */
  function NameState(kind: JsonType, k: nat): State {
    match kind
    case JsonTrue => if k <= 3 then STATE_T1 + k - 1 else STATE_OK
    case JsonFalse => if k <= 4 then STATE_F1 + k - 1 else STATE_OK
    case _ => if k <= 3 then STATE_N1 + k - 1 else STATE_OK
  }

  predicate AtWord(p: Parser) {
    p.utf8Left == 0 && p.unicodeMulti == 0 && p.kind == JsonNone && p.buffer == []
  }

  predicate InComment(p: Parser, c: Control, part: Bytes) {
    && (part == [] || IsPartGroup(part))
    && p.utf8Left == PartLeft(part) && p.unicodeMulti == 0 && p.kind == JsonNone && p.buffer == []
    && Resume(p.saveState) == c.state
  }

  /** A block comment body read so far, its last star possibly beginning the closing mark. */
  predicate BlockBodyAt(body: seq<Bytes>, star: bool, part: Bytes) {
    && IsBlockBody(body)
    && (star ==> part == [])
    && (!star && part == [] && body != [] ==> body[|body| - 1] != [STAR])
  }

  predicate PieceAt(cfg: Config, p: Parser, piece: Piece, c: Control) {
    match piece
    case Nothing => Rests(p, c)
    case PStr(units, tail) =>
      Stands(p, c) && (KeyExpected(c.state) || ValueExpected(c.state)) && InString(cfg, p, units, tail)
    case PNum(n) =>
      Stands(p, c) && ValueExpected(c.state) && InNumber(p, n)
    case PName(kind, k) =>
      && Stands(p, c) && ValueExpected(c.state) && IsName(kind) && 1 <= k < |NameText(kind)|
      && p.state == NameState(kind, k) && AtWord(p)
    case PSlash =>
      Stands(p, c) && p.state == STATE_C1 && InComment(p, c, []) && cfg.allowCComments
    case PBlock(body, star, part) =>
      && Stands(p, c) && p.state == (if star then STATE_C3 else STATE_C2)
      && InComment(p, c, part) && BlockBodyAt(body, star, part) && cfg.allowCComments
    case PLine(body, part) =>
      Stands(p, c) && p.state == STATE_Y1 && InComment(p, c, part) && IsLineBody(body) && cfg.allowYamlComments
  }

  /** The lexemes read, the one being read, and where they leave the token machine. */
  datatype Scan = Scan(ls: seq<Lexeme>, piece: Piece, c: Control)

  function ScanText(sc: Scan): Bytes { Text(sc.ls) + PieceText(sc.piece) }

  predicate LexemesRead(cfg: Config, ls: seq<Lexeme>, c: Control) {
    && AreLexemes(ls) && AllFit(cfg, ls) && CommentsPlaced(ls)
    && AllAllowed(cfg, ls)
    && TokenRun(cfg.maxNesting, START, Meanings(ls)) == Some(c)
  }

  predicate Tracks(cfg: Config, p: Parser, sc: Scan) {
    && Limited(cfg, p) && Sized(cfg, p)
    && LexemesRead(cfg, sc.ls, sc.c)
    && PieceAt(cfg, p, sc.piece, sc.c)
  }

  // ---------------------------------------------------------------- adding a lexeme

  lemma AddLexeme(cfg: Config, ls: seq<Lexeme>, l: Lexeme, c: Control)
    requires LexemesRead(cfg, ls, c) && IsLexeme(l) && Fits(cfg, l) && Allowed(cfg, l)
    requires LexemeStep(cfg.maxNesting, c, l).Some? && (IsComment(l) ==> !EndsInExponent(ls))
    ensures LexemesRead(cfg, ls + [l], LexemeStep(cfg.maxNesting, c, l).value)
    ensures Text(ls + [l]) == Text(ls) + LexemeText(l)
  {
    hide TokenStep, TokenRun, IsLexeme, Fits, LexemeText, Allowed, IsComment, EndsInExponent;
    assert (ls + [l])[..|ls|] == ls;
    CommentPlaced(ls, l);
    hide CommentsPlaced;
    TokenRunAppend(cfg.maxNesting, START, Meanings(ls), Meaning(l));
    assert Meanings(ls + [l]) == Meanings(ls) + Meaning(l);
  }

  lemma CommentPlaced(ls: seq<Lexeme>, l: Lexeme)
    requires CommentsPlaced(ls) && (IsComment(l) ==> !EndsInExponent(ls))
    ensures CommentsPlaced(ls + [l])
  {
    hide IsComment, EndsInExponent;
    forall i | 0 <= i < |ls| + 1 && IsComment((ls + [l])[i])
      ensures !EndsInExponent((ls + [l])[..i])
    {
      assert (ls + [l])[..i] == ls[..i];
      if i == |ls| { assert ls[..i] == ls; }
    }
  }

  /** What was done with a byte that was accepted. */
  lemma StepTook(cfg: Config, p: Parser, ch: Byte)
    requires Ready(p) && StepByte(cfg, p, ch).ret == 0
    ensures var cl := Classify(p.utf8Left, ch);
            cl.ret == 0 && Transition(p.state, cl.cls) != REJECT
  {
    hide Classify, Transition, Advance, Move;
  }

  lemma PushTook(cfg: Config, p: Parser, ch: Byte)
    requires Sized(cfg, p) && BufferPush(cfg, p, ch).ret == 0
    ensures var o := BufferPush(cfg, p, ch);
            Grew(p, o.p, [ch]) && Sized(cfg, o.p)
  {
  }

  /** A byte that was buffered on the way to a plain state. */
  lemma AppendTook(cfg: Config, p: Parser, ch: Byte, left: nat, c: Class, t: State)
    requires Ready(p) && Sized(cfg, p) && StepByte(cfg, p, ch).ret == 0
    requires Classify(p.utf8Left, ch) == Classified(left, c, 0)
    requires Transition(p.state, c) == t && BufferPolicy(p.state, c) == Append
    ensures var o := StepByte(cfg, p, ch);
            Grew(p.(state := t, utf8Left := left), o.p, [ch]) && Sized(cfg, o.p)
  {
    StepTakes(cfg, p, ch, left, c, t, Append);
    hide StepByte, Transition, BufferPolicy, Classify;
    PushTook(cfg, p.(utf8Left := left), ch);
    hide BufferPush;
  }

  /** A buffered byte whose action only sets the state and the type. */
  lemma NumberActionTook(cfg: Config, p: Parser, ch: Byte, c: Class, a: Action)
    requires Ready(p) && Sized(cfg, p) && p.utf8Left == 0 && StepByte(cfg, p, ch).ret == 0
    requires Classify(0, ch) == Classified(0, c, 0)
    requires Transition(p.state, c) == a && BufferPolicy(p.state, c) == Append
    requires a == ACT_MX || a == ACT_ZX || a == ACT_IX || a == ACT_DE || a == ACT_DF
    ensures var o := StepByte(cfg, p, ch);
            Grew(p.(state := ActionState(p.state, a), kind := ActionKind(a)), o.p, [ch]) && Sized(cfg, o.p)
  {
    StepTakes(cfg, p, ch, 0, c, a, Append);
    hide StepByte, Transition, BufferPolicy, Classify;
    PushTook(cfg, p, ch);
    hide BufferPush;
  }

  // ---------------------------------------------------------------- from rest

  predicate IsNumberStart(ch: Byte) { ch == 0x2d || IsDigit(ch) }
  predicate IsNameStart(ch: Byte) { ch == 0x66 || ch == 0x6e || ch == 0x74 }

  /** The bytes a structural state does not reject. */
  lemma RestAllows(s: State, ch: Byte)
    requires IsStructural(s)
    requires Classify(0, ch).ret == 0 && Transition(s, Classify(0, ch).cls) != REJECT
    ensures RestReads(s, ch)
  {
  }

  predicate RestReads(s: State, ch: Byte) {
    || IsWhite(ch) || ch == SLASH || ch == HASH
    || ((ch == LCURB || ch == LSQRB) && (s == STATE_GO || ValueExpected(s)))
    || (ch == RCURB && (s == STATE_OK || s == STATE_O))
    || (ch == RSQRB && (s == STATE_OK || s == STATE_A))
    || (ch == COMMA && s == STATE_OK)
    || (ch == COLON && s == STATE_CO)
    || (ch == QUOTE && (KeyExpected(s) || ValueExpected(s)))
    || ((IsNumberStart(ch) || IsNameStart(ch)) && ValueExpected(s))
  }

  lemma RestTook(cfg: Config, p: Parser, ch: Byte)
    requires IsStructural(p.state) && p.utf8Left == 0 && StepByte(cfg, p, ch).ret == 0
    ensures RestReads(p.state, ch)
  {
    StepTook(cfg, p, ch);
    hide StepByte, Transition, Classify;
    RestAllows(p.state, ch);
  }

  lemma OpenTook(cfg: Config, p: Parser, c: Control, ch: Byte)
    requires Rests(p, c) && Limited(cfg, p) && Sized(cfg, p) && StepByte(cfg, p, ch).ret == 0
    requires (ch == LCURB || ch == LSQRB) && (c.state == STATE_GO || ValueExpected(c.state))
    ensures var o := StepByte(cfg, p, ch);
            && TokenStep(cfg.maxNesting, c, TPunct(ch)).Some?
            && Rests(o.p, TokenStep(cfg.maxNesting, c, TPunct(ch)).value) && Limited(cfg, o.p) && Sized(cfg, o.p)
  {
    var t := if ch == LCURB then ACT_OB else ACT_AB;
    hide StepByte;
    StepTakes(cfg, p, ch, 0, CharacterClass(ch), t, Ignore);
    hide Transition, BufferPolicy, Classify, CharacterClass;
    assert p.log + [] == p.log;
  }

  lemma FlushTook(cfg: Config, p: Parser)
    requires DoBuffer(cfg, p).ret == 0
    ensures DoBuffer(cfg, p).p == p.(log := p.log + Pending(p), buffer := [])
  {
    assert p.log + [] == p.log;
  }

  lemma CloseTook(cfg: Config, p: Parser, c: Control, ch: Byte)
    requires Rests(p, c) && Limited(cfg, p) && Sized(cfg, p) && StepByte(cfg, p, ch).ret == 0
    requires (ch == RCURB && (c.state == STATE_OK || c.state == STATE_O))
             || (ch == RSQRB && (c.state == STATE_OK || c.state == STATE_A))
    ensures var o := StepByte(cfg, p, ch);
            && TokenStep(cfg.maxNesting, c, TPunct(ch)).Some?
            && Rests(o.p, TokenStep(cfg.maxNesting, c, TPunct(ch)).value) && Limited(cfg, o.p) && Sized(cfg, o.p)
  {
    var t := if ch == RCURB then ACT_OE else ACT_AE;
    hide StepByte;
    StepTakes(cfg, p, ch, 0, CharacterClass(ch), t, Ignore);
    hide Transition, BufferPolicy, Classify, CharacterClass;
    FlushTook(cfg, p);
    hide DoBuffer;
  }

  lemma MarkTook(cfg: Config, p: Parser, c: Control, ch: Byte)
    requires Rests(p, c) && Limited(cfg, p) && Sized(cfg, p) && StepByte(cfg, p, ch).ret == 0
    requires (ch == COMMA && c.state == STATE_OK) || (ch == COLON && c.state == STATE_CO)
    ensures var o := StepByte(cfg, p, ch);
            && TokenStep(cfg.maxNesting, c, TPunct(ch)).Some?
            && Rests(o.p, TokenStep(cfg.maxNesting, c, TPunct(ch)).value) && Limited(cfg, o.p) && Sized(cfg, o.p)
  {
    var t := if ch == COMMA then ACT_SP else ACT_KS;
    hide StepByte;
    StepTakes(cfg, p, ch, 0, CharacterClass(ch), t, Ignore);
    hide Transition, BufferPolicy, Classify, CharacterClass;
    FlushTook(cfg, p);
    hide DoBuffer;
  }

  /** A comment can begin at rest, and at the end of a number without exponent. */
  lemma CommentTook(cfg: Config, p: Parser, c: Control, ch: Byte)
    requires Between(p, c) && Limited(cfg, p) && Sized(cfg, p) && StepByte(cfg, p, ch).ret == 0
    requires (ch == SLASH || ch == HASH) && p.state != STATE_X3
    ensures var o := StepByte(cfg, p, ch);
            && Limited(cfg, o.p) && Sized(cfg, o.p)
            && PieceAt(cfg, o.p, if ch == SLASH then PSlash else PLine([], []), c)
  {
    var t := if ch == SLASH then ACT_CB else ACT_YB;
    hide StepByte;
    StepTakes(cfg, p, ch, 0, CharacterClass(ch), t, Ignore);
    hide Transition, BufferPolicy, Classify, CharacterClass;
    FlushTook(cfg, p);
    hide DoBuffer;
  }

  /** At rest and in comments, the last lexeme is not a number with an exponent. */
  predicate Settled(sc: Scan) {
    sc.piece.PStr? || sc.piece.PNum? || sc.piece.PName? || !EndsInExponent(sc.ls)
  }

  /** The step invariant: what a step from `sc` to `sc'` over `ch` owes. */
  predicate Follows(cfg: Config, sc: Scan, ch: Byte, p': Parser, sc': Scan) {
    Tracks(cfg, p', sc') && Settled(sc') && ScanText(sc') == ScanText(sc) + [ch]
  }

  lemma FromRestSpace(cfg: Config, p: Parser, sc: Scan, ch: Byte) returns (sc': Scan)
    requires Tracks(cfg, p, sc) && sc.piece == Nothing && StepByte(cfg, p, ch).ret == 0
    requires IsWhite(ch)
    ensures Follows(cfg, sc, ch, StepByte(cfg, p, ch).p, sc')
  {
    hide StepByte;
    SpaceStep(cfg, p, sc.c, ch);
    LexemeStepIs(cfg.maxNesting, sc.c, Space(ch));
    hide Rests, LexemesRead, LexemeStep;
    AddLexeme(cfg, sc.ls, Space(ch), sc.c);
    sc' := Scan(sc.ls + [Space(ch)], Nothing, sc.c);
  }

  lemma FromRestPunct(cfg: Config, p: Parser, sc: Scan, ch: Byte) returns (sc': Scan)
    requires Tracks(cfg, p, sc) && sc.piece == Nothing && StepByte(cfg, p, ch).ret == 0
    requires IsStructuralChar(ch)
    ensures Follows(cfg, sc, ch, StepByte(cfg, p, ch).p, sc')
  {
    hide StepByte;
    RestTook(cfg, p, ch);
    hide LexemesRead, Follows;
    if ch == LCURB || ch == LSQRB {
      OpenTook(cfg, p, sc.c, ch);
    } else if ch == RCURB || ch == RSQRB {
      CloseTook(cfg, p, sc.c, ch);
    } else {
      MarkTook(cfg, p, sc.c, ch);
    }
    hide Rests, TokenStep, Sized, Limited, RestReads;
    sc' := PunctRead(cfg, StepByte(cfg, p, ch).p, sc, ch);
  }

  lemma PunctRead(cfg: Config, q: Parser, sc: Scan, ch: Byte) returns (sc': Scan)
    requires LexemesRead(cfg, sc.ls, sc.c) && IsStructuralChar(ch) && sc.piece == Nothing
    requires TokenStep(cfg.maxNesting, sc.c, TPunct(ch)).Some?
    requires Rests(q, TokenStep(cfg.maxNesting, sc.c, TPunct(ch)).value) && Limited(cfg, q) && Sized(cfg, q)
    ensures Follows(cfg, sc, ch, q, sc')
  {
    LexemeStepIs(cfg.maxNesting, sc.c, Punct(ch));
    hide Rests, LexemesRead, LexemeStep, TokenStep, Sized, Limited;
    AddLexeme(cfg, sc.ls, Punct(ch), sc.c);
    sc' := Scan(sc.ls + [Punct(ch)], Nothing, LexemeStep(cfg.maxNesting, sc.c, Punct(ch)).value);
  }

  /** Bytes that begin a longer lexeme. */
  lemma FromRestBegin(cfg: Config, p: Parser, sc: Scan, ch: Byte) returns (sc': Scan)
    requires Tracks(cfg, p, sc) && sc.piece == Nothing && StepByte(cfg, p, ch).ret == 0
    requires !IsWhite(ch) && !IsStructuralChar(ch) && Settled(sc)
    ensures Follows(cfg, sc, ch, StepByte(cfg, p, ch).p, sc')
  {
    hide StepByte, LexemesRead, ScanText;
    RestTook(cfg, p, ch);
    if ch == SLASH || ch == HASH {
      CommentTook(cfg, p, sc.c, ch);
      sc' := sc.(piece := if ch == SLASH then PSlash else PLine([], []));
    } else if ch == QUOTE {
      BeginString(cfg, p, sc.c);
      sc' := sc.(piece := PStr([], Idle));
    } else if IsNumberStart(ch) {
      var n := BeginNumber(cfg, p, sc.c, ch);
      sc' := sc.(piece := PNum(n));
    } else {
      var piece := BeginName(cfg, p, sc.c, ch);
      sc' := sc.(piece := piece);
    }
    hide PieceAt, Rests;
    assert PieceText(sc'.piece) == [ch];
    ScanBegins(sc, sc', ch);
  }

  lemma ScanBegins(sc: Scan, sc': Scan, ch: Byte)
    requires sc.piece == Nothing && sc'.ls == sc.ls && PieceText(sc'.piece) == [ch]
    ensures ScanText(sc') == ScanText(sc) + [ch]
  {
  }

  lemma BeginString(cfg: Config, p: Parser, c: Control)
    requires Rests(p, c) && Limited(cfg, p) && Sized(cfg, p) && StepByte(cfg, p, QUOTE).ret == 0
    requires KeyExpected(c.state) || ValueExpected(c.state)
    ensures var o := StepByte(cfg, p, QUOTE);
            PieceAt(cfg, o.p, PStr([], Idle), c) && Limited(cfg, o.p) && Sized(cfg, o.p)
  {
    hide StepByte;
    SkipStep(cfg, p, QUOTE, C_QUOTE, STATE_S);
    assert p.log + [] == p.log;
  }

  lemma BeginNumber(cfg: Config, p: Parser, c: Control, ch: Byte) returns (n: Number)
    requires Rests(p, c) && Limited(cfg, p) && Sized(cfg, p) && StepByte(cfg, p, ch).ret == 0
    requires IsNumberStart(ch) && ValueExpected(c.state)
    ensures var o := StepByte(cfg, p, ch);
            PieceAt(cfg, o.p, PNum(n), c) && Limited(cfg, o.p) && Sized(cfg, o.p)
    ensures NumberText(n) == [ch]
  {
    n := Number(ch == 0x2d, if ch == 0x2d then [] else [ch], None, None);
    hide StepByte;
    var a := if ch == 0x2d then ACT_MX else if ch == 0x30 then ACT_ZX else ACT_IX;
    NumberActionTook(cfg, p, ch, CharacterClass(ch), a);
    hide Transition, BufferPolicy, CharacterClass, Classify;
    assert p.log + [] == p.log;
    assert p.buffer + [ch] == [ch];
  }

  lemma BeginName(cfg: Config, p: Parser, c: Control, ch: Byte) returns (piece: Piece)
    requires Rests(p, c) && Limited(cfg, p) && Sized(cfg, p) && StepByte(cfg, p, ch).ret == 0
    requires IsNameStart(ch) && ValueExpected(c.state)
    ensures var o := StepByte(cfg, p, ch);
            PieceAt(cfg, o.p, piece, c) && Limited(cfg, o.p) && Sized(cfg, o.p)
    ensures PieceText(piece) == [ch]
  {
    hide StepByte;
    var kind := if ch == 0x66 then JsonFalse else if ch == 0x74 then JsonTrue else JsonNull;
    SkipStep(cfg, p, ch, CharacterClass(ch), NameState(kind, 1));
    hide Transition, BufferPolicy, CharacterClass, Classify;
    assert p.log + [] == p.log;
    piece := PName(kind, 1);
  }

  lemma FromRest(cfg: Config, p: Parser, sc: Scan, ch: Byte) returns (sc': Scan)
    requires Tracks(cfg, p, sc) && sc.piece == Nothing && StepByte(cfg, p, ch).ret == 0
    requires Settled(sc) || IsDelimiter(ch)
    ensures Follows(cfg, sc, ch, StepByte(cfg, p, ch).p, sc')
  {
    hide StepByte, Tracks, Follows;
    if IsWhite(ch) {
      sc' := FromRestSpace(cfg, p, sc, ch);
    } else if IsStructuralChar(ch) {
      sc' := FromRestPunct(cfg, p, sc, ch);
    } else {
      sc' := FromRestBegin(cfg, p, sc, ch);
    }
  }

  // ---------------------------------------------------------------- numbers

  predicate IsNumberByte(s: State, ch: Byte) {
    || (IsDigit(ch) && s != STATE_Z0)
    || (ch == 0x2e && (s == STATE_Z0 || s == STATE_I0))
    || (IsMark(ch) && (s == STATE_I0 || s == STATE_R2))
    || ((ch == 0x2b || ch == 0x2d) && s == STATE_X1)
  }

  predicate IsNumberState(s: State) { STATE_M0 <= s <= STATE_X3 }

  /** The bytes a number does not reject: its own, and at its end those that may follow a value. */
  lemma NumberAllows(s: State, ch: Byte)
    requires IsNumberState(s)
    requires Classify(0, ch).ret == 0 && Transition(s, Classify(0, ch).cls) != REJECT
    ensures IsNumberByte(s, ch)
            || (IsNumberEnd(s) && (IsDelimiter(ch) || ((ch == SLASH || ch == HASH) && s != STATE_X3)))
  {
  }

  /** The number with one more byte, and the state it is then in. */
  function Extend(n: Number, s: State, ch: Byte): Number
    requires IsNumberByte(s, ch) && NumberAt(n, s)
  {
    if IsDigit(ch) then
      if s == STATE_M0 || s == STATE_I0 then n.(whole := n.whole + [ch])
      else if s == STATE_R1 || s == STATE_R2 then n.(frac := Some(n.frac.value + [ch]))
      else n.(exp := Some(n.exp.value.(power := n.exp.value.power + [ch])))
    else if ch == 0x2e then n.(frac := Some([]))
    else if IsMark(ch) then n.(exp := Some(Exponent(ch, [], [])))
    else n.(exp := Some(n.exp.value.(sign := [ch])))
  }

  function ExtendState(s: State, ch: Byte): State {
    if IsDigit(ch) then AfterDigit(s, ch)
    else if ch == 0x2e then STATE_R1
    else if IsMark(ch) then STATE_X1
    else STATE_X2
  }

  lemma ExtendIs(n: Number, s: State, ch: Byte)
    requires NumberAt(n, s) && IsNumberByte(s, ch)
    ensures NumberAt(Extend(n, s, ch), ExtendState(s, ch))
    ensures NumberText(Extend(n, s, ch)) == NumberText(n) + [ch]
    ensures NumberKind(Extend(n, s, ch)) == if ch == 0x2e || IsMark(ch) then JsonFloat else NumberKind(n)
  {
    if IsDigit(ch) {
      if s == STATE_M0 || s == STATE_I0 { ExtendWhole(n, s, ch); }
      else if s == STATE_R1 || s == STATE_R2 { ExtendFrac(n, s, ch); }
      else { ExtendPower(n, s, ch); }
    } else {
      ExtendOther(n, s, ch);
    }
    hide NumberAt, NumberText, IsNumberByte, NumberKind;
  }

  lemma ExtendWhole(n: Number, s: State, ch: Byte)
    requires NumberAt(n, s) && IsDigit(ch) && (s == STATE_M0 || s == STATE_I0)
    ensures var m := n.(whole := n.whole + [ch]);
            NumberAt(m, AfterDigit(s, ch)) && NumberText(m) == NumberText(n) + [ch]
  {
    var whole := n.whole + [ch];
    assert |whole| == |n.whole| + 1 && whole[|n.whole|] == ch;
    assert s == STATE_I0 ==> |n.whole| > 0 && whole[0] == n.whole[0];
  }

  lemma ExtendFrac(n: Number, s: State, ch: Byte)
    requires NumberAt(n, s) && IsDigit(ch) && (s == STATE_R1 || s == STATE_R2)
    ensures var m := n.(frac := Some(n.frac.value + [ch]));
            NumberAt(m, STATE_R2) && NumberText(m) == NumberText(n) + [ch]
  {
    hide IsWhole;
  }

  lemma ExtendPower(n: Number, s: State, ch: Byte)
    requires NumberAt(n, s) && IsDigit(ch) && (s == STATE_X1 || s == STATE_X2 || s == STATE_X3)
    ensures var m := n.(exp := Some(n.exp.value.(power := n.exp.value.power + [ch])));
            NumberAt(m, STATE_X3) && NumberText(m) == NumberText(n) + [ch]
  {
    hide IsWhole;
  }

  lemma ExtendOther(n: Number, s: State, ch: Byte)
    requires NumberAt(n, s) && IsNumberByte(s, ch) && !IsDigit(ch)
    ensures NumberAt(Extend(n, s, ch), ExtendState(s, ch))
    ensures NumberText(Extend(n, s, ch)) == NumberText(n) + [ch]
  {
    hide IsWhole;
  }

  lemma NumberByteTook(cfg: Config, p: Parser, ch: Byte)
    requires Sized(cfg, p) && IsNumberState(p.state) && p.utf8Left == 0 && IsNumberByte(p.state, ch)
    requires StepByte(cfg, p, ch).ret == 0
    requires p.state == STATE_R2 ==> p.kind == JsonFloat
    ensures var o := StepByte(cfg, p, ch);
            && Sized(cfg, o.p)
            && Grew(p.(state := ExtendState(p.state, ch),
                       kind := if ch == 0x2e || IsMark(ch) then JsonFloat else p.kind), o.p, [ch])
  {
    hide StepByte;
    if ch == 0x2e {
      NumberActionTook(cfg, p, ch, CharacterClass(ch), ACT_DF);
    } else if IsMark(ch) && p.state == STATE_I0 {
      NumberActionTook(cfg, p, ch, CharacterClass(ch), ACT_DE);
    } else {
      AppendTook(cfg, p, ch, 0, CharacterClass(ch), ExtendState(p.state, ch));
    }
  }

  lemma GrowNumber(cfg: Config, p: Parser, sc: Scan, ch: Byte) returns (sc': Scan)
    requires Tracks(cfg, p, sc) && sc.piece.PNum? && StepByte(cfg, p, ch).ret == 0
    requires IsNumberByte(p.state, ch)
    ensures Follows(cfg, sc, ch, StepByte(cfg, p, ch).p, sc')
  {
    hide StepByte, LexemesRead;
    var n := sc.piece.number;
    ExtendIs(n, p.state, ch);
    NumberByteTook(cfg, p, ch);
    hide NumberAt, NumberText, Extend, ExtendState;
    sc' := sc.(piece := PNum(Extend(n, p.state, ch)));
  }

  /** At the end of a number the parser stands as if it had read the number as a lexeme. */
  lemma FinishNumber(cfg: Config, p: Parser, sc: Scan) returns (sc': Scan)
    requires Tracks(cfg, p, sc) && sc.piece.PNum? && IsNumberEnd(p.state)
    ensures Tracks(cfg, p.(state := STATE_OK), sc') && sc'.piece == Nothing && ScanText(sc') == ScanText(sc)
    ensures Between(p, sc'.c) && (p.state != STATE_X3 ==> Settled(sc'))
  {
    hide LexemesRead, NumberText, NumberAt, IsNumber, LexemeStep, TokenStep, Text, Rests, Limited, Sized, Stands;
    var n := sc.piece.number;
    var l := NumLex(n);
    NumberRests(cfg, p, sc.c, n);
    LexemeStepIs(cfg.maxNesting, sc.c, l);
    AddLexeme(cfg, sc.ls, l, sc.c);
    sc' := Scan(sc.ls + [l], Nothing, LexemeStep(cfg.maxNesting, sc.c, l).value);
    assert Text(sc'.ls) + [] == Text(sc'.ls);
  }

  lemma NumberRests(cfg: Config, p: Parser, c: Control, n: Number)
    requires Stands(p, c) && ValueExpected(c.state) && InNumber(p, n) && IsNumberEnd(p.state)
    requires Limited(cfg, p) && Sized(cfg, p)
    ensures IsNumber(n) && IsNumberKind(p.kind) && TokenStep(cfg.maxNesting, c, TNum(n)).Some?
    ensures cfg.maxData == 0 || |NumberText(n)| < cfg.maxData
    ensures p.state != STATE_X3 ==> n.exp.None?
    ensures var q := p.(state := STATE_OK);
            Rests(q, TokenStep(cfg.maxNesting, c, TNum(n)).value) && Limited(cfg, q) && Sized(cfg, q)
  {
    hide NumberText, AreDigits, IsWhole;
  }

  lemma EndNumber(cfg: Config, p: Parser, sc: Scan, ch: Byte) returns (sc': Scan)
    requires IsNumberEnd(p.state) && StepByte(cfg, p, ch).ret == 0
    requires Tracks(cfg, p, sc) && sc.piece.PNum? && (IsDelimiter(ch) || ((ch == SLASH || ch == HASH)
            && p.state != STATE_X3))
    ensures Follows(cfg, sc, ch, StepByte(cfg, p, ch).p, sc')
  {
    hide StepByte;
    var done := FinishNumber(cfg, p, sc);
    if IsDelimiter(ch) {
      assert p.utf8Left == 0;
      hide Tracks, Between;
      NumberEndsLike(cfg, p, ch);
      sc' := FromRest(cfg, p.(state := STATE_OK), done, ch);
    } else {
      hide LexemesRead, Between;
      CommentTook(cfg, p, done.c, ch);
      hide PieceAt;
      sc' := done.(piece := if ch == SLASH then PSlash else PLine([], []));
      assert PieceText(sc'.piece) == [ch];
    }
  }

  lemma FromNumber(cfg: Config, p: Parser, sc: Scan, ch: Byte) returns (sc': Scan)
    requires Tracks(cfg, p, sc) && sc.piece.PNum? && StepByte(cfg, p, ch).ret == 0
    ensures Follows(cfg, sc, ch, StepByte(cfg, p, ch).p, sc')
  {
    StepTook(cfg, p, ch);
    assert p.utf8Left == 0 && IsNumberState(p.state);
    NumberAllows(p.state, ch);
    hide StepByte, Tracks, Follows, Transition, Classify;
    if IsNumberByte(p.state, ch) {
      sc' := GrowNumber(cfg, p, sc, ch);
    } else {
      sc' := EndNumber(cfg, p, sc, ch);
    }
  }

  // ---------------------------------------------------------------- names

  lemma NameAllows(kind: JsonType, k: nat, ch: Byte)
    requires IsName(kind) && 1 <= k < |NameText(kind)|
    requires Classify(0, ch).ret == 0 && Transition(NameState(kind, k), Classify(0, ch).cls) != REJECT
    ensures ch == NameText(kind)[k]
  {
  }

  lemma NameByteTook(cfg: Config, p: Parser, kind: JsonType, k: nat)
    requires IsName(kind) && 1 <= k < |NameText(kind)| && p.utf8Left == 0
    requires p.state == NameState(kind, k) && p.kind == JsonNone
    ensures StepByte(cfg, p, NameText(kind)[k])
            == Outcome(p.(state := NameState(kind, k + 1),
                          kind := if k + 1 == |NameText(kind)| then kind else JsonNone), 0)
  {
    hide StepByte;
    var ch := NameText(kind)[k];
    if k + 1 < |NameText(kind)| {
      SkipStep(cfg, p, ch, CharacterClass(ch), NameState(kind, k + 1));
    } else {
      NameEnds(cfg, p, ch, if kind == JsonTrue then ACT_TR else if kind == JsonFalse then ACT_FA else ACT_NU);
    }
  }

  lemma NameTook(cfg: Config, p: Parser, kind: JsonType, k: nat, ch: Byte)
    requires IsName(kind) && 1 <= k < |NameText(kind)| && p.utf8Left == 0
    requires p.state == NameState(kind, k) && p.kind == JsonNone && StepByte(cfg, p, ch).ret == 0
    ensures ch == NameText(kind)[k]
    ensures StepByte(cfg, p, ch).p == p.(state := NameState(kind, k + 1),
                                         kind := if k + 1 == |NameText(kind)| then kind else JsonNone)
  {
    hide StepByte;
    StepTook(cfg, p, ch);
    NameAllows(kind, k, ch);
    hide Transition, Classify;
    NameByteTook(cfg, p, kind, k);
  }

  /** The last letter of a name makes it a lexeme. */
  lemma NameRead(cfg: Config, p: Parser, sc: Scan, kind: JsonType) returns (sc': Scan)
    requires LexemesRead(cfg, sc.ls, sc.c) && Stands(p, sc.c) && ValueExpected(sc.c.state) && IsName(kind) && AtWord(p)
    requires Limited(cfg, p) && Sized(cfg, p)
    ensures Tracks(cfg, p.(state := STATE_OK, kind := kind), sc') && Settled(sc')
            && ScanText(sc') == Text(sc.ls) + NameText(kind)
  {
    hide LexemeStep, LexemesRead, NameText, TokenStep, Stands, Text, AtWord, Limited, Sized, Rests;
    var l := NameLex(kind);
    LexemeStepIs(cfg.maxNesting, sc.c, l);
    NameRests(cfg, p, sc.c, kind);
    AddLexeme(cfg, sc.ls, l, sc.c);
    sc' := Scan(sc.ls + [l], Nothing, LexemeStep(cfg.maxNesting, sc.c, l).value);
    assert Text(sc'.ls) + [] == Text(sc'.ls);
  }

  lemma NameRests(cfg: Config, p: Parser, c: Control, kind: JsonType)
    requires Stands(p, c) && ValueExpected(c.state) && IsName(kind) && AtWord(p) && Limited(cfg, p) && Sized(cfg, p)
    ensures TokenStep(cfg.maxNesting, c, TName(kind)).Some?
    ensures var q := p.(state := STATE_OK, kind := kind);
            Rests(q, TokenStep(cfg.maxNesting, c, TName(kind)).value) && Limited(cfg, q) && Sized(cfg, q)
  {
  }

  lemma FromName(cfg: Config, p: Parser, sc: Scan, ch: Byte) returns (sc': Scan)
    requires Tracks(cfg, p, sc) && sc.piece.PName? && StepByte(cfg, p, ch).ret == 0
    ensures Follows(cfg, sc, ch, StepByte(cfg, p, ch).p, sc')
  {
    hide StepByte, LexemesRead;
    var PName(kind, k) := sc.piece;
    NameTook(cfg, p, kind, k, ch);
    assert NameText(kind)[..k] + [ch] == NameText(kind)[..k + 1];
    if k + 1 < |NameText(kind)| {
      sc' := sc.(piece := PName(kind, k + 1));
    } else {
      assert NameText(kind)[..k + 1] == NameText(kind) && NameState(kind, k + 1) == STATE_OK;
      sc' := NameRead(cfg, p, sc, kind);
      hide Tracks, NameText, NameState;
      assert ScanText(sc') == ScanText(sc) + [ch];
    }
  }

  // ---------------------------------------------------------------- strings

  /** Adding a complete unit to a string. */
  lemma AddUnit(units: seq<StrUnit>, u: StrUnit)
    requires AreUnits(units) && IsUnit(u)
    ensures AreUnits(units + [u])
    ensures UnitsText(units + [u]) == UnitsText(units) + UnitText(u)
    ensures UnitsValue(units + [u]) == UnitsValue(units) + UnitValue(u)
    ensures UnitsPeak(units + [u]) == Max(UnitsPeak(units), |UnitsValue(units)| + UnitPeak(u))
  {
    hide IsUnit, UnitText, UnitValue, UnitPeak, AreUnits;
    UnitsSnoc(units, u);
    var us := units + [u];
    assert us[..|units|] == units && us[|units|] == u;
  }

  lemma UnitsSnoc(units: seq<StrUnit>, u: StrUnit)
    requires AreUnits(units) && IsUnit(u)
    ensures AreUnits(units + [u])
  {
    hide IsUnit;
  }

  predicate StrScan(cfg: Config, p: Parser, sc: Scan, tail: Tail) {
    Tracks(cfg, p, sc) && sc.piece.PStr? && sc.piece.tail == tail
  }

  /** The string goes on with an unfinished unit. */
  lemma NextTail(cfg: Config, p: Parser, p': Parser, sc: Scan, tail: Tail, ch: Byte) returns (sc': Scan)
    requires Tracks(cfg, p, sc) && sc.piece.PStr?
    requires TailOk(tail) && TailText(tail) == TailText(sc.piece.tail) + [ch]
    requires Sized(cfg, p')
    requires p' == p.(state := TailState(tail), utf8Left := TailLeft(tail), unicodeMulti := TailHigh(tail),
                      buffer := UnitsValue(sc.piece.units) + TailBuffer(tail), bufferSize := p'.bufferSize)
    ensures Follows(cfg, sc, ch, p', sc')
  {
    hide LexemesRead, TailOk, TailText, TailState, TailLeft, TailHigh, TailBuffer, UnitsValue, UnitsText;
    sc' := sc.(piece := PStr(sc.piece.units, tail));
    assert [QUOTE] + UnitsText(sc.piece.units) + TailText(tail)
        == [QUOTE] + UnitsText(sc.piece.units) + TailText(sc.piece.tail) + [ch];
  }

  /** A unit of the string is complete. */
  lemma NextUnit(cfg: Config, p: Parser, p': Parser, sc: Scan, u: StrUnit, ch: Byte) returns (sc': Scan)
    requires Tracks(cfg, p, sc) && sc.piece.PStr?
    requires IsUnit(u) && UnitText(u) == TailText(sc.piece.tail) + [ch]
    requires Sized(cfg, p') && (cfg.maxData == 0 || |UnitsValue(sc.piece.units)| + UnitPeak(u) < cfg.maxData)
    requires p' == p.(state := STATE_S, utf8Left := 0, unicodeMulti := 0,
                      buffer := UnitsValue(sc.piece.units) + UnitValue(u), bufferSize := p'.bufferSize)
    ensures Follows(cfg, sc, ch, p', sc')
  {
    hide LexemesRead, TailText, UnitsValue, UnitsText, UnitText, UnitValue, IsUnit, UnitPeak, UnitsPeak;
    var units := sc.piece.units;
    AddUnit(units, u);
    sc' := sc.(piece := PStr(units + [u], Idle));
    assert TailText(Idle) == [] by { NoTail(); }
    assert UnitsValue(units + [u]) + [] == UnitsValue(units + [u]);
    assert [QUOTE] + (UnitsText(units) + UnitText(u)) + []
        == [QUOTE] + UnitsText(units) + TailText(sc.piece.tail) + [ch];
  }

  lemma NoTail()
    ensures TailText(Idle) == []
  {
  }

  lemma EndString(cfg: Config, p: Parser, sc: Scan) returns (sc': Scan)
    requires StrScan(cfg, p, sc, Idle) && StepByte(cfg, p, QUOTE).ret == 0
    ensures Follows(cfg, sc, QUOTE, StepByte(cfg, p, QUOTE).p, sc')
  {
    hide StepByte, LexemesRead, UnitsValue, UnitsText, UnitsPeak;
    StepTakes(cfg, p, QUOTE, 0, C_QUOTE, ACT_SE, Ignore);
    hide Transition, BufferPolicy, Classify, Move;
    StringRead(cfg, p, sc.c, StepByte(cfg, p, QUOTE).p, sc.piece.units);
    hide Rests, TokenStep, Stands;
    sc' := StringDone(cfg, StepByte(cfg, p, QUOTE).p, sc);
  }

  lemma StringDone(cfg: Config, q: Parser, sc: Scan) returns (sc': Scan)
    requires LexemesRead(cfg, sc.ls, sc.c) && sc.piece.PStr? && sc.piece.tail == Idle && AreUnits(sc.piece.units)
    requires cfg.maxData == 0 || UnitsPeak(sc.piece.units) < cfg.maxData
    requires TokenStep(cfg.maxNesting, sc.c, TStr(UnitsValue(sc.piece.units))).Some?
    requires Rests(q, TokenStep(cfg.maxNesting, sc.c, TStr(UnitsValue(sc.piece.units))).value)
    requires Limited(cfg, q) && Sized(cfg, q)
    ensures Follows(cfg, sc, QUOTE, q, sc')
  {
    hide LexemesRead, UnitsValue, UnitsText, UnitsPeak, Rests, TokenStep, LexemeStep, Limited, Sized;
    var l := StrLex(sc.piece.units);
    LexemeStepIs(cfg.maxNesting, sc.c, l);
    AddLexeme(cfg, sc.ls, l, sc.c);
    sc' := Scan(sc.ls + [l], Nothing, LexemeStep(cfg.maxNesting, sc.c, l).value);
    assert [QUOTE] + UnitsText(sc.piece.units) + [] + [QUOTE] == LexemeText(l);
  }

  lemma StringRead(cfg: Config, p: Parser, c: Control, q: Parser, units: seq<StrUnit>)
    requires Stands(p, c) && (KeyExpected(c.state) || ValueExpected(c.state)) && InString(cfg, p, units, Idle)
    requires Move(cfg, p, ACT_SE) == Outcome(q, 0) && Limited(cfg, p) && Sized(cfg, p)
    ensures TokenStep(cfg.maxNesting, c, TStr(UnitsValue(units))).Some?
    ensures Rests(q, TokenStep(cfg.maxNesting, c, TStr(UnitsValue(units))).value) && Limited(cfg, q) && Sized(cfg, q)
  {
    hide UnitsValue, UnitsPeak;
    assert UnitsValue(units) + [] == UnitsValue(units);
    assert c.events + [] == c.events;
  }

  /** Inside a string, between units. */
  lemma FromIdle(cfg: Config, p: Parser, sc: Scan, ch: Byte) returns (sc': Scan)
    requires StrScan(cfg, p, sc, Idle) && StepByte(cfg, p, ch).ret == 0
    ensures Follows(cfg, sc, ch, StepByte(cfg, p, ch).p, sc')
  {
    hide StepByte, LexemesRead, UnitsPeak, Follows, UnitsValue;
    StepTook(cfg, p, ch);
    assert p.buffer == UnitsValue(sc.piece.units);
    if ch == QUOTE {
      sc' := EndString(cfg, p, sc);
    } else if ch == BACKSLASH {
      SkipStep(cfg, p, ch, C_BACKS, STATE_E0);
      sc' := NextTail(cfg, p, StepByte(cfg, p, ch).p, sc, InEscape, ch);
    } else {
      var cl := Classify(0, ch);
      AppendTook(cfg, p, ch, cl.left, cl.cls, STATE_S);
      hide Transition, BufferPolicy;
      if cl.left == 0 {
        sc' := NextUnit(cfg, p, StepByte(cfg, p, ch).p, sc, Raw([ch]), ch);
      } else {
        sc' := NextTail(cfg, p, StepByte(cfg, p, ch).p, sc, InGroup([ch]), ch);
      }
    }
  }

  /** Inside an encoded character of a string. */
  lemma FromGroup(cfg: Config, p: Parser, sc: Scan, part: Bytes, ch: Byte) returns (sc': Scan)
    requires StrScan(cfg, p, sc, InGroup(part)) && StepByte(cfg, p, ch).ret == 0
    ensures Follows(cfg, sc, ch, StepByte(cfg, p, ch).p, sc')
  {
    hide StepByte, LexemesRead, UnitsPeak;
    StepTook(cfg, p, ch);
    AppendTook(cfg, p, ch, p.utf8Left - 1, C_OTHER, STATE_S);
    hide Transition, BufferPolicy;
    var q := StepByte(cfg, p, ch).p;
    assert UnitsValue(sc.piece.units) + part + [ch] == UnitsValue(sc.piece.units) + (part + [ch]);
    if p.utf8Left == 1 {
      sc' := NextUnit(cfg, p, q, sc, Raw(part + [ch]), ch);
    } else {
      sc' := NextTail(cfg, p, q, sc, InGroup(part + [ch]), ch);
    }
  }

  /** After a backslash. */
  lemma FromEscape(cfg: Config, p: Parser, sc: Scan, ch: Byte) returns (sc': Scan)
    requires StrScan(cfg, p, sc, InEscape) && StepByte(cfg, p, ch).ret == 0
    ensures Follows(cfg, sc, ch, StepByte(cfg, p, ch).p, sc')
  {
    hide StepByte, LexemesRead, UnitsPeak, Follows, UnitsValue;
    StepTook(cfg, p, ch);
    assert p.buffer == UnitsValue(sc.piece.units);
    if ch == LOWER_U {
      SkipStep(cfg, p, ch, C_LOW_U, STATE_U1);
      sc' := NextTail(cfg, p, StepByte(cfg, p, ch).p, sc, InHex(None, []), ch);
    } else {
      EscapeAllows(ch);
      EscapeTook(cfg, p, ch);
      hide Transition, Classify;
      sc' := NextUnit(cfg, p, StepByte(cfg, p, ch).p, sc, Esc(ch), ch);
    }
  }

  lemma EscapeAllows(ch: Byte)
    requires Classify(0, ch).ret == 0 && Transition(STATE_E0, Classify(0, ch).cls) != REJECT && ch != LOWER_U
    ensures IsEscapeLetter(ch)
  {
  }

  lemma EscapeTook(cfg: Config, p: Parser, ch: Byte)
    requires p.state == STATE_E0 && p.utf8Left == 0 && IsEscapeLetter(ch) && Sized(cfg, p)
    requires StepByte(cfg, p, ch).ret == 0
    ensures var o := StepByte(cfg, p, ch);
            Grew(p.(state := STATE_S), o.p, [EscapeValue(ch)]) && Sized(cfg, o.p)
  {
    hide StepByte;
    StepTakes(cfg, p, ch, 0, CharacterClass(ch), STATE_S, Escape);
    PushTook(cfg, p, EscapeValue(ch));
    hide BufferPush, EscapeValue, Transition;
  }

  lemma HexAllows(s: State, ch: Byte)
    requires s == STATE_U1 || s == STATE_U2 || s == STATE_U3 || s == STATE_U4
    requires Classify(0, ch).ret == 0 && Transition(s, Classify(0, ch).cls) != REJECT
    ensures IsHexDigit(ch) && IsHexClass(CharacterClass(ch))
  {
  }

  lemma HexTook(cfg: Config, p: Parser, ch: Byte)
    requires Ready(p) && p.utf8Left == 0 && Sized(cfg, p) && StepByte(cfg, p, ch).ret == 0
    requires p.state == STATE_U1 || p.state == STATE_U2 || p.state == STATE_U3
    ensures IsHexDigit(ch)
    ensures var o := StepByte(cfg, p, ch);
            Grew(p.(state := p.state + 1), o.p, [ch]) && Sized(cfg, o.p)
  {
    hide StepByte;
    StepTook(cfg, p, ch);
    HexAllows(p.state, ch);
    AppendTook(cfg, p, ch, 0, CharacterClass(ch), p.state + 1);
  }

  /** The last digit of an escape. */
  lemma LastHexTook(cfg: Config, p: Parser, ch: Byte)
    requires Ready(p) && p.state == STATE_U4 && p.utf8Left == 0 && Sized(cfg, p) && StepByte(cfg, p, ch).ret == 0
    ensures IsHexDigit(ch) && EndsInHex(p.buffer + [ch], 4)
    ensures cfg.maxData == 0 || |p.buffer| + 1 < cfg.maxData
    ensures var d := DecodeUnicode(p.(buffer := p.buffer + [ch]));
            var o := StepByte(cfg, p, ch);
            d.ret == 0
            && o.p == d.p.(state := if d.p.unicodeMulti != 0 then STATE_D1 else STATE_S,
                           kind := JsonNone, bufferSize := o.p.bufferSize)
            && |p.buffer| + 1 < o.p.bufferSize && (cfg.maxData > 0 ==> o.p.bufferSize <= cfg.maxData)
  {
    hide HexQuad, AllHex, BufferPush;
    StepTook(cfg, p, ch);
    HexAllows(STATE_U4, ch);
    EndsInHexSnoc(p.buffer, 3, ch);
    PushTook(cfg, p, ch);
    var c := CharacterClass(ch);
    assert Transition(STATE_U4, c) == ACT_UC && BufferPolicy(STATE_U4, c) == Append;
    hide Transition, BufferPolicy, CharacterClass;
  }

  lemma AllHexSnoc(digits: Bytes, ch: Byte)
    requires AllHex(digits) && IsHexDigit(ch)
    ensures AllHex(digits + [ch])
  {
  }

  /** Inside a `\u` escape, before its last digit. */
  lemma FromHex(cfg: Config, p: Parser, sc: Scan, high: Option<Bytes>, digits: Bytes, ch: Byte) returns (sc': Scan)
    requires StrScan(cfg, p, sc, InHex(high, digits)) && |digits| < 3 && Ready(p) && StepByte(cfg, p, ch).ret == 0
    ensures Follows(cfg, sc, ch, StepByte(cfg, p, ch).p, sc')
  {
    hide StepByte, LexemesRead, UnitsPeak, HexQuad, AllHex, Ready, UnitsValue, Follows, AreUnits;
    HexTook(cfg, p, ch);
    AllHexSnoc(digits, ch);
    var q := StepByte(cfg, p, ch).p;
    assert UnitsValue(sc.piece.units) + digits + [ch] == UnitsValue(sc.piece.units) + (digits + [ch]);
    var tail := InHex(high, digits + [ch]);
    assert TailText(tail) == TailText(sc.piece.tail) + [ch];
    hide TailText;
    sc' := NextTail(cfg, p, q, sc, tail, ch);
  }

  /** What decoding makes of a buffer that ends in four digits. */
  lemma DecodeOf(p: Parser, value: Bytes, quad: Bytes)
    requires p.buffer == value + quad && IsQuad(quad)
    ensures EndsInHex(p.buffer, 4)
    ensures DecodeUnicode(p).ret == 0 ==>
              var u := HexQuad(quad); var q := DecodeUnicode(p).p;
              if p.unicodeMulti != 0 then
                && IsLowSurrogate(u)
                && q == p.(buffer := value + FourBytes(PairValue(p.unicodeMulti, u)), unicodeMulti := 0)
              else
                !IsLowSurrogate(u)
                && q == if IsHighSurrogate(u) then p.(buffer := value, unicodeMulti := u)
                        else p.(buffer := value + UpToThreeBytes(u))
  {
    QuadEnds(value, quad);
    hide HexQuad, AllHex, UpToThreeBytes, FourBytes, PairValue;
  }

  /** The last digit of a `\u` escape: a unit, or the first half of one. */
  lemma FromLastHex(cfg: Config, p: Parser, sc: Scan, high: Option<Bytes>, digits: Bytes, ch: Byte) returns (sc': Scan)
    requires StrScan(cfg, p, sc, InHex(high, digits)) && |digits| == 3 && Ready(p) && StepByte(cfg, p, ch).ret == 0
    ensures Follows(cfg, sc, ch, StepByte(cfg, p, ch).p, sc')
  {
    hide StepByte, LexemesRead, UnitsPeak, HexQuad, UnitsValue, Follows, AreUnits, Ready, DecodeUnicode, EndsInHex;
    var value := UnitsValue(sc.piece.units);
    LastHexTook(cfg, p, ch);
    var quad := digits + [ch];
    assert p.buffer + [ch] == value + quad;
    DecodeOf(p.(buffer := p.buffer + [ch]), value, quad);
    var q := StepByte(cfg, p, ch).p;
    if high.Some? {
      sc' := FinishPair(cfg, p, q, sc, high.value, digits, ch);
    } else if IsHighSurrogate(HexQuad(quad)) {
      assert value + [] == value;
      var tail := AwaitLow(quad, false);
      LastDigitText(digits, ch);
      hide TailText, UnitText;
      sc' := NextTail(cfg, p, q, sc, tail, ch);
    } else {
      LastDigitText(digits, ch);
      hide TailText, UnitText;
      sc' := NextUnit(cfg, p, q, sc, Hex(quad), ch);
    }
  }

  lemma LastDigitText(digits: Bytes, ch: Byte)
    ensures TailText(AwaitLow(digits + [ch], false)) == TailText(InHex(None, digits)) + [ch]
    ensures UnitText(Hex(digits + [ch])) == TailText(InHex(None, digits)) + [ch]
  {
  }

  lemma FinishPair(cfg: Config, p: Parser, q: Parser, sc: Scan, high: Bytes, digits: Bytes, ch: Byte)
      returns (sc': Scan)
    requires StrScan(cfg, p, sc, InHex(Some(high), digits)) && IsQuad(digits + [ch]) && IsHighQuad(high)
    requires IsLowSurrogate(HexQuad(digits + [ch])) && Sized(cfg, q)
    requires cfg.maxData == 0 || |UnitsValue(sc.piece.units)| + 4 < cfg.maxData
    requires q == p.(state := STATE_S, unicodeMulti := 0, bufferSize := q.bufferSize,
                     buffer := UnitsValue(sc.piece.units) + FourBytes(PairValue(HexQuad(high), HexQuad(digits + [ch]))))
    ensures Follows(cfg, sc, ch, q, sc')
  {
    hide LexemesRead, UnitsPeak, HexQuad, UnitsValue, Follows, AreUnits;
    var u := Pair(high, digits + [ch]);
    assert UnitText(u) == TailText(sc.piece.tail) + [ch];
    sc' := NextUnit(cfg, p, q, sc, u, ch);
  }

  /** Between the halves of a surrogate pair. */
  lemma FromAwaitLow(cfg: Config, p: Parser, sc: Scan, high: Bytes, slash: bool, ch: Byte) returns (sc': Scan)
    requires StrScan(cfg, p, sc, AwaitLow(high, slash)) && StepByte(cfg, p, ch).ret == 0
    ensures Follows(cfg, sc, ch, StepByte(cfg, p, ch).p, sc')
  {
    hide StepByte, LexemesRead, UnitsPeak, HexQuad;
    StepTook(cfg, p, ch);
    if slash {
      SkipStep(cfg, p, ch, C_LOW_U, STATE_U1);
      sc' := NextTail(cfg, p, StepByte(cfg, p, ch).p, sc, InHex(Some(high), []), ch);
    } else {
      SkipStep(cfg, p, ch, C_BACKS, STATE_D2);
      sc' := NextTail(cfg, p, StepByte(cfg, p, ch).p, sc, AwaitLow(high, true), ch);
    }
  }

  lemma FromString(cfg: Config, p: Parser, sc: Scan, ch: Byte) returns (sc': Scan)
    requires Tracks(cfg, p, sc) && sc.piece.PStr? && Ready(p) && StepByte(cfg, p, ch).ret == 0
    ensures Follows(cfg, sc, ch, StepByte(cfg, p, ch).p, sc')
  {
    hide StepByte, Follows, LexemesRead;
    match sc.piece.tail
    case Idle => sc' := FromIdle(cfg, p, sc, ch);
    case InGroup(part) => sc' := FromGroup(cfg, p, sc, part, ch);
    case InEscape => sc' := FromEscape(cfg, p, sc, ch);
    case InHex(high, digits) =>
      if |digits| < 3 { sc' := FromHex(cfg, p, sc, high, digits, ch); }
      else { sc' := FromLastHex(cfg, p, sc, high, digits, ch); }
    case AwaitLow(high, slash) => sc' := FromAwaitLow(cfg, p, sc, high, slash, ch);
  }

  // ---------------------------------------------------------------- comments

  /** A comment is read: the parser resumes where the comment began. */
  lemma CommentRead(cfg: Config, p: Parser, sc: Scan, l: Lexeme) returns (sc': Scan)
    requires LexemesRead(cfg, sc.ls, sc.c) && Limited(cfg, p) && Sized(cfg, p)
    requires Stands(p, sc.c) && InComment(p, sc.c, [])
    requires IsLexeme(l) && IsComment(l) && Allowed(cfg, l) && !EndsInExponent(sc.ls)
    ensures Tracks(cfg, p.(state := Resume(p.saveState)), sc') && Settled(sc')
            && ScanText(sc') == Text(sc.ls) + LexemeText(l)
  {
    hide LexemeStep, LexemesRead, LexemeText, IsLexeme, Rests, Stands, InComment, Allowed, Limited, Sized,
      EndsInExponent, Text, Meaning, Fits, TokenStep, Resume;
    CommentRests(cfg, p, sc.c);
    LexemeStepIs(cfg.maxNesting, sc.c, l);
    CommentFits(cfg, l);
    AddLexeme(cfg, sc.ls, l, sc.c);
    sc' := Scan(sc.ls + [l], Nothing, sc.c);
    assert Text(sc'.ls) + [] == Text(sc'.ls);
    EndsInComment(sc.ls, l);
  }

  lemma CommentRests(cfg: Config, p: Parser, c: Control)
    requires Stands(p, c) && InComment(p, c, []) && Limited(cfg, p) && Sized(cfg, p)
    ensures var q := p.(state := Resume(p.saveState)); Rests(q, c) && Limited(cfg, q) && Sized(cfg, q)
  {
    assert p.log + [] == p.log;
  }

  lemma CommentFits(cfg: Config, l: Lexeme)
    requires IsLexeme(l) && IsComment(l)
    ensures Fits(cfg, l) && Meaning(l) == []
  {
  }

  lemma EndsInComment(ls: seq<Lexeme>, l: Lexeme)
    requires IsComment(l)
    ensures !EndsInExponent(ls + [l])
  {
  }

  /** A byte inside a comment. */
  lemma CommentByteTook(cfg: Config, p: Parser, ch: Byte)
    requires p.state == STATE_C2 || p.state == STATE_C3 || p.state == STATE_Y1
    requires StepByte(cfg, p, ch).ret == 0 && !(p.utf8Left == 0 && CommentMark(p.state, ch))
    ensures var cl := Classify(p.utf8Left, ch);
            && cl.ret == 0
            && (p.utf8Left > 0 ==> CommentState(p.state, ch) != STATE_C3)
            && StepByte(cfg, p, ch) == Outcome(p.(state := CommentState(p.state, ch), utf8Left := cl.left), 0)
  {
    hide StepByte;
    StepTook(cfg, p, ch);
    var cl := Classify(p.utf8Left, ch);
    StepTakes(cfg, p, ch, cl.left, cl.cls, CommentState(p.state, ch), Ignore);
  }

  /** What a byte makes of the character being read in a comment: a complete one, or a longer part. */
  function NextGroup(part: Bytes, ch: Byte, left: nat): (Option<Bytes>, Bytes) {
    if left == 0 then (Some(part + [ch]), []) else (None, part + [ch])
  }

  lemma NextGroupIs(part: Bytes, ch: Byte)
    requires part == [] || IsPartGroup(part)
    requires Classify(PartLeft(part), ch).ret == 0
    ensures var cl := Classify(PartLeft(part), ch);
            var (done, rest) := NextGroup(part, ch, cl.left);
            && (done.Some? ==> IsPlainGroup(done.value) && (part != [] ==> |done.value| > 1))
            && (rest == [] || IsPartGroup(rest)) && cl.left == PartLeft(rest)
  {
  }

  lemma FromSlash(cfg: Config, p: Parser, sc: Scan, ch: Byte) returns (sc': Scan)
    requires Tracks(cfg, p, sc) && Settled(sc) && sc.piece == PSlash && StepByte(cfg, p, ch).ret == 0
    ensures Follows(cfg, sc, ch, StepByte(cfg, p, ch).p, sc')
  {
    hide StepByte, LexemesRead;
    StepTook(cfg, p, ch);
    SkipStep(cfg, p, ch, C_STAR, STATE_C2);
    sc' := sc.(piece := PBlock([], false, []));
    assert [SLASH, STAR] + Concat([]) + [] + [] == [SLASH] + [ch];
  }

  /** A block comment goes on. */
  lemma NextBlock(cfg: Config, p: Parser, p': Parser, sc: Scan, body: seq<Bytes>, star: bool, part: Bytes, ch: Byte)
      returns (sc': Scan)
    requires Tracks(cfg, p, sc) && Settled(sc) && sc.piece.PBlock?
    requires BlockBodyAt(body, star, part) && (part == [] || IsPartGroup(part))
    requires p' == p.(state := if star then STATE_C3 else STATE_C2, utf8Left := PartLeft(part))
    requires var b := sc.piece;
             Concat(body) + (if star then [STAR] else []) + part
             == Concat(b.body) + (if b.star then [STAR] else []) + b.part + [ch]
    ensures Follows(cfg, sc, ch, p', sc')
  {
    hide LexemesRead, BlockBodyAt, Concat, IsPartGroup, PartLeft;
    sc' := sc.(piece := PBlock(body, star, part));
    var b := sc.piece;
    assert PieceText(sc'.piece) == [SLASH, STAR] + (Concat(body) + (if star then [STAR] else []) + part);
    assert PieceText(sc.piece) == [SLASH, STAR] + (Concat(b.body) + (if b.star then [STAR] else []) + b.part);
  }

  /** A block comment body with one more character. */
  lemma BodySnoc(body: seq<Bytes>, g: Bytes)
    requires IsBlockBody(body) && IsPlainGroup(g)
    requires body == [] || body[|body| - 1] != [STAR] || g != [SLASH]
    ensures IsBlockBody(body + [g])
  {
    hide IsPlainGroup;
  }

  lemma StarIsPlain()
    ensures IsPlainGroup([STAR])
  {
  }

  lemma EndBlock(cfg: Config, p: Parser, sc: Scan) returns (sc': Scan)
    requires Tracks(cfg, p, sc) && Settled(sc) && sc.piece.PBlock? && sc.piece.star && StepByte(cfg, p, SLASH).ret == 0
    ensures Follows(cfg, sc, SLASH, StepByte(cfg, p, SLASH).p, sc')
  {
    hide StepByte, LexemesRead, IsBlockBody, Concat;
    var b := sc.piece;
    CommentEnds(cfg, p, SLASH);
    sc' := CommentRead(cfg, p, sc, BlockComment(b.body));
    assert [STAR] + [] + [SLASH] == [STAR, SLASH];
    assert [SLASH, STAR] + Concat(b.body) + [STAR] + [] + [SLASH] == LexemeText(BlockComment(b.body));
  }

  /** Inside a block comment. */
  lemma FromBlock(cfg: Config, p: Parser, sc: Scan, ch: Byte) returns (sc': Scan)
    requires Tracks(cfg, p, sc) && Settled(sc) && sc.piece.PBlock? && StepByte(cfg, p, ch).ret == 0
    ensures Follows(cfg, sc, ch, StepByte(cfg, p, ch).p, sc')
  {
    hide StepByte, LexemesRead, IsBlockBody, Follows;
    var PBlock(body, star, part) := sc.piece;
    if star && ch == SLASH {
      sc' := EndBlock(cfg, p, sc);
    } else {
      CommentByteTook(cfg, p, ch);
      var q := StepByte(cfg, p, ch).p;
      NextGroupIs(part, ch);
      var (done, rest) := NextGroup(part, ch, q.utf8Left);
      hide Classify, NextGroup, IsPlainGroup, IsPartGroup, PartLeft, Stands;
      sc' := BlockGoesOn(cfg, p, q, sc, body, star, part, done, rest, ch);
    }
  }

  lemma BlockGoesOn(cfg: Config, p: Parser, q: Parser, sc: Scan, body: seq<Bytes>, star: bool, part: Bytes,
                    done: Option<Bytes>, rest: Bytes, ch: Byte) returns (sc': Scan)
    requires Tracks(cfg, p, sc) && Settled(sc) && sc.piece == PBlock(body, star, part) && !(star && ch == SLASH)
    requires (done, rest) == NextGroup(part, ch, q.utf8Left)
    requires done.Some? ==> IsPlainGroup(done.value) && (part != [] ==> |done.value| > 1)
    requires (rest == [] || IsPartGroup(rest)) && q.utf8Left == PartLeft(rest)
    requires part != [] ==> ch != STAR
    requires q == p.(state := if ch == STAR then STATE_C3 else STATE_C2, utf8Left := q.utf8Left)
    ensures Follows(cfg, sc, ch, q, sc')
  {
    hide LexemesRead, IsBlockBody, Follows, IsPlainGroup, Stands;
    StarIsPlain();
    var body' := if star then body + [[STAR]] else body;
    assert IsBlockBody(body') && Concat(body') == Concat(body) + (if star then [STAR] else []) by {
      if star {
        BodySnoc(body, [STAR]);
        ConcatSnoc(body, [STAR]);
      }
    }
    hide Concat;
    if ch == STAR {
      assert part == [] && Concat(body') + [STAR] + [] == Concat(body') + [] + [STAR];
      StarStays(ch, q.utf8Left, done, rest);
      sc' := NextBlock(cfg, p, q, sc, body', true, [], ch);
    } else if done.Some? {
      assert done.value == part + [ch];
      assert star ==> part == [] && done.value[0] != SLASH;
      BodySnoc(body', done.value);
      ConcatSnoc(body', done.value);
      assert Concat(body') + (part + [ch]) == Concat(body') + part + [ch];
      sc' := NextBlock(cfg, p, q, sc, body' + [done.value], false, [], ch);
    } else {
      assert Concat(body') + (part + [ch]) == Concat(body') + part + [ch];
      sc' := NextBlock(cfg, p, q, sc, body', false, rest, ch);
    }
  }

  lemma StarStays(ch: Byte, left: nat, done: Option<Bytes>, rest: Bytes)
    requires ch == STAR && (done, rest) == NextGroup([], ch, left) && (rest == [] || IsPartGroup(rest))
            && left == PartLeft(rest)
    ensures left == 0
  {
  }

  lemma LineSnoc(body: seq<Bytes>, g: Bytes)
    requires IsLineBody(body) && IsPlainGroup(g) && g != [NEWLINE]
    ensures IsLineBody(body + [g])
  {
    hide IsPlainGroup;
  }

  /** A comment that ends with its line goes on. */
  lemma NextLine(cfg: Config, p: Parser, p': Parser, sc: Scan, body: seq<Bytes>, part: Bytes, ch: Byte)
      returns (sc': Scan)
    requires Tracks(cfg, p, sc) && Settled(sc) && sc.piece.PLine?
    requires IsLineBody(body) && (part == [] || IsPartGroup(part))
    requires p' == p.(utf8Left := PartLeft(part))
    requires Concat(body) + part == Concat(sc.piece.body) + sc.piece.part + [ch]
    ensures Follows(cfg, sc, ch, p', sc')
  {
    hide LexemesRead, IsLineBody, Concat, IsPartGroup, PartLeft;
    sc' := sc.(piece := PLine(body, part));
    assert PieceText(sc'.piece) == [HASH] + (Concat(body) + part);
    assert PieceText(sc.piece) == [HASH] + (Concat(sc.piece.body) + sc.piece.part);
  }

  lemma EndLine(cfg: Config, p: Parser, sc: Scan) returns (sc': Scan)
    requires Tracks(cfg, p, sc) && Settled(sc) && sc.piece.PLine? && sc.piece.part == []
    requires StepByte(cfg, p, NEWLINE).ret == 0
    ensures Follows(cfg, sc, NEWLINE, StepByte(cfg, p, NEWLINE).p, sc')
  {
    hide StepByte, LexemesRead, IsLineBody, Concat;
    CommentEnds(cfg, p, NEWLINE);
    sc' := CommentRead(cfg, p, sc, LineComment(sc.piece.body));
    assert [HASH] + Concat(sc.piece.body) + [] + [NEWLINE] == LexemeText(LineComment(sc.piece.body));
  }

  /** Inside a comment that ends with its line. */
  lemma FromLine(cfg: Config, p: Parser, sc: Scan, ch: Byte) returns (sc': Scan)
    requires Tracks(cfg, p, sc) && Settled(sc) && sc.piece.PLine? && StepByte(cfg, p, ch).ret == 0
    ensures Follows(cfg, sc, ch, StepByte(cfg, p, ch).p, sc')
  {
    hide StepByte, LexemesRead, IsLineBody, Follows, Concat;
    var PLine(body, part) := sc.piece;
    if part == [] && ch == NEWLINE {
      sc' := EndLine(cfg, p, sc);
    } else {
      CommentByteTook(cfg, p, ch);
      var q := StepByte(cfg, p, ch).p;
      NextGroupIs(part, ch);
      var (done, rest) := NextGroup(part, ch, q.utf8Left);
      hide Classify, IsPlainGroup;
      if done.Some? {
        LineSnoc(body, done.value);
        ConcatSnoc(body, done.value);
        assert Concat(body) + (part + [ch]) + [] == Concat(body) + part + [ch];
        sc' := NextLine(cfg, p, q, sc, body + [done.value], [], ch);
      } else {
        assert Concat(body) + (part + [ch]) == Concat(body) + part + [ch];
        sc' := NextLine(cfg, p, q, sc, body, rest, ch);
      }
    }
  }

  // ---------------------------------------------------------------- every run

  /** The invariant survives every byte that is accepted. */
  lemma StepTracks(cfg: Config, p: Parser, sc: Scan, ch: Byte) returns (sc': Scan)
    requires Tracks(cfg, p, sc) && Settled(sc) && Ready(p) && StepByte(cfg, p, ch).ret == 0
    ensures Tracks(cfg, StepByte(cfg, p, ch).p, sc') && Settled(sc') && ScanText(sc') == ScanText(sc) + [ch]
  {
    hide StepByte, Tracks, ScanText;
    match sc.piece
    case Nothing => sc' := FromRest(cfg, p, sc, ch);
    case PStr(_, _) => sc' := FromString(cfg, p, sc, ch);
    case PNum(_) => sc' := FromNumber(cfg, p, sc, ch);
    case PName(_, _) => sc' := FromName(cfg, p, sc, ch);
    case PSlash => sc' := FromSlash(cfg, p, sc, ch);
    case PBlock(_, _, _) => sc' := FromBlock(cfg, p, sc, ch);
    case PLine(_, _) => sc' := FromLine(cfg, p, sc, ch);
  }

  lemma StartTracks(cfg: Config)
    ensures var sc := Scan([], Nothing, START);
            Tracks(cfg, Init(cfg), sc) && Settled(sc) && ScanText(sc) == []
  {
  }

  /** Every run that has returned 0 so far satisfies the invariant. */
  lemma {:induction false} RunTracks(cfg: Config, bytes: Bytes) returns (sc: Scan)
    requires Feed(cfg, Init(cfg), bytes).ret == 0
    ensures Tracks(cfg, Feed(cfg, Init(cfg), bytes).p, sc) && Settled(sc) && ScanText(sc) == bytes
    decreases bytes
  {
    hide StepByte, Tracks, ScanText;
    if bytes == [] {
      FeedNothing(cfg, Init(cfg));
      StartTracks(cfg);
      sc := Scan([], Nothing, START);
    } else {
      hide Feed;
      var n := |bytes| - 1;
      assert bytes[..n] + [bytes[n]] == bytes;
      FeedSnoc(cfg, Init(cfg), bytes[..n], bytes[n]);
      var sc0 := RunTracks(cfg, bytes[..n]);
      sc := StepTracks(cfg, Feed(cfg, Init(cfg), bytes[..n]).p, sc0, bytes[n]);
    }
  }
}
