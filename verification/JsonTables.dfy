/**
  The constant tables of libjson: event types, error codes, character classes,
  the state transition table, the buffer policy table, the UTF-8 tables and the
  hexadecimal digits.

  A row of a C table becomes one `case` here; the columns of a row that share an
  entry share a pattern.
 */
module JsonTables {

  type Byte = b: int | 0 <= b < 256
  type Bytes = seq<Byte>

  /** The event types handed to the parser callback and accepted by the printer. */
  datatype JsonType =
    | JsonNone
    | JsonArrayBegin | JsonObjectBegin | JsonArrayEnd | JsonObjectEnd
    | JsonInt | JsonFloat | JsonString | JsonKey
    | JsonTrue | JsonFalse | JsonNull

  datatype Event = Event(kind: JsonType, data: Bytes)

  const ERROR_BAD_CHAR := 2
  const ERROR_POP_EMPTY := 3
  const ERROR_POP_UNEXPECTED_MODE := 4
  const ERROR_NESTING_LIMIT := 5
  const ERROR_DATA_LIMIT := 6
  const ERROR_COMMENT_NOT_ALLOWED := 7
  const ERROR_UNEXPECTED_CHAR := 8
  const ERROR_MISSING_LOW_SURROGATE := 9
  const ERROR_UNEXPECTED_LOW_SURROGATE := 10
  const ERROR_COMMA_OUT_OF_STRUCTURE := 11
  const ERROR_CALLBACK := 12
  const ERROR_UTF8 := 13

  /** The character classes, the columns of the tables. */
  type Class = nat
  const C_SPACE: Class := 0
  const C_NL: Class := 1
  const C_WHITE: Class := 2
  const C_LCURB: Class := 3
  const C_RCURB: Class := 4
  const C_LSQRB: Class := 5
  const C_RSQRB: Class := 6
  const C_COLON: Class := 7
  const C_COMMA: Class := 8
  const C_QUOTE: Class := 9
  const C_BACKS: Class := 10
  const C_SLASH: Class := 11
  const C_PLUS: Class := 12
  const C_MINUS: Class := 13
  const C_DOT: Class := 14
  const C_ZERO: Class := 15
  const C_DIGIT: Class := 16
  const C_LOW_A: Class := 17
  const C_LOW_B: Class := 18
  const C_LOW_C: Class := 19
  const C_LOW_D: Class := 20
  const C_LOW_E: Class := 21
  const C_LOW_F: Class := 22
  const C_LOW_L: Class := 23
  const C_LOW_N: Class := 24
  const C_LOW_R: Class := 25
  const C_LOW_S: Class := 26
  const C_LOW_T: Class := 27
  const C_LOW_U: Class := 28
  const C_CAP_ABCDF: Class := 29
  const C_CAP_E: Class := 30
  const C_OTHER: Class := 31
  const C_STAR: Class := 32
  const C_HASH: Class := 33
  const C_ERROR: Class := 0xfe

  /** The states, the rows of the tables. */
  type State = s: nat | s < NR_STATES
  const NR_STATES: nat := 37
  const STATE_GO: State := 0
  const STATE_OK: State := 1
  const STATE_O: State := 2
  const STATE_K: State := 3
  const STATE_CO: State := 4
  const STATE_V: State := 5
  const STATE_A: State := 6
  const STATE_S: State := 7
  const STATE_E0: State := 8
  const STATE_U1: State := 9
  const STATE_U2: State := 10
  const STATE_U3: State := 11
  const STATE_U4: State := 12
  const STATE_M0: State := 13
  const STATE_Z0: State := 14
  const STATE_I0: State := 15
  const STATE_R1: State := 16
  const STATE_R2: State := 17
  const STATE_X1: State := 18
  const STATE_X2: State := 19
  const STATE_X3: State := 20
  const STATE_T1: State := 21
  const STATE_T2: State := 22
  const STATE_T3: State := 23
  const STATE_F1: State := 24
  const STATE_F2: State := 25
  const STATE_F3: State := 26
  const STATE_F4: State := 27
  const STATE_N1: State := 28
  const STATE_N2: State := 29
  const STATE_N3: State := 30
  const STATE_C1: State := 31
  const STATE_C2: State := 32
  const STATE_C3: State := 33
  const STATE_Y1: State := 34
  const STATE_D1: State := 35
  const STATE_D2: State := 36

  /** The actions, which share the entries of the transition table with the states. */
  type Action = a: nat | 0x80 <= a <= 0x92 witness 0x80
  const ACT_KS: Action := 0x80
  const ACT_SP: Action := 0x81
  const ACT_AB: Action := 0x82
  const ACT_AE: Action := 0x83
  const ACT_OB: Action := 0x84
  const ACT_OE: Action := 0x85
  const ACT_CB: Action := 0x86
  const ACT_YB: Action := 0x87
  const ACT_CE: Action := 0x88
  const ACT_FA: Action := 0x89
  const ACT_TR: Action := 0x8a
  const ACT_NU: Action := 0x8b
  const ACT_DE: Action := 0x8c
  const ACT_DF: Action := 0x8d
  const ACT_SE: Action := 0x8e
  const ACT_MX: Action := 0x8f
  const ACT_ZX: Action := 0x90
  const ACT_IX: Action := 0x91
  const ACT_UC: Action := 0x92

  /** A table entry: a state, an action, or no transition. */
  type Target = t: nat | t < NR_STATES || 0x80 <= t <= 0x92 || t == 0xff
  const REJECT: Target := 0xff
  predicate IsAction(t: Target) {
    0x80 <= t < REJECT
  }

  datatype Policy = Ignore | Append | Escape

  datatype Mode = ModeArray | ModeObject

  /** `character_class`; the caller has already given bytes from 128 up the class `C_OTHER`. */
  function CharacterClass(ch: Byte): Class {
    if ch == 0x20 then C_SPACE
    else if ch == 0x0a then C_NL
    else if ch == 0x09 || ch == 0x0d then C_WHITE
    else if ch < 0x20 then C_ERROR
    else if ch == 0x22 then C_QUOTE
    else if ch == 0x23 then C_HASH
    else if ch == 0x2a then C_STAR
    else if ch == 0x2b then C_PLUS
    else if ch == 0x2c then C_COMMA
    else if ch == 0x2d then C_MINUS
    else if ch == 0x2e then C_DOT
    else if ch == 0x2f then C_SLASH
    else if ch == 0x30 then C_ZERO
    else if 0x31 <= ch <= 0x39 then C_DIGIT
    else if ch == 0x3a then C_COLON
    else if ch == 0x45 then C_CAP_E
    else if 0x41 <= ch <= 0x46 then C_CAP_ABCDF
    else if ch == 0x5b then C_LSQRB
    else if ch == 0x5c then C_BACKS
    else if ch == 0x5d then C_RSQRB
    else if ch == 0x61 then C_LOW_A
    else if ch == 0x62 then C_LOW_B
    else if ch == 0x63 then C_LOW_C
    else if ch == 0x64 then C_LOW_D
    else if ch == 0x65 then C_LOW_E
    else if ch == 0x66 then C_LOW_F
    else if ch == 0x6c then C_LOW_L
    else if ch == 0x6e then C_LOW_N
    else if ch == 0x72 then C_LOW_R
    else if ch == 0x73 then C_LOW_S
    else if ch == 0x74 then C_LOW_T
    else if ch == 0x75 then C_LOW_U
    else if ch == 0x7b then C_LCURB
    else if ch == 0x7d then C_RCURB
    else C_OTHER
  }

  /** The columns "0" to "f" and "ABCDF", "E" of rows STATE_U1 to STATE_U4. */
  predicate IsHexClass(c: Class) {
    match c
    case C_ZERO | C_DIGIT | C_LOW_A | C_LOW_B | C_LOW_C | C_LOW_D | C_LOW_E | C_LOW_F | C_CAP_ABCDF | C_CAP_E => true
    case _ => false
  }

  /** The entries that rows STATE_OK, STATE_Z0, STATE_I0 and STATE_R2 share. */
  function AfterValue(c: Class): Target {
    match c
    case C_SPACE | C_NL | C_WHITE => STATE_OK
    case C_RCURB => ACT_OE
    case C_RSQRB => ACT_AE
    case C_COMMA => ACT_SP
    case C_SLASH => ACT_CB
    case C_HASH => ACT_YB
    case _ => REJECT
  }

  /** The entries that rows _V and _A share, `s` being the row's own state. */
  function BeforeValue(s: State, c: Class): Target {
    match c
    case C_SPACE | C_NL | C_WHITE => s
    case C_LCURB => ACT_OB
    case C_LSQRB => ACT_AB
    case C_QUOTE => STATE_S
    case C_SLASH => ACT_CB
    case C_MINUS => ACT_MX
    case C_ZERO => ACT_ZX
    case C_DIGIT => ACT_IX
    case C_LOW_F => STATE_F1
    case C_LOW_N => STATE_N1
    case C_LOW_T => STATE_T1
    case C_HASH => ACT_YB
    case _ => REJECT
  }

  /** `state_transition_table`. */
  function Transition(s: State, c: Class): Target {
    match s
    case STATE_GO => (
      match c
      case C_SPACE | C_NL | C_WHITE => STATE_GO
      case C_LCURB => ACT_OB
      case C_LSQRB => ACT_AB
      case C_SLASH => ACT_CB
      case C_HASH => ACT_YB
      case _ => REJECT)
    case STATE_OK => AfterValue(c)
    case STATE_O => (
      match c
      case C_SPACE | C_NL | C_WHITE => STATE_O
      case C_RCURB => ACT_OE
      case C_QUOTE => STATE_S
      case C_SLASH => ACT_CB
      case C_HASH => ACT_YB
      case _ => REJECT)
    case STATE_K => (
      match c
      case C_SPACE | C_NL | C_WHITE => STATE_K
      case C_QUOTE => STATE_S
      case C_SLASH => ACT_CB
      case C_HASH => ACT_YB
      case _ => REJECT)
    case STATE_CO => (
      match c
      case C_SPACE | C_NL | C_WHITE => STATE_CO
      case C_COLON => ACT_KS
      case C_SLASH => ACT_CB
      case C_HASH => ACT_YB
      case _ => REJECT)
    case STATE_V => BeforeValue(STATE_V, c)
    case STATE_A => if c == C_RSQRB then ACT_AE else BeforeValue(STATE_A, c)
    case STATE_S => (
      match c
      case C_NL | C_WHITE => REJECT
      case C_QUOTE => ACT_SE
      case C_BACKS => STATE_E0
      case C_ERROR => REJECT
      case _ => STATE_S)
    case STATE_E0 => (
      match c
      case C_QUOTE | C_BACKS | C_SLASH | C_LOW_B | C_LOW_F | C_LOW_N | C_LOW_R | C_LOW_T => STATE_S
      case C_LOW_U => STATE_U1
      case _ => REJECT)
    case STATE_U1 => if IsHexClass(c) then STATE_U2 else REJECT
    case STATE_U2 => if IsHexClass(c) then STATE_U3 else REJECT
    case STATE_U3 => if IsHexClass(c) then STATE_U4 else REJECT
    case STATE_U4 => if IsHexClass(c) then ACT_UC else REJECT
    case STATE_M0 => (
      match c
      case C_ZERO => STATE_Z0
      case C_DIGIT => STATE_I0
      case _ => REJECT)
    case STATE_Z0 => if c == C_DOT then ACT_DF else AfterValue(c)
    case STATE_I0 => (
      match c
      case C_DOT => ACT_DF
      case C_ZERO | C_DIGIT => STATE_I0
      case C_LOW_E | C_CAP_E => ACT_DE
      case _ => AfterValue(c))
    case STATE_R1 => (
      match c
      case C_ZERO | C_DIGIT => STATE_R2
      case _ => REJECT)
    case STATE_R2 => (
      match c
      case C_ZERO | C_DIGIT => STATE_R2
      case C_LOW_E | C_CAP_E => STATE_X1
      case _ => AfterValue(c))
    case STATE_X1 => (
      match c
      case C_PLUS | C_MINUS => STATE_X2
      case C_ZERO | C_DIGIT => STATE_X3
      case _ => REJECT)
    case STATE_X2 => (
      match c
      case C_ZERO | C_DIGIT => STATE_X3
      case _ => REJECT)
    case STATE_X3 => (
      match c
      case C_ZERO | C_DIGIT => STATE_X3
      case C_SLASH | C_HASH => REJECT
      case _ => AfterValue(c))
    case STATE_T1 => if c == C_LOW_R then STATE_T2 else REJECT
    case STATE_T2 => if c == C_LOW_U then STATE_T3 else REJECT
    case STATE_T3 => if c == C_LOW_E then ACT_TR else REJECT
    case STATE_F1 => if c == C_LOW_A then STATE_F2 else REJECT
    case STATE_F2 => if c == C_LOW_L then STATE_F3 else REJECT
    case STATE_F3 => if c == C_LOW_S then STATE_F4 else REJECT
    case STATE_F4 => if c == C_LOW_E then ACT_FA else REJECT
    case STATE_N1 => if c == C_LOW_U then STATE_N2 else REJECT
    case STATE_N2 => if c == C_LOW_L then STATE_N3 else REJECT
    case STATE_N3 => if c == C_LOW_L then ACT_NU else REJECT
    case STATE_C1 => if c == C_STAR then STATE_C2 else REJECT
    case STATE_C2 => (
      match c
      case C_STAR => STATE_C3
      case C_ERROR => REJECT
      case _ => STATE_C2)
    case STATE_C3 => (
      match c
      case C_SLASH => ACT_CE
      case C_STAR => STATE_C3
      case C_ERROR => REJECT
      case _ => STATE_C2)
    case STATE_Y1 => (
      match c
      case C_NL => ACT_CE
      case C_ERROR => REJECT
      case _ => STATE_Y1)
    case STATE_D1 => if c == C_BACKS then STATE_D2 else REJECT
    case STATE_D2 => if c == C_LOW_U then STATE_U1 else REJECT
    case _ => REJECT
  }

  /** `buffer_policy_table`. */
  function BufferPolicy(s: State, c: Class): Policy {
    match s
    case STATE_V | STATE_A => (
      match c
      case C_MINUS | C_ZERO | C_DIGIT => Append
      case _ => Ignore)
    case STATE_S => (
      match c
      case C_NL | C_WHITE | C_QUOTE | C_BACKS | C_ERROR => Ignore
      case _ => Append)
    case STATE_E0 => (
      match c
      case C_QUOTE | C_BACKS | C_SLASH | C_LOW_B | C_LOW_F | C_LOW_N | C_LOW_R | C_LOW_T => Escape
      case _ => Ignore)
    case STATE_U1 | STATE_U2 | STATE_U3 | STATE_U4 => if IsHexClass(c) then Append else Ignore
    case STATE_M0 | STATE_R1 | STATE_X2 | STATE_X3 => (
      match c
      case C_ZERO | C_DIGIT => Append
      case _ => Ignore)
    case STATE_Z0 => if c == C_DOT then Append else Ignore
    case STATE_I0 => (
      match c
      case C_DOT | C_ZERO | C_DIGIT | C_LOW_E | C_CAP_E => Append
      case _ => Ignore)
    case STATE_R2 => (
      match c
      case C_ZERO | C_DIGIT | C_LOW_E | C_CAP_E => Append
      case _ => Ignore)
    case STATE_X1 => (
      match c
      case C_PLUS | C_MINUS | C_ZERO | C_DIGIT => Append
      case _ => Ignore)
    case _ => Ignore
  }

  /** The states up to `STATE__A`, the ones a comment resumes in as they are. */
  predicate IsStructural(s: State) {
    s <= STATE_A
  }

  /** `utf8_header_table`: how many continuation bytes follow, 0xff for "not a lead byte". */
  function Utf8Header(ch: Byte): nat {
    if ch < 0x80 then 0
    else if ch < 0xc0 then 0xff
    else if ch < 0xe0 then 1
    else if ch < 0xf0 then 2
    else if ch < 0xf8 then 3
    else if ch < 0xfc then 4
    else if ch < 0xfe then 5
    else 0xff
  }

  /** `utf8_continuation_table`. */
  predicate IsContinuation(ch: Byte) {
    0x80 <= ch < 0xc0
  }

  predicate IsDigit(ch: Byte) {
    0x30 <= ch <= 0x39
  }

  predicate IsHexDigit(ch: Byte) {
    IsDigit(ch) || 0x41 <= ch <= 0x46 || 0x61 <= ch <= 0x66
  }

  /** `hextable` on the digits. */
  function HexValue(ch: Byte): (v: nat)
    requires IsHexDigit(ch)
    ensures v < 16
  {
    if IsDigit(ch) then ch - 0x30
    else if ch < 0x61 then ch - 0x41 + 10
    else ch - 0x61 + 10
  }

  // ---------------------------------------------------------------- bytes by their characters

  predicate IsAscii(s: string) { forall i :: 0 <= i < |s| ==> s[i] < '\U{80}' }

  /** The bytes of an ASCII text. */
  function Ascii(s: string): Bytes
    requires IsAscii(s)
  {
    seq(|s|, i requires 0 <= i < |s| => s[i] as int)
  }

  /** The hexadecimal digits, worth their position. */
  const LOWER_DIGITS := "0123456789abcdef"
  const UPPER_DIGITS := "0123456789ABCDEF"

  /** `b` is the hexadecimal digit `d`, in either case. */
  predicate IsDigitOf(b: Byte, d: nat) {
    d < 16 && (b == LOWER_DIGITS[d] as int || b == UPPER_DIGITS[d] as int)
  }

  /** Every digit, in either case, is worth its position. */
  lemma HexValueIs(b: Byte, d: nat)
    requires IsDigitOf(b, d)
    ensures IsHexDigit(b) && HexValue(b) == d
  {
  }
}
