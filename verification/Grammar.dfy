/**
  The language of libjson as a grammar, independent of the automaton.

  A document is a `Tree`. Its tokens are the six structural characters, strings,
  numbers and the three names of section 2 of RFC 4627. A text is a sequence of
  lexemes: spellings of tokens (a string can be spelled with different escapes),
  white space, and, where the configuration allows them, comments.
 */
module Grammar {
  import opened JsonTables
  import opened ParserSpec

  datatype Option<+T> = None | Some(value: T)

  const QUOTE: Byte := 0x22
  const COMMA: Byte := 0x2c
  const COLON: Byte := 0x3a
  const LSQRB: Byte := 0x5b
  const BACKSLASH: Byte := 0x5c
  const RSQRB: Byte := 0x5d
  const LCURB: Byte := 0x7b
  const RCURB: Byte := 0x7d
  const STAR: Byte := 0x2a
  const SLASH: Byte := 0x2f
  const HASH: Byte := 0x23
  const NEWLINE: Byte := 0x0a
  const LOWER_U: Byte := 0x75

  // ---------------------------------------------------------------- characters

  /** One encoded character under the parser's UTF-8 tables: a lead byte and its continuations. */
  predicate IsUtf8Group(g: Bytes) {
    && |g| > 0
    && Utf8Header(g[0]) != 0xff
    && |g| == 1 + Utf8Header(g[0])
    && forall i :: 1 <= i < |g| ==> IsContinuation(g[i])
  }

  /** Text made of complete characters. */
  ghost predicate IsUtf8(s: Bytes) {
    exists groups: seq<Bytes> :: IsUtf8Split(groups, s)
  }

  ghost predicate IsUtf8Split(groups: seq<Bytes>, s: Bytes) {
    (forall g :: g in groups ==> IsUtf8Group(g)) && Concat(groups) == s
  }

  function Concat(parts: seq<Bytes>): Bytes {
    if parts == [] then [] else Concat(parts[..|parts| - 1]) + parts[|parts| - 1]
  }

  /** A character that is not a control character (section 2.5 of RFC 4627, with tab, LF and CR apart). */
  predicate IsPlainGroup(g: Bytes) {
    IsUtf8Group(g) && (|g| == 1 ==> CharacterClass(g[0]) != C_ERROR)
  }

  // ---------------------------------------------------------------- strings

  /** The ways to write a character inside a string (section 2.5 of RFC 4627). */
  datatype StrUnit =
    | Raw(group: Bytes)
    | Esc(letter: Byte)
    | Hex(quad: Bytes)
    | Pair(high: Bytes, low: Bytes)

  predicate IsQuad(h: Bytes) { |h| == 4 && AllHex(h) }

  predicate IsEscapeLetter(b: Byte) {
    b == 0x22 || b == 0x2f || b == 0x5c || b == 0x62 || b == 0x66 || b == 0x6e || b == 0x72 || b == 0x74
  }

  predicate IsUnit(u: StrUnit) {
    match u
    case Raw(g) => IsUtf8Group(g) && (|g| == 1 ==> g[0] >= 0x20 && g[0] != QUOTE && g[0] != BACKSLASH)
    case Esc(b) => IsEscapeLetter(b)
    case Hex(q) => IsQuad(q) && !IsHighSurrogate(HexQuad(q)) && !IsLowSurrogate(HexQuad(q))
    case Pair(h, l) => IsQuad(h) && IsQuad(l) && IsHighSurrogate(HexQuad(h)) && IsLowSurrogate(HexQuad(l))
  }

  function UnitText(u: StrUnit): Bytes {
    match u
    case Raw(g) => g
    case Esc(b) => [BACKSLASH, b]
    case Hex(q) => [BACKSLASH, LOWER_U] + q
    case Pair(h, l) => [BACKSLASH, LOWER_U] + h + [BACKSLASH, LOWER_U] + l
  }

  function UnitValue(u: StrUnit): Bytes
    requires IsUnit(u)
  {
    match u
    case Raw(g) => g
    case Esc(b) => [EscapeValue(b)]
    case Hex(q) => UpToThreeBytes(HexQuad(q))
    case Pair(h, l) => FourBytes(PairValue(HexQuad(h), HexQuad(l)))
  }

  predicate AreUnits(us: seq<StrUnit>) {
    forall i :: 0 <= i < |us| ==> IsUnit(us[i])
  }

  function UnitsText(us: seq<StrUnit>): Bytes {
    if us == [] then [] else UnitsText(us[..|us| - 1]) + UnitText(us[|us| - 1])
  }

  function UnitsValue(us: seq<StrUnit>): Bytes
    requires AreUnits(us)
  {
    if us == [] then [] else UnitsValue(us[..|us| - 1]) + UnitValue(us[|us| - 1])
  }

  /** How many bytes a unit holds in the parse buffer while it is read: an escape's digits pass through it. */
  function UnitPeak(u: StrUnit): nat {
    match u
    case Raw(g) => |g|
    case Esc(_) => 1
    case Hex(_) => 4
    case Pair(_, _) => 4
  }

  /** The most bytes a string holds in the parse buffer while it is read. */
  function UnitsPeak(us: seq<StrUnit>): nat
    requires AreUnits(us)
  {
    if us == [] then 0
    else
      var n := |us| - 1;
      Max(UnitsPeak(us[..n]), |UnitsValue(us[..n])| + UnitPeak(us[n]))
  }

  function Max(a: nat, b: nat): nat { if a < b then b else a }

  // ---------------------------------------------------------------- numbers

  datatype Exponent = Exponent(mark: Byte, sign: Bytes, power: Bytes)

  /** A number, or a beginning of one (section 2.4 of RFC 4627). */
  datatype Number = Number(minus: bool, whole: Bytes, frac: Option<Bytes>, exp: Option<Exponent>)

  predicate AreDigits(s: Bytes) {
    forall i :: 0 <= i < |s| ==> IsDigit(s[i])
  }

  /** The integer part: a zero alone, or digits that do not start with a zero. */
  predicate IsWhole(s: Bytes) {
    s == [0x30] || (|s| > 0 && AreDigits(s) && s[0] != 0x30)
  }

  predicate IsMark(b: Byte) { b == 0x65 || b == 0x45 }
  predicate IsSign(s: Bytes) { s == [] || s == [0x2b] || s == [0x2d] }

  /**
    The numbers libjson accepts. They are those of section 2.4 of RFC 4627 except
    that an exponent directly after a lone zero, as in `0e5`, is refused.
   */
  predicate IsNumber(n: Number) {
    && IsWhole(n.whole)
    && (n.frac.Some? ==> |n.frac.value| > 0 && AreDigits(n.frac.value))
    && (n.exp.Some? ==>
          && IsMark(n.exp.value.mark) && IsSign(n.exp.value.sign)
          && |n.exp.value.power| > 0 && AreDigits(n.exp.value.power)
          && (n.whole == [0x30] ==> n.frac.Some?))
  }

  function NumberText(n: Number): Bytes {
    (if n.minus then [0x2d] else []) + n.whole
    + (if n.frac.Some? then [0x2e] + n.frac.value else [])
    + (if n.exp.Some? then [n.exp.value.mark] + n.exp.value.sign + n.exp.value.power else [])
  }

  function NumberKind(n: Number): JsonType {
    if n.frac.Some? || n.exp.Some? then JsonFloat else JsonInt
  }

  // ---------------------------------------------------------------- names

  predicate IsName(kind: JsonType) { kind.JsonTrue? || kind.JsonFalse? || kind.JsonNull? }

  type NameKind = kind: JsonType | IsName(kind) witness JsonNull

  function NameText(kind: JsonType): Bytes {
    match kind
    case JsonTrue => [0x74, 0x72, 0x75, 0x65]
    case JsonFalse => [0x66, 0x61, 0x6c, 0x73, 0x65]
    case JsonNull => [0x6e, 0x75, 0x6c, 0x6c]
    case _ => []
  }

  // ---------------------------------------------------------------- tokens and lexemes

  predicate IsStructuralChar(b: Byte) {
    b == LCURB || b == RCURB || b == LSQRB || b == RSQRB || b == COLON || b == COMMA
  }

  datatype Token =
    | TPunct(ch: Byte)
    | TStr(value: Bytes)
    | TNum(number: Number)
    | TName(kind: NameKind)

  datatype Lexeme =
    | Space(ch: Byte)
    | Punct(ch: Byte)
    | StrLex(units: seq<StrUnit>)
    | NumLex(number: Number)
    | NameLex(kind: NameKind)
    | BlockComment(body: seq<Bytes>)
    | LineComment(body: seq<Bytes>)

  predicate IsWhite(b: Byte) { b == 0x20 || b == 0x09 || b == 0x0a || b == 0x0d }

  predicate ArePlain(groups: seq<Bytes>) {
    forall i :: 0 <= i < |groups| ==> IsPlainGroup(groups[i])
  }

  /** The body of a block comment does not contain the closing mark. */
  predicate IsBlockBody(body: seq<Bytes>) {
    ArePlain(body) && forall i :: 0 <= i < |body| - 1 ==> !(body[i] == [STAR] && body[i + 1] == [SLASH])
  }

  predicate IsLineBody(body: seq<Bytes>) {
    ArePlain(body) && forall i :: 0 <= i < |body| ==> body[i] != [NEWLINE]
  }

  predicate IsLexeme(l: Lexeme) {
    match l
    case Space(b) => IsWhite(b)
    case Punct(b) => IsStructuralChar(b)
    case StrLex(us) => AreUnits(us)
    case NumLex(n) => IsNumber(n)
    case NameLex(_) => true
    case BlockComment(body) => IsBlockBody(body)
    case LineComment(body) => IsLineBody(body)
  }

  function LexemeText(l: Lexeme): Bytes {
    match l
    case Space(b) => [b]
    case Punct(b) => [b]
    case StrLex(us) => [QUOTE] + UnitsText(us) + [QUOTE]
    case NumLex(n) => NumberText(n)
    case NameLex(k) => NameText(k)
    case BlockComment(body) => [SLASH, STAR] + Concat(body) + [STAR, SLASH]
    case LineComment(body) => [HASH] + Concat(body) + [NEWLINE]
  }

  predicate IsComment(l: Lexeme) { l.BlockComment? || l.LineComment? }

  /**
    libjson refuses a comment directly after a number with an exponent, as in
    `[1e5#...`; anywhere else a comment may stand where white space may.
   */
  predicate EndsInExponent(ls: seq<Lexeme>) {
    ls != [] && ls[|ls| - 1].NumLex? && ls[|ls| - 1].number.exp.Some?
  }

  predicate CommentsPlaced(ls: seq<Lexeme>) {
    forall i :: 0 <= i < |ls| && IsComment(ls[i]) ==> !EndsInExponent(ls[..i])
  }

  /** What a lexeme means: a token, or nothing. */
  function Meaning(l: Lexeme): seq<Token>
    requires IsLexeme(l)
  {
    match l
    case Punct(b) => [TPunct(b)]
    case StrLex(us) => [TStr(UnitsValue(us))]
    case NumLex(n) => [TNum(n)]
    case NameLex(k) => [TName(k)]
    case _ => []
  }

  /** The most bytes of the parse buffer a lexeme takes. */
  function Width(l: Lexeme): nat
    requires IsLexeme(l)
  {
    match l
    case StrLex(us) => UnitsPeak(us)
    case NumLex(n) => |NumberText(n)|
    case _ => 0
  }

  predicate AreLexemes(ls: seq<Lexeme>) {
    forall i :: 0 <= i < |ls| ==> IsLexeme(ls[i])
  }

  function Text(ls: seq<Lexeme>): Bytes {
    if ls == [] then [] else Text(ls[..|ls| - 1]) + LexemeText(ls[|ls| - 1])
  }

  function Meanings(ls: seq<Lexeme>): seq<Token>
    requires AreLexemes(ls)
  {
    if ls == [] then [] else Meanings(ls[..|ls| - 1]) + Meaning(ls[|ls| - 1])
  }

  predicate CommentFree(ls: seq<Lexeme>) {
    forall i :: 0 <= i < |ls| ==> !IsComment(ls[i])
  }

  // ---------------------------------------------------------------- documents

  datatype Tree =
    | Str(value: Bytes)
    | Num(number: Number)
    | Name(kind: NameKind)
    | Arr(items: seq<Tree>)
    | Obj(members: seq<Member>)

  datatype Member = Member(key: Bytes, value: Tree)

  /** The document's tokens, in order. */
  function Tokens(t: Tree): seq<Token>
    decreases t, 0
  {
    match t
    case Str(v) => [TStr(v)]
    case Num(n) => [TNum(n)]
    case Name(k) => [TName(k)]
    case Arr(items) => [TPunct(LSQRB)] + ItemTokens(items) + [TPunct(RSQRB)]
    case Obj(members) => [TPunct(LCURB)] + MemberTokens(members) + [TPunct(RCURB)]
  }

  function ItemTokens(items: seq<Tree>): seq<Token>
    decreases items, 2
  {
    if items == [] then []
    else ItemsThenCommas(items[..|items| - 1]) + Tokens(items[|items| - 1])
  }

  function ItemsThenCommas(items: seq<Tree>): seq<Token>
    decreases items, 1
  {
    if items == [] then []
    else ItemsThenCommas(items[..|items| - 1]) + Tokens(items[|items| - 1]) + [TPunct(COMMA)]
  }

  function MemberTokens(members: seq<Member>): seq<Token>
    decreases members, 2
  {
    if members == [] then []
    else
      var last := members[|members| - 1];
      MembersThenCommas(members[..|members| - 1]) + [TStr(last.key), TPunct(COLON)] + Tokens(last.value)
  }

  function MembersThenCommas(members: seq<Member>): seq<Token>
    decreases members, 1
  {
    if members == [] then []
    else
      var last := members[|members| - 1];
      MembersThenCommas(members[..|members| - 1]) + [TStr(last.key), TPunct(COLON)] + Tokens(last.value)
      + [TPunct(COMMA)]
  }

  /** The events that describe the document to a callback, and to the printer. */
  function Events(t: Tree): seq<Event>
    decreases t, 0
  {
    match t
    case Str(v) => [Event(JsonString, v)]
    case Num(n) => [Event(NumberKind(n), NumberText(n))]
    case Name(k) => [Event(k, [])]
    case Arr(items) => [Event(JsonArrayBegin, [])] + ItemEvents(items) + [Event(JsonArrayEnd, [])]
    case Obj(members) => [Event(JsonObjectBegin, [])] + MemberEvents(members) + [Event(JsonObjectEnd, [])]
  }

  function ItemEvents(items: seq<Tree>): seq<Event>
    decreases items, 1
  {
    if items == [] then [] else ItemEvents(items[..|items| - 1]) + Events(items[|items| - 1])
  }

  function MemberEvents(members: seq<Member>): seq<Event>
    decreases members, 1
  {
    if members == [] then []
    else
      var last := members[|members| - 1];
      MemberEvents(members[..|members| - 1]) + [Event(JsonKey, last.key)] + Events(last.value)
  }

  /** A JSON text is an object or an array (section 2 of RFC 4627). */
  predicate IsContainer(t: Tree) { t.Arr? || t.Obj? }

  /** How deeply a tree nests objects and arrays. */
  function Depth(t: Tree): nat
    decreases t, 0
  {
    match t
    case Arr(items) => 1 + ItemsDepth(items)
    case Obj(members) => 1 + MembersDepth(members)
    case _ => 0
  }

  function ItemsDepth(items: seq<Tree>): nat
    decreases items, 1
  {
    if items == [] then 0 else Max(ItemsDepth(items[..|items| - 1]), Depth(items[|items| - 1]))
  }

  function MembersDepth(members: seq<Member>): nat
    decreases members, 1
  {
    if members == [] then 0 else Max(MembersDepth(members[..|members| - 1]), Depth(members[|members| - 1].value))
  }

  /** `bytes` is a way to write `t`, spelled by the lexemes `ls`. */
  ghost predicate Spells(ls: seq<Lexeme>, bytes: Bytes, t: Tree) {
    AreLexemes(ls) && Text(ls) == bytes && Meanings(ls) == Tokens(t)
  }
}
