/**
  Unicode escapes: `\uXXXX` and surrogate pairs append exactly the UTF-8 encoding
  of section 3 of RFC 3629, and nothing else is accepted.
 */
module Unicode {
  import opened JsonTables
  import opened ParserSpec
  import opened Grammar
  import opened TokenMachine
  import opened ReadsLexemes
  import opened FindsLexemes
  import opened ParserTheorems
  import opened Powers

  predicate IsScalar(cp: nat) { cp <= 0x10ffff && !(0xd800 <= cp < 0xe000) }

  /** The length of the encoding of a code point, by the table of section 3 of RFC 3629. */
  function EncodedLength(cp: nat): nat {
    if cp <= 0x7f then 1 else if cp <= 0x7ff then 2 else if cp <= 0xffff then 3 else 4
  }

  /** The payload of the continuation bytes, read as one number. */
  function TailBits(s: Bytes): nat
    requires AreContinuations(s)
  {
    if s == [] then 0 else TailBits(s[..|s| - 1]) * 0x40 + Payload(s[|s| - 1])
  }

  predicate AreContinuations(s: Bytes) { forall i :: 0 <= i < |s| ==> IsContinuation(s[i]) }

  function Payload(b: Byte): nat
    requires IsContinuation(b)
  {
    b - 0x80
  }

  function Weight(n: nat): nat { if n == 0 then 1 else 0x40 * Weight(n - 1) }

  /** The mark of a lead byte: the bits 0, 110, 1110 or 11110. */
  function LeadMark(n: nat): nat { if n == 1 then 0 else if n == 2 then 0xc0 else if n == 3 then 0xe0 else 0xf0 }

  /** `bs` is the encoding of `cp`: as long as the table says, with its payload bits making up `cp`. */
  ghost predicate Encodes(bs: Bytes, cp: nat) {
    && |bs| == EncodedLength(cp)
    && AreContinuations(bs[1..])
    && bs[0] >= LeadMark(|bs|)
    && cp == (bs[0] - LeadMark(|bs|)) * Weight(|bs| - 1) + TailBits(bs[1..])
  }

  lemma {:induction false} TailBitsBelow(s: Bytes)
    requires AreContinuations(s)
    ensures TailBits(s) < Weight(|s|)
  {
    if s != [] { TailBitsBelow(s[..|s| - 1]); }
  }

  lemma {:induction false} TailBitsInjective(s: Bytes, t: Bytes)
    requires |s| == |t| && AreContinuations(s) && AreContinuations(t) && TailBits(s) == TailBits(t)
    ensures s == t
  {
    if s != [] {
      var n := |s| - 1;
      assert TailBits(s) == TailBits(s[..n]) * 0x40 + Payload(s[n]);
      assert TailBits(t) == TailBits(t[..n]) * 0x40 + Payload(t[n]);
      SameQuotient(TailBits(s[..n]), Payload(s[n]), TailBits(t[..n]), Payload(t[n]), 0x40);
      TailBitsInjective(s[..n], t[..n]);
      assert s == s[..n] + [s[n]] && t == t[..n] + [t[n]];
    }
  }

  lemma SameQuotient(q: nat, r: nat, q': nat, r': nat, w: nat)
    requires r < w && r' < w && q * w + r == q' * w + r'
    ensures q == q' && r == r'
  {
    if q < q' { Scale(q, q', w); } else if q' < q { Scale(q', q, w); }
  }

  lemma {:induction false} Scale(q: nat, q': nat, w: nat)
    requires q < q'
    ensures q * w + w <= q' * w
  {
    if q + 1 < q' { Scale(q, q' - 1, w); }
  }

  /** A code point has one encoding. */
  lemma EncodingIsUnique(a: Bytes, b: Bytes, cp: nat)
    requires Encodes(a, cp) && Encodes(b, cp)
    ensures a == b
  {
    TailBitsBelow(a[1..]);
    TailBitsBelow(b[1..]);
    SameQuotient(a[0] - LeadMark(|a|), TailBits(a[1..]), b[0] - LeadMark(|b|), TailBits(b[1..]), Weight(|a| - 1));
    TailBitsInjective(a[1..], b[1..]);
    assert a == [a[0]] + a[1..] && b == [b[0]] + b[1..];
  }

  // ---------------------------------------------------------------- escapes of code points

  /** A `\uXXXX` escape, or a pair of them. */
  predicate IsEscape(u: StrUnit) { IsUnit(u) && (u.Hex? || u.Pair?) }

  /** What an escape stands for (section 2.5 of RFC 4627; section 2.1 of RFC 2781 for pairs). */
  function CodePoint(u: StrUnit): nat
    requires IsEscape(u)
  {
    match u
    case Hex(q) => HexQuad(q)
    case Pair(h, l) => 0x10000 + (HexQuad(h) - 0xd800) * 0x400 + (HexQuad(l) - 0xdc00)
  }

  lemma Hexits(u: nat)
    ensures u == u / 0x1000 * 0x1000 + u / 0x100 % 0x10 * 0x100 + u / 0x10 % 0x10 * 0x10 + u % 0x10
  {
    assert u / 0x100 == u / 0x10 / 0x10 && u / 0x1000 == u / 0x100 / 0x10;
  }

  lemma EncodesOne(cp: nat)
    requires cp < 0x80
    ensures Encodes([cp], cp)
  {
    assert [cp][1..] == [];
    assert TailBits([]) == 0 && Weight(0) == 1;
  }

  lemma EncodesTwo(a: Byte, b: Byte, cp: nat)
    requires 0x80 <= cp <= 0x7ff && a == cp / 0x40 + 0xc0 && b == cp % 0x40 + 0x80
    ensures Encodes([a, b], cp)
  {
    assert [a, b][1..] == [b];
    TailOne(b);
    assert Weight(1) == 0x40;
  }

  lemma TailOne(b: Byte)
    requires IsContinuation(b)
    ensures AreContinuations([b]) && TailBits([b]) == Payload(b)
  {
    assert [b][..0] == [];
  }

  lemma TailSnoc(s: Bytes, b: Byte)
    requires AreContinuations(s) && IsContinuation(b)
    ensures AreContinuations(s + [b]) && TailBits(s + [b]) == TailBits(s) * 0x40 + Payload(b)
  {
    assert (s + [b])[..|s|] == s;
  }

  lemma EncodesThree(a: Byte, b: Byte, c: Byte, cp: nat)
    requires 0x800 <= cp <= 0xffff
    requires a == cp / 0x1000 + 0xe0 && b == cp / 0x40 % 0x40 + 0x80 && c == cp % 0x40 + 0x80
    ensures Encodes([a, b, c], cp)
  {
    TailOne(b);
    TailSnoc([b], c);
    assert [a, b, c][1..] == [b] + [c];
    assert Weight(2) == 0x40 * Weight(1) == 0x1000;
    hide TailBits, Weight;
  }

  lemma EncodesFour(a: Byte, b: Byte, c: Byte, d: Byte, cp: nat)
    requires 0x10000 <= cp <= 0x10ffff
    requires a == cp / 0x40000 + 0xf0 && b == cp / 0x1000 % 0x40 + 0x80
    requires c == cp / 0x40 % 0x40 + 0x80 && d == cp % 0x40 + 0x80
    ensures Encodes([a, b, c, d], cp)
  {
    TailOne(b);
    TailSnoc([b], c);
    TailSnoc([b] + [c], d);
    assert [a, b, c, d][1..] == [b] + [c] + [d];
    assert Weight(3) == 0x40 * Weight(2) == 0x40 * 0x40 * Weight(1) == 0x40000;
    hide TailBits, Weight;
    Base64Digits(cp);
  }

  lemma Base64Digits(cp: nat)
    ensures cp == (cp / 0x40000) * 0x40000 + ((cp / 0x1000 % 0x40) * 0x40 + cp / 0x40 % 0x40) * 0x40 + cp % 0x40
  {
    assert cp / 0x1000 == cp / 0x40 / 0x40;
    assert cp / 0x40000 == cp / 0x1000 / 0x40;
  }

  /** What an escape appends is the encoding of what it stands for. */
  lemma EscapeEncodes(u: StrUnit)
    requires IsEscape(u)
    ensures IsScalar(CodePoint(u)) && Encodes(UnitValue(u), CodePoint(u))
  {
    hide Encodes, HexQuad;
    var cp := CodePoint(u);
    if u.Hex? {
      if cp < 0x80 {
        EncodesOne(cp);
      } else if cp < 0x800 {
        EncodesTwo(cp / 0x40 + 0xc0, cp % 0x40 + 0x80, cp);
      } else {
        EncodesThree(cp / 0x1000 + 0xe0, cp / 0x40 % 0x40 + 0x80, cp % 0x40 + 0x80, cp);
      }
    } else {
      PairIs(HexQuad(u.high), HexQuad(u.low));
      EncodesFour(cp / 0x40000 + 0xf0, cp / 0x1000 % 0x40 + 0x80, cp / 0x40 % 0x40 + 0x80, cp % 0x40 + 0x80, cp);
    }
  }

  lemma PairIs(high: nat, low: nat)
    requires IsHighSurrogate(high) && IsLowSurrogate(low)
    ensures PairValue(high, low) == 0x10000 + (high - 0xd800) * 0x400 + (low - 0xdc00) <= 0x10ffff
  {
  }

  /** A parser between the characters of a string. */
  predicate BetweenChars(p: Parser) {
    p.state == STATE_S && p.utf8Left == 0 && p.unicodeMulti == 0 && p.kind == JsonNone
  }

  /** `q` is a 16-bit number as four hexadecimal digits, each in either case. */
  predicate WritesQuad(q: Bytes, n: nat) {
    && n < 0x10000 && |q| == 4
    && IsDigitOf(q[0], n / 0x1000) && IsDigitOf(q[1], n / 0x100 % 0x10)
    && IsDigitOf(q[2], n / 0x10 % 0x10) && IsDigitOf(q[3], n % 0x10)
  }

  /** The surrogates of a code point (section 2.1 of RFC 2781). */
  function HighOf(cp: nat): nat
    requires cp >= 0x10000
  {
    0xd800 + (cp - 0x10000) / 0x400
  }

  function LowOf(cp: nat): nat
    requires cp >= 0x10000
  {
    0xdc00 + (cp - 0x10000) % 0x400
  }

  /** `text` is an escape of the code point: one `\uXXXX`, or two for a surrogate pair. */
  ghost predicate WritesPoint(text: Bytes, cp: nat) {
    if cp < 0x10000 then exists q: Bytes :: WritesQuad(q, cp) && text == [BACKSLASH, LOWER_U] + q
    else exists h: Bytes, l: Bytes ::
        WritesQuad(h, HighOf(cp)) && WritesQuad(l, LowOf(cp))
        && text == [BACKSLASH, LOWER_U] + h + [BACKSLASH, LOWER_U] + l
  }

  lemma QuadIs(q: Bytes, n: nat)
    requires WritesQuad(q, n)
    ensures IsQuad(q) && HexQuad(q) == n
  {
    hide IsDigitOf, HexValue, IsHexDigit;
    HexValueIs(q[0], n / 0x1000);
    HexValueIs(q[1], n / 0x100 % 0x10);
    HexValueIs(q[2], n / 0x10 % 0x10);
    HexValueIs(q[3], n % 0x10);
    Hexits(n);
  }

  lemma EscapeOf(text: Bytes, cp: nat) returns (u: StrUnit)
    requires IsScalar(cp) && WritesPoint(text, cp)
    ensures IsEscape(u) && UnitText(u) == text && CodePoint(u) == cp
  {
    hide WritesQuad, HexQuad, IsQuad;
    if cp < 0x10000 {
      var q: Bytes :| WritesQuad(q, cp) && text == [BACKSLASH, LOWER_U] + q;
      QuadIs(q, cp);
      u := Hex(q);
    } else {
      var h: Bytes, l: Bytes :| WritesQuad(h, HighOf(cp)) && WritesQuad(l, LowOf(cp))
                                && text == [BACKSLASH, LOWER_U] + h + [BACKSLASH, LOWER_U] + l;
      QuadIs(h, HighOf(cp));
      QuadIs(l, LowOf(cp));
      u := Pair(h, l);
    }
  }

  /**
    An escape of any code point that is not a surrogate, or a pair of them, its digits
    in any mix of case, is accepted inside a string and appends exactly the UTF-8
    encoding of that code point.
   */
  lemma EscapeAppendsUtf8(cfg: Config, p: Parser, text: Bytes, cp: nat)
    requires BetweenChars(p) && IsScalar(cp) && WritesPoint(text, cp) && Room(cfg, p, 4)
    ensures var o := Feed(cfg, p, text);
            o.ret == 0 && exists bs: Bytes :: Encodes(bs, cp) && Grew(p, o.p, bs)
  {
    hide Encodes, Feed, StepByte, UnitText, UnitValue, HexQuad, IsQuad, WritesPoint;
    var u := EscapeOf(text, cp);
    EscapeEncodes(u);
    FeedUnit(cfg, p, u);
  }

  /** Every code point that is not a surrogate has an escape. */
  lemma EveryScalarHasEscape(cp: nat) returns (text: Bytes)
    requires IsScalar(cp)
    ensures WritesPoint(text, cp)
  {
    hide WritesQuad;
    if cp < 0x10000 {
      var q := QuadOf(cp);
      text := [BACKSLASH, LOWER_U] + q;
    } else {
      var h := QuadOf(HighOf(cp));
      var l := QuadOf(LowOf(cp));
      text := [BACKSLASH, LOWER_U] + h + [BACKSLASH, LOWER_U] + l;
    }
  }

  lemma QuadOf(n: nat) returns (q: Bytes)
    requires n < 0x10000
    ensures WritesQuad(q, n)
  {
    var a, b, c, d := n / 0x1000, n / 0x100 % 0x10, n / 0x10 % 0x10, n % 0x10;
    q := [DigitOf(a), DigitOf(b), DigitOf(c), DigitOf(d)];
  }

  function DigitOf(d: nat): (b: Byte)
    requires d < 16
    ensures IsDigitOf(b, d)
  {
    if d < 10 then 0x30 + d else 0x61 + d - 10
  }

  /** The encoding of every code point is a complete character of the parser's tables, so it may also stand as it is. */
  lemma EncodingIsGroup(bs: Bytes, cp: nat)
    requires IsScalar(cp) && Encodes(bs, cp)
    ensures IsUtf8Group(bs)
  {
    if |bs| > 1 { TailBitsBelow(bs[1..]); }
    assert Weight(1) == 0x40 && Weight(2) == 0x40 * Weight(1) && Weight(3) == 0x40 * Weight(2);
    assert forall i :: 1 <= i < |bs| ==> bs[i] == bs[1..][i - 1];
  }

  /** The letters that may follow a backslash, and the characters they stand for (section 2.5 of RFC 4627). */
  const ESCAPE_LETTERS: string := "\"\\/bfnrt"
  const ESCAPE_VALUES: Bytes := [0x22, 0x5c, 0x2f, 0x08, 0x0c, 0x0a, 0x0d, 0x09]

  /** An escape of two characters appends the character it stands for; no other letter is an escape. */
  lemma LetterAppends(cfg: Config, p: Parser, letter: Byte)
    requires BetweenChars(p) && Room(cfg, p, 1) && letter != LOWER_U && letter < 0x80
    ensures var o := Feed(cfg, p, [BACKSLASH, letter]);
            o.ret == 0 <==> exists i: nat :: i < 8 && letter == ESCAPE_LETTERS[i] as int
    ensures forall i: nat :: i < 8 && letter == ESCAPE_LETTERS[i] as int ==>
              Grew(p, Feed(cfg, p, [BACKSLASH, letter]).p, [ESCAPE_VALUES[i]])
  {
    hide Feed, StepByte;
    Letters(letter);
    if IsEscapeLetter(letter) {
      FeedUnit(cfg, p, Esc(letter));
      assert UnitText(Esc(letter)) == [BACKSLASH, letter];
    } else {
      SkipStep(cfg, p, BACKSLASH, C_BACKS, STATE_E0);
      var q := p.(state := STATE_E0);
      FeedCons(cfg, p, BACKSLASH, [letter]);
      FeedOne(cfg, q, letter);
      assert [BACKSLASH] + [letter] == [BACKSLASH, letter];
      NotEscape(cfg, q, letter);
    }
  }

  lemma NotEscape(cfg: Config, p: Parser, letter: Byte)
    requires p.state == STATE_E0 && p.utf8Left == 0 && !IsEscapeLetter(letter) && letter != LOWER_U && letter < 0x80
    ensures StepByte(cfg, p, letter).ret != 0
  {
    var c := CharacterClass(letter);
    assert c == C_ERROR || Transition(STATE_E0, c) == REJECT;
    if c != C_ERROR { RefusedStep(cfg, p, letter); }
  }

  lemma Letters(letter: Byte)
    ensures IsEscapeLetter(letter) <==> exists i: nat :: i < 8 && letter == ESCAPE_LETTERS[i] as int
    ensures forall i: nat :: i < 8 && letter == ESCAPE_LETTERS[i] as int ==> EscapeValue(letter) == ESCAPE_VALUES[i]
  {
    assert IsEscapeLetter(letter) ==>
        exists i: nat :: i < 8 && letter == ESCAPE_LETTERS[i] as int by {
      if IsEscapeLetter(letter) {
        var i := if letter == 0x22 then 0 else if letter == 0x5c then 1 else if letter == 0x2f then 2
                 else if letter == 0x62 then 3 else if letter == 0x66 then 4 else if letter == 0x6e then 5
                 else if letter == 0x72 then 6 else 7;
        assert letter == ESCAPE_LETTERS[i] as int;
      }
    }
  }

  /**
    A lead byte has as many continuations as it has high bits set before the first
    clear one, less itself; no other byte but ASCII is a lead byte.
   */
  lemma HeaderCountsBits(ch: Byte)
    ensures 1 <= Utf8Header(ch) <= 5 ==>
              var n := Utf8Header(ch); 0x100 - Pow2(7 - n) <= ch < 0x100 - Pow2(6 - n)
    ensures Utf8Header(ch) == 0 <==> ch < 0x80
    ensures Utf8Header(ch) <= 5 || (Utf8Header(ch) == 0xff && (IsContinuation(ch) || ch >= 0xfe))
  {
    assert Pow2(1) == 2 && Pow2(2) == 4 && Pow2(3) == 8 && Pow2(4) == 16 && Pow2(5) == 32 && Pow2(6) == 64 by {
      PowStep(0); PowStep(1); PowStep(2); PowStep(3); PowStep(4); PowStep(5);
    }
  }

  // ---------------------------------------------------------------- errors

  /** A low surrogate with no high one before it is refused. */
  lemma LoneLowIsRefused(cfg: Config, p: Parser, l: Bytes)
    requires BetweenChars(p) && IsQuad(l) && IsLowSurrogate(HexQuad(l)) && Room(cfg, p, 4)
    ensures Feed(cfg, p, [BACKSLASH, LOWER_U] + l).ret == ERROR_UNEXPECTED_LOW_SURROGATE
  {
    hide StepByte, Feed, HexQuad;
    FeedBackslashU(cfg, p);
    FeedQuad(cfg, p.(state := STATE_U1), l);
    QuadEnds(p.buffer, l);
    FeedAppend(cfg, p, [BACKSLASH, LOWER_U], l);
  }

  /** After a high surrogate, four digits that are not a low surrogate are refused. */
  lemma MissingLowIsRefused(cfg: Config, p: Parser, h: Bytes, q: Bytes)
    requires BetweenChars(p) && IsQuad(h) && IsHighSurrogate(HexQuad(h)) && Room(cfg, p, 4)
    requires IsQuad(q) && !IsLowSurrogate(HexQuad(q))
    ensures Feed(cfg, p, [BACKSLASH, LOWER_U] + h + ([BACKSLASH, LOWER_U] + q)).ret == ERROR_MISSING_LOW_SURROGATE
  {
    hide StepByte, Feed, HexQuad;
    FeedHigh(cfg, p, h);
    var p1 := Feed(cfg, p, [BACKSLASH, LOWER_U] + h).p;
    FeedBackslashU(cfg, p1);
    FeedQuad(cfg, p1.(state := STATE_U1), q);
    QuadEnds(p1.buffer, q);
    FeedAppend(cfg, p1, [BACKSLASH, LOWER_U], q);
    FeedAppend(cfg, p, [BACKSLASH, LOWER_U] + h, [BACKSLASH, LOWER_U] + q);
  }

  /** After a high surrogate, anything but `\` is refused, and after that anything but `u`. */
  lemma OnlyEscapeFollowsHigh(cfg: Config, p: Parser, ch: Byte)
    requires (p.state == STATE_D1 && ch != BACKSLASH) || (p.state == STATE_D2 && ch != LOWER_U)
    requires p.utf8Left == 0
    ensures StepByte(cfg, p, ch).ret != 0
  {
    hide StepByte;
    if StepByte(cfg, p, ch).ret == 0 { StepTook(cfg, p, ch); }
  }

  /** How a text goes on after a high surrogate, short of the end of its low half. */
  predicate IsHalfRest(rest: Bytes) {
    rest == [] || rest == [BACKSLASH]
    || (2 <= |rest| < 6 && rest[..2] == [BACKSLASH, LOWER_U] && AllHex(rest[2..]))
  }

  /** `bytes` ends inside a pair: `pre` leaves a string between characters, and `h` is its high half. */
  ghost predicate EndsInPair(cfg: Config, bytes: Bytes, pre: Bytes, h: Bytes, rest: Bytes) {
    && bytes == pre + ([BACKSLASH, LOWER_U] + h) + rest
    && IsHighQuad(h) && IsHalfRest(rest)
    && Feed(cfg, Init(cfg), pre).ret == 0 && BetweenChars(Feed(cfg, Init(cfg), pre).p)
  }

  /**
    On every run that has returned 0, `unicode_multi` is non-zero exactly between
    the halves of a pair, and then it is the high half.
   */
  lemma MultiMeansHalfPair(cfg: Config, bytes: Bytes)
    requires Feed(cfg, Init(cfg), bytes).ret == 0
    ensures var p := Feed(cfg, Init(cfg), bytes).p;
            && (p.unicodeMulti != 0 <==>
                  exists pre: Bytes, h: Bytes, rest: Bytes :: EndsInPair(cfg, bytes, pre, h, rest))
            && forall pre: Bytes, h: Bytes, rest: Bytes ::
                 EndsInPair(cfg, bytes, pre, h, rest) ==> p.unicodeMulti == HexQuad(h)
  {
    var p := Feed(cfg, Init(cfg), bytes).p;
    hide Feed, StepByte, EndsInPair, HexQuad, AllHex;
    if p.unicodeMulti != 0 {
      var pre, h, rest := PairOf(cfg, bytes);
    }
    forall pre: Bytes, h: Bytes, rest: Bytes | EndsInPair(cfg, bytes, pre, h, rest)
      ensures p.unicodeMulti == HexQuad(h) != 0
    {
      PairTook(cfg, bytes, pre, h, rest);
    }
  }

  /** The half-read pair at the end of a text. */
  lemma PairOf(cfg: Config, bytes: Bytes) returns (pre: Bytes, h: Bytes, rest: Bytes)
    requires Feed(cfg, Init(cfg), bytes).ret == 0 && Feed(cfg, Init(cfg), bytes).p.unicodeMulti != 0
    ensures EndsInPair(cfg, bytes, pre, h, rest)
  {
    hide Feed, StepByte;
    var sc := RunTracks(cfg, bytes);
    var p := Feed(cfg, Init(cfg), bytes).p;
    FeedAccepts(cfg, Init(cfg), bytes);
    MultiIsTail(cfg, p, sc);
    StringOpens(cfg, p, sc);
    pre, h, rest := PairText(sc);
    hide Tracks, TailOk, IsHalfRest, IsHighQuad, ScanText, BetweenChars;
  }

  /** The text before an unfinished character leaves the parser between characters. */
  lemma StringOpens(cfg: Config, p: Parser, sc: Scan)
    requires Tracks(cfg, p, sc) && sc.piece.PStr? && Accepts(cfg, p.log)
    ensures var o := Feed(cfg, Init(cfg), Text(sc.ls) + ([QUOTE] + UnitsText(sc.piece.units)));
            o.ret == 0 && BetweenChars(o.p)
  {
    var us := sc.piece.units;
    hide Feed, StepByte, Text, CommentsPlaced;
    StringIsOpen(cfg, p, sc);
    hide InString, Stands, Limited, Sized;
    ReadLexemes(cfg, sc.ls, sc.c.events);
    var q := Feed(cfg, Init(cfg), Text(sc.ls)).p;
    hide Between, LexemesRead, PieceAt, Tracks, BetweenChars, IsStructural;
    UnitsLead(cfg, q, sc.c, us);
    FeedAppend(cfg, Init(cfg), Text(sc.ls), [QUOTE] + UnitsText(us));
  }

  lemma StringIsOpen(cfg: Config, p: Parser, sc: Scan)
    requires Tracks(cfg, p, sc) && sc.piece.PStr?
    ensures p.log == sc.c.events && sc.c.state != STATE_OK && (KeyExpected(sc.c.state) || ValueExpected(sc.c.state))
    ensures AreUnits(sc.piece.units) && (cfg.maxData == 0 || UnitsPeak(sc.piece.units) < cfg.maxData)
    ensures LexemesRead(cfg, sc.ls, sc.c)
  {
    hide UnitsPeak, UnitsValue, LexemesRead, TailOk, AreUnits, Limited, Sized;
  }

  lemma UnitsLead(cfg: Config, p: Parser, c: Control, us: seq<StrUnit>)
    requires Between(p, c) && c.state != STATE_OK && (KeyExpected(c.state) || ValueExpected(c.state))
    requires AreUnits(us) && (cfg.maxData == 0 || UnitsPeak(us) < cfg.maxData)
    ensures var o := Feed(cfg, p, [QUOTE] + UnitsText(us)); o.ret == 0 && BetweenChars(o.p)
  {
    assert Rests(p, c) && p.buffer == [];
    SkipStep(cfg, p, QUOTE, C_QUOTE, STATE_S);
    hide Feed, StepByte, UnitsText, UnitsValue, UnitsPeak, Rests;
    FeedUnits(cfg, p.(state := STATE_S), us);
    FeedCons(cfg, p, QUOTE, UnitsText(us));
  }

  lemma PairText(sc: Scan) returns (pre: Bytes, h: Bytes, rest: Bytes)
    requires sc.piece.PStr? && TailOk(sc.piece.tail)
    requires (sc.piece.tail.InHex? && sc.piece.tail.high.Some?) || sc.piece.tail.AwaitLow?
    ensures pre == Text(sc.ls) + ([QUOTE] + UnitsText(sc.piece.units))
    ensures ScanText(sc) == pre + ([BACKSLASH, LOWER_U] + h) + rest && IsHighQuad(h) && IsHalfRest(rest)
  {
    hide HexQuad, Text, UnitsText, AllHex, TailText, TailOk, IsHighQuad, IsHalfRest;
    pre := Text(sc.ls) + ([QUOTE] + UnitsText(sc.piece.units));
    h, rest := TailParts(sc.piece.tail);
    var text := TailText(sc.piece.tail);
    assert text == ([BACKSLASH, LOWER_U] + h) + rest;
    assert pre + ([BACKSLASH, LOWER_U] + h) + rest == pre + (([BACKSLASH, LOWER_U] + h) + rest);
    assert Text(sc.ls) + ([QUOTE] + UnitsText(sc.piece.units) + text) == pre + text;
  }

  lemma TailParts(tail: Tail) returns (h: Bytes, rest: Bytes)
    requires TailOk(tail) && ((tail.InHex? && tail.high.Some?) || tail.AwaitLow?)
    ensures TailText(tail) == [BACKSLASH, LOWER_U] + h + rest && IsHighQuad(h) && IsHalfRest(rest)
  {
    hide HexQuad, AllHex;
    if tail.InHex? {
      h, rest := tail.high.value, [BACKSLASH, LOWER_U] + tail.digits;
      assert rest[..2] == [BACKSLASH, LOWER_U] && rest[2..] == tail.digits;
    } else {
      h, rest := tail.half, if tail.slash then [BACKSLASH] else [];
    }
  }

  /** Digits of an escape before its last. */
  lemma {:induction false} DigitsTook(cfg: Config, p: Parser, digits: Bytes)
    requires p.state == STATE_U1 && p.utf8Left == 0 && Sized(cfg, p) && |digits| < 4
    requires Feed(cfg, p, digits).ret == 0
    ensures var o := Feed(cfg, p, digits);
            Grew(p.(state := STATE_U1 + |digits|), o.p, digits) && Sized(cfg, o.p)
  {
    hide StepByte, Feed;
    if digits == [] {
      FeedNothing(cfg, p);
      assert p.buffer + [] == p.buffer;
    } else {
      var n := |digits| - 1;
      assert digits == digits[..n] + [digits[n]];
      FeedSnoc(cfg, p, digits[..n], digits[n]);
      DigitsTook(cfg, p, digits[..n]);
      HexTook(cfg, Feed(cfg, p, digits[..n]).p, digits[n]);
      assert p.buffer + digits[..n] + [digits[n]] == p.buffer + digits;
    }
  }

  /** An accepted high half is kept. */
  lemma HighTook(cfg: Config, p: Parser, h: Bytes)
    requires BetweenChars(p) && Sized(cfg, p) && IsHighQuad(h)
    requires Feed(cfg, p, [BACKSLASH, LOWER_U] + h).ret == 0
    ensures var q := Feed(cfg, p, [BACKSLASH, LOWER_U] + h).p;
            q.state == STATE_D1 && q.utf8Left == 0 && q.unicodeMulti == HexQuad(h) && Sized(cfg, q)
  {
    FeedBackslashU(cfg, p);
    hide StepByte, Feed, HexQuad, AllHex;
    FeedAppend(cfg, p, [BACKSLASH, LOWER_U], h);
    HighQuadTook(cfg, p.(state := STATE_U1), h);
  }

  lemma HighQuadTook(cfg: Config, p: Parser, h: Bytes)
    requires p.state == STATE_U1 && p.utf8Left == 0 && p.unicodeMulti == 0 && Sized(cfg, p) && IsHighQuad(h)
    requires Feed(cfg, p, h).ret == 0
    ensures var q := Feed(cfg, p, h).p;
            q.state == STATE_D1 && q.utf8Left == 0 && q.unicodeMulti == HexQuad(h) && Sized(cfg, q)
  {
    hide StepByte, Feed, HexQuad, AllHex, EndsInHex;
    assert h == h[..3] + [h[3]];
    FeedSnoc(cfg, p, h[..3], h[3]);
    DigitsTook(cfg, p, h[..3]);
    var r := Feed(cfg, p, h[..3]).p;
    LastHexTook(cfg, r, h[3]);
    assert r.buffer + [h[3]] == p.buffer + h;
    QuadEnds(p.buffer, h);
  }

  /** What follows a high half, short of the low half's last digit, leaves it pending. */
  lemma RestKeepsHigh(cfg: Config, p: Parser, rest: Bytes)
    requires p.state == STATE_D1 && p.utf8Left == 0 && Sized(cfg, p) && IsHalfRest(rest)
    requires Feed(cfg, p, rest).ret == 0
    ensures Feed(cfg, p, rest).p.unicodeMulti == p.unicodeMulti
  {
    if rest == [] {
      FeedNothing(cfg, p);
    } else if rest == [BACKSLASH] {
      SkipStep(cfg, p, BACKSLASH, C_BACKS, STATE_D2);
      FeedOne(cfg, p, BACKSLASH);
    } else {
      FeedBackslashU(cfg, p);
      hide StepByte, Feed, AllHex;
      assert rest == [BACKSLASH, LOWER_U] + rest[2..];
      FeedAppend(cfg, p, [BACKSLASH, LOWER_U], rest[2..]);
      DigitsTook(cfg, p.(state := STATE_U1), rest[2..]);
    }
  }

  lemma PairTook(cfg: Config, bytes: Bytes, pre: Bytes, h: Bytes, rest: Bytes)
    requires Feed(cfg, Init(cfg), bytes).ret == 0 && EndsInPair(cfg, bytes, pre, h, rest)
    ensures Feed(cfg, Init(cfg), bytes).p.unicodeMulti == HexQuad(h) != 0
  {
    hide StepByte, Feed, HexQuad, IsHalfRest, AllHex;
    var sc := RunTracks(cfg, pre);
    var p := Feed(cfg, Init(cfg), pre).p;
    assert Sized(cfg, p);
    hide Tracks, BetweenChars, Sized;
    FeedAppend(cfg, Init(cfg), pre + ([BACKSLASH, LOWER_U] + h), rest);
    FeedAppend(cfg, Init(cfg), pre, [BACKSLASH, LOWER_U] + h);
    HighTook(cfg, p, h);
    RestKeepsHigh(cfg, Feed(cfg, p, [BACKSLASH, LOWER_U] + h).p, rest);
  }

  lemma MultiIsTail(cfg: Config, p: Parser, sc: Scan)
    requires Tracks(cfg, p, sc)
    ensures p.unicodeMulti != 0 ==>
              && sc.piece.PStr? && TailOk(sc.piece.tail) && p.unicodeMulti == TailHigh(sc.piece.tail)
              && ((sc.piece.tail.InHex? && sc.piece.tail.high.Some?) || sc.piece.tail.AwaitLow?)
  {
    hide LexemesRead, UnitsValue, UnitsPeak, HexQuad, NumberText, IsPartGroup;
  }
}
