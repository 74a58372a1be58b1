/**
  Bob Jenkins's hash function `hlookup` and its reversible mixing step `mix`, on
  32-bit words with C's wrap-around.
 */
module Lookupa {
  import opened JsonTables
  import opened Powers

  const WORDS: nat := 0x1_0000_0000

  type Word = w: nat | w < 0x1_0000_0000

  datatype Words = Words(a: Word, b: Word, c: Word)

  // ---------------------------------------------------------------- words

  function Add(x: Word, y: Word): Word { (x + y) % WORDS }
  function Sub(x: Word, y: Word): Word { (x - y) % WORDS }

  /** Shifts, bit by bit. */
  function Left(x: Word, n: nat): Word
    decreases n
  {
    if n == 0 then x else Left(x * 2 % WORDS, n - 1)
  }

  function Right(x: Word, n: nat): Word { if n == 0 then x else Right(x / 2, n - 1) }

  function XorBits(x: nat, y: nat, bits: nat): nat {
    if bits == 0 then 0 else 2 * XorBits(x / 2, y / 2, bits - 1) + (x + y) % 2
  }

  lemma {:induction false} XorBelow(x: nat, y: nat, bits: nat)
    ensures XorBits(x, y, bits) < Pow2(bits)
  {
    if bits > 0 { XorBelow(x / 2, y / 2, bits - 1); }
  }

  /** A left shift drops what leaves the word, and a right shift rounds down. */
  lemma {:induction false} LeftIs(x: Word, n: nat)
    ensures Left(x, n) == x * Pow2(n) % WORDS
    decreases n
  {
    if n > 0 {
      var y := x * 2 % WORDS;
      LeftIs(y, n - 1);
      PowStep(n - 1);
      assert x * 2 == x * 2 / WORDS * WORDS + y;
      Carries(x * 2 / WORDS, y, Pow2(n - 1));
      assert x * 2 * Pow2(n - 1) == x * Pow2(n);
    }
  }

  lemma Carries(q: nat, y: nat, p: nat)
    ensures (q * WORDS + y) * p % WORDS == y * p % WORDS
  {
    assert (q * WORDS + y) * p == y * p + q * p * WORDS;
    AddsWords(y * p, q * p);
  }

  lemma {:induction false} AddsWords(x: nat, q: nat)
    ensures (x + q * WORDS) % WORDS == x % WORDS
  {
    if q > 0 { AddsWords(x, q - 1); }
  }

  lemma {:induction false} RightIs(x: Word, n: nat)
    ensures Right(x, n) == x / Pow2(n)
  {
    if n > 0 {
      RightIs(x / 2, n - 1);
      PowStep(n - 1);
      HalvesFirst(x, Pow2(n - 1));
    }
  }

  lemma HalvesFirst(x: nat, p: nat)
    requires p > 0
    ensures x / 2 / p == x / (2 * p)
  {
    var q := x / 2 / p;
    assert q * p <= x / 2 < (q + 1) * p;
    assert q * (2 * p) <= x && x < q * (2 * p) + 2 * p;
    QuotientIs(x, 2 * p, q);
  }

  lemma QuotientIs(x: nat, d: nat, q: nat)
    requires d > 0 && q * d <= x < q * d + d
    ensures x / d == q
  {
    var r := x / d;
    assert r * d <= x < r * d + d;
    Apart(r, q, d);
    Apart(q, r, d);
  }

  lemma {:induction false} Apart(p: nat, q: nat, d: nat)
    ensures p < q ==> p * d + d <= q * d
  {
    if p + 1 < q { Apart(p, q - 1, d); }
  }

  function Bit(x: nat, i: nat): nat { x / Pow2(i) % 2 }

  lemma {:induction false} XorBitsAre(x: nat, y: nat, bits: nat, i: nat)
    requires i < bits
    ensures Bit(XorBits(x, y, bits), i) == if Bit(x, i) == Bit(y, i) then 0 else 1
  {
    LastBit(XorBits(x / 2, y / 2, bits - 1), (x + y) % 2);
    if i > 0 {
      XorBitsAre(x / 2, y / 2, bits - 1, i - 1);
      PowStep(i - 1);
      HalvesFirst(x, Pow2(i - 1));
      HalvesFirst(y, Pow2(i - 1));
      HalvesFirst(XorBits(x, y, bits), Pow2(i - 1));
    }
  }

  /** Bit by bit exclusive or. */
  function Xor(x: Word, y: Word): Word {
    XorBelow(x, y, 32);
    Pow32();
    XorBits(x, y, 32)
  }

  lemma Pow32()
    ensures Pow2(32) == WORDS
  {
    assert Pow2(8) == 0x100;
    assert Pow2(16) == 0x1_0000;
    assert Pow2(24) == 0x100_0000;
  }

  lemma {:induction false} XorBitsUndoes(x: nat, y: nat, bits: nat)
    requires x < Pow2(bits)
    ensures XorBits(XorBits(x, y, bits), y, bits) == x
  {
    if bits > 0 {
      XorBitsUndoes(x / 2, y / 2, bits - 1);
      LastBit(XorBits(x / 2, y / 2, bits - 1), (x + y) % 2);
      ParityUndoes(x, y);
      hide XorBits;
    }
  }

  lemma LastBit(q: nat, bit: nat)
    requires bit < 2
    ensures (2 * q + bit) / 2 == q && (2 * q + bit) % 2 == bit
  {
  }

  lemma ParityUndoes(x: nat, y: nat)
    ensures forall q: nat :: (2 * q + (x + y) % 2 + y) % 2 == x % 2
  {
  }

  lemma XorUndoes(x: Word, y: Word)
    ensures Xor(Xor(x, y), y) == x
  {
    Pow32();
    XorBitsUndoes(x, y, 32);
  }

  lemma AddSub(x: Word, y: Word)
    ensures Add(Sub(x, y), y) == x && Sub(Add(x, y), y) == x
  {
  }

  // ---------------------------------------------------------------- mixing

  /** Subtract two words, then mix in a third; and the other way round. */
  function Scramble(x: Word, y: Word, z: Word, w: Word): Word { Xor(Sub(Sub(x, y), z), w) }
  function Unscramble(x: Word, y: Word, z: Word, w: Word): Word { Add(Add(Xor(x, w), z), y) }

  lemma UnscrambleUndoes(x: Word, y: Word, z: Word, w: Word)
    ensures Unscramble(Scramble(x, y, z, w), y, z, w) == x
    ensures Scramble(Unscramble(x, y, z, w), y, z, w) == x
  {
    hide Xor, Sub, Add;
    XorUndoes(Sub(Sub(x, y), z), w);
    AddSub(Sub(x, y), z);
    AddSub(x, y);
    AddSub(Add(Xor(x, w), z), y);
    AddSub(Xor(x, w), z);
    XorUndoes(x, w);
  }

  /** Three of the nine lines of `mix`. */
  function MixOnce(s: Words, p: nat, q: nat, r: nat): Words {
    var a := Scramble(s.a, s.b, s.c, Right(s.c, p));
    var b := Scramble(s.b, s.c, a, Left(a, q));
    var c := Scramble(s.c, a, b, Right(b, r));
    Words(a, b, c)
  }

  function Mix(s: Words): Words {
    MixOnce(MixOnce(MixOnce(s, 13, 8, 13), 12, 16, 5), 3, 10, 15)
  }

  /** The inverse of `mix`: its lines undone from the last. */
  function UnmixOnce(s: Words, p: nat, q: nat, r: nat): Words {
    var c := Unscramble(s.c, s.a, s.b, Right(s.b, r));
    var b := Unscramble(s.b, c, s.a, Left(s.a, q));
    var a := Unscramble(s.a, b, c, Right(c, p));
    Words(a, b, c)
  }

  function Unmix(s: Words): Words {
    UnmixOnce(UnmixOnce(UnmixOnce(s, 3, 10, 15), 12, 16, 5), 13, 8, 13)
  }

  lemma UnmixOnceUndoes(s: Words, p: nat, q: nat, r: nat)
    ensures UnmixOnce(MixOnce(s, p, q, r), p, q, r) == s
    ensures MixOnce(UnmixOnce(s, p, q, r), p, q, r) == s
  {
    hide Scramble, Unscramble, Left, Right;
    var m := MixOnce(s, p, q, r);
    UnscrambleUndoes(s.a, s.b, s.c, Right(s.c, p));
    UnscrambleUndoes(s.b, s.c, m.a, Left(m.a, q));
    UnscrambleUndoes(s.c, m.a, m.b, Right(m.b, r));
    var u := UnmixOnce(s, p, q, r);
    UnscrambleUndoes(s.c, s.a, s.b, Right(s.b, r));
    UnscrambleUndoes(s.b, u.c, s.a, Left(s.a, q));
    UnscrambleUndoes(s.a, u.b, u.c, Right(u.c, p));
  }

  /** `mix` is a bijection: `Unmix` undoes it and is undone by it. */
  lemma MixIsReversible(s: Words)
    ensures Unmix(Mix(s)) == s && Mix(Unmix(s)) == s
  {
    hide MixOnce, UnmixOnce;
    var m1 := MixOnce(s, 13, 8, 13);
    var m2 := MixOnce(m1, 12, 16, 5);
    UnmixOnceUndoes(s, 13, 8, 13);
    UnmixOnceUndoes(m1, 12, 16, 5);
    UnmixOnceUndoes(m2, 3, 10, 15);
    var u1 := UnmixOnce(s, 3, 10, 15);
    var u2 := UnmixOnce(u1, 12, 16, 5);
    UnmixOnceUndoes(s, 3, 10, 15);
    UnmixOnceUndoes(u1, 12, 16, 5);
    UnmixOnceUndoes(u2, 13, 8, 13);
  }

  lemma MixSeparates(s: Words, t: Words)
    requires s != t
    ensures Mix(s) != Mix(t)
  {
    hide Mix, Unmix;
    MixIsReversible(s);
    MixIsReversible(t);
  }

  // ---------------------------------------------------------------- keys

  /** The byte at `i`, or nothing past the end. */
  function At(k: Bytes, i: nat): Byte { if i < |k| then k[i] else 0 }

  /** A byte moved up by one, two or three bytes. */
  function Up1(b: Byte): Word { b * 0x100 }
  function Up2(b: Byte): Word { b * 0x1_0000 }
  function Up3(b: Byte): Word { b * 0x100_0000 }

  /** The word that four bytes from `i` make, the first one lowest; bytes past the end count as zero. */
  function KeyWord(k: Bytes, i: nat): Word { At(k, i) + Up1(At(k, i + 1)) + Up2(At(k, i + 2)) + Up3(At(k, i + 3)) }

  function AddBlock(s: Words, k: Bytes): Words {
    Words(Add(s.a, KeyWord(k, 0)), Add(s.b, KeyWord(k, 4)), Add(s.c, KeyWord(k, 8)))
  }

  /** The whole 12-byte blocks at the front of a key, each added and mixed. */
  function Blocks(s: Words, k: Bytes): Words
    decreases |k|
  {
    if |k| < 12 then s else Blocks(Mix(AddBlock(s, k[..12])), k[12..])
  }

  function Rest(k: Bytes): Bytes { k[|k| / 12 * 12..] }

  /** The last, partial block: its ninth byte on is moved up to make room for the length. */
  function AddRest(s: Words, k: Bytes, length: nat): Words {
    Words(Add(s.a, KeyWord(k, 0)), Add(s.b, KeyWord(k, 4)),
          Add(Add(s.c, length % WORDS), Up1(At(k, 8)) + Up2(At(k, 9)) + Up3(At(k, 10))))
  }

  const GOLDEN: Word := 0x9e3779b9

  /** The three words `hlookup` ends with; the hash is the last of them. */
  function FinalWords(k: Bytes, level: Word): Words {
    Mix(AddRest(Blocks(Words(GOLDEN, GOLDEN, level), k), Rest(k), |k|))
  }

  function Hash(k: Bytes): Word { FinalWords(k, 0).c }

  method HLookup(k: Bytes, level: Word) returns (hash: Word)
    ensures hash == FinalWords(k, level).c && (level == 0 ==> hash == Hash(k))
  {
    hide Mix, AddBlock, AddRest;
    var s := Words(GOLDEN, GOLDEN, level);
    var pos, len := 0, |k|;
    while len >= 12
      invariant 0 <= pos && 0 <= len && pos + len == |k| && pos % 12 == 0
      invariant Blocks(s, k[pos..]) == Blocks(Words(GOLDEN, GOLDEN, level), k)
    {
      assert k[pos..][..12] == k[pos..pos + 12] && k[pos..][12..] == k[pos + 12..];
      s := Mix(AddBlock(s, k[pos..pos + 12]));
      pos, len := pos + 12, len - 12;
    }
    assert pos == |k| / 12 * 12;
    s := AddTail(s, k[pos..], |k|);
    hash := Mix(s).c;
  }

  lemma AddFour(x: Word, u0: Word, u1: Word, u2: Word, u3: Word)
    requires u0 + u1 + u2 + u3 < WORDS
    ensures Add(Add(Add(Add(x, u3), u2), u1), u0) == Add(x, u0 + u1 + u2 + u3)
  {
    AddAdd(x, u3, u2);
    AddAdd(x, u3 + u2, u1);
    AddAdd(x, u3 + u2 + u1, u0);
    hide Add;
  }

  lemma AddAdd(x: Word, u: Word, v: Word)
    requires u + v < WORDS
    ensures Add(Add(x, u), v) == Add(x, u + v)
  {
  }

  lemma AddZero()
    ensures forall x: Word :: Add(x, 0) == x
  {
  }

  /** The fall-through cases of `hlookup`'s switch. */
  method AddTail(s: Words, k: Bytes, length: nat) returns (r: Words)
    requires |k| < 12
    ensures r == AddRest(s, k, length)
  {
    var len := |k|;
    var a, b, c := s.a, s.b, Add(s.c, length % WORDS);
    AddZero();
    AddFour(c, 0, Up1(At(k, 8)), Up2(At(k, 9)), Up3(At(k, 10)));
    AddFour(b, At(k, 4), Up1(At(k, 5)), Up2(At(k, 6)), Up3(At(k, 7)));
    AddFour(a, At(k, 0), Up1(At(k, 1)), Up2(At(k, 2)), Up3(At(k, 3)));
    hide Add;
    if len >= 11 { c := Add(c, Up3(k[10])); }
    if len >= 10 { c := Add(c, Up2(k[9])); }
    if len >= 9 { c := Add(c, Up1(k[8])); }
    assert c == Add(Add(Add(Add(Add(s.c, length % WORDS), Up3(At(k, 10))), Up2(At(k, 9))), Up1(At(k, 8))), 0);
    if len >= 8 { b := Add(b, Up3(k[7])); }
    if len >= 7 { b := Add(b, Up2(k[6])); }
    if len >= 6 { b := Add(b, Up1(k[5])); }
    if len >= 5 { b := Add(b, k[4]); }
    assert b == Add(Add(Add(Add(s.b, Up3(At(k, 7))), Up2(At(k, 6))), Up1(At(k, 5))), At(k, 4));
    if len >= 4 { a := Add(a, Up3(k[3])); }
    if len >= 3 { a := Add(a, Up2(k[2])); }
    if len >= 2 { a := Add(a, Up1(k[1])); }
    if len >= 1 { a := Add(a, k[0]); }
    r := Words(a, b, c);
  }

  // ---------------------------------------------------------------- keys that differ in one place

  lemma AddSeparates(x: Word, y: Word, z: Word)
    requires Add(x, y) == Add(x, z)
    ensures y == z
  {
    CommuteAdd(x, y);
    CommuteAdd(x, z);
    AddSub(y, x);
    AddSub(z, x);
    hide Add, Sub;
  }

  lemma CommuteAdd(x: Word, y: Word)
    ensures Add(x, y) == Add(y, x)
  {
  }

  lemma KeyWordSeparates(k: Bytes, l: Bytes, i: nat)
    requires KeyWord(k, i) == KeyWord(l, i)
    ensures At(k, i) == At(l, i) && At(k, i + 1) == At(l, i + 1)
    ensures At(k, i + 2) == At(l, i + 2) && At(k, i + 3) == At(l, i + 3)
  {
    DigitsSeparate(At(k, i), At(k, i + 1), At(k, i + 2), At(k, i + 3),
                   At(l, i), At(l, i + 1), At(l, i + 2), At(l, i + 3));
    hide At;
  }

  lemma DigitsSeparate(b0: nat, b1: nat, b2: nat, b3: nat, c0: nat, c1: nat, c2: nat, c3: nat)
    requires b0 < 0x100 && b1 < 0x100 && b2 < 0x100 && c0 < 0x100 && c1 < 0x100 && c2 < 0x100
    requires b0 + 0x100 * b1 + 0x1_0000 * b2 + 0x100_0000 * b3 == c0 + 0x100 * c1 + 0x1_0000 * c2 + 0x100_0000 * c3
    ensures b0 == c0 && b1 == c1 && b2 == c2 && b3 == c3
  {
    DigitSeparates(b0, b1 + 0x100 * b2 + 0x1_0000 * b3, c0, c1 + 0x100 * c2 + 0x1_0000 * c3);
    DigitSeparates(b1, b2 + 0x100 * b3, c1, c2 + 0x100 * c3);
  }

  lemma DigitSeparates(b: nat, x: nat, c: nat, y: nat)
    requires b < 0x100 && c < 0x100 && b + 0x100 * x == c + 0x100 * y
    ensures b == c && x == y
  {
  }

  /** Words that differ stay different, whatever is added to both. */
  lemma BlocksKeepApart(s: Words, t: Words, k: Bytes)
    requires s != t
    ensures Blocks(s, k) != Blocks(t, k)
    decreases |k|
  {
    hide Mix, Add;
    if |k| >= 12 {
      if s.a != t.a { ApartAdd(s.a, t.a, KeyWord(k, 0)); }
      if s.b != t.b { ApartAdd(s.b, t.b, KeyWord(k, 4)); }
      if s.c != t.c { ApartAdd(s.c, t.c, KeyWord(k, 8)); }
      MixSeparates(AddBlock(s, k[..12]), AddBlock(t, k[..12]));
      BlocksKeepApart(Mix(AddBlock(s, k[..12])), Mix(AddBlock(t, k[..12])), k[12..]);
    }
  }

  lemma ApartAdd(x: Word, y: Word, w: Word)
    requires x != y
    ensures Add(x, w) != Add(y, w)
  {
  }

  lemma EqualAts(k: Bytes, l: Bytes)
    requires |k| == |l| <= 12
    requires At(k, 0) == At(l, 0) && At(k, 1) == At(l, 1) && At(k, 2) == At(l, 2) && At(k, 3) == At(l, 3)
    requires At(k, 4) == At(l, 4) && At(k, 5) == At(l, 5) && At(k, 6) == At(l, 6) && At(k, 7) == At(l, 7)
    requires At(k, 8) == At(l, 8) && At(k, 9) == At(l, 9) && At(k, 10) == At(l, 10) && At(k, 11) == At(l, 11)
    ensures k == l
  {
    forall i | 0 <= i < |k| ensures k[i] == l[i] { assert At(k, i) == At(l, i); }
  }

  lemma BlockSeparates(s: Words, k: Bytes, l: Bytes)
    requires |k| == |l| == 12 && k != l
    ensures AddBlock(s, k) != AddBlock(s, l)
  {
    if AddBlock(s, k) == AddBlock(s, l) {
      AddSeparates(s.a, KeyWord(k, 0), KeyWord(l, 0));
      AddSeparates(s.b, KeyWord(k, 4), KeyWord(l, 4));
      AddSeparates(s.c, KeyWord(k, 8), KeyWord(l, 8));
      hide KeyWord, Add, At;
      KeyWordSeparates(k, l, 0);
      KeyWordSeparates(k, l, 4);
      KeyWordSeparates(k, l, 8);
      EqualAts(k, l);
    }
  }

  lemma UpSeparates(k: Bytes, l: Bytes)
    requires Up1(At(k, 8)) + Up2(At(k, 9)) + Up3(At(k, 10)) == Up1(At(l, 8)) + Up2(At(l, 9)) + Up3(At(l, 10))
    ensures At(k, 8) == At(l, 8) && At(k, 9) == At(l, 9) && At(k, 10) == At(l, 10)
  {
    hide At;
    DigitsSeparate(0, At(k, 8), At(k, 9), At(k, 10), 0, At(l, 8), At(l, 9), At(l, 10));
  }

  lemma RestSeparates(s: Words, k: Bytes, l: Bytes, length: nat)
    requires |k| == |l| < 12 && k != l
    ensures AddRest(s, k, length) != AddRest(s, l, length)
  {
    if AddRest(s, k, length) == AddRest(s, l, length) {
      AddSeparates(s.a, KeyWord(k, 0), KeyWord(l, 0));
      AddSeparates(s.b, KeyWord(k, 4), KeyWord(l, 4));
      AddSeparates(Add(s.c, length % WORDS), Up1(At(k, 8)) + Up2(At(k, 9)) + Up3(At(k, 10)),
                   Up1(At(l, 8)) + Up2(At(l, 9)) + Up3(At(l, 10)));
      UpSeparates(k, l);
      hide KeyWord, Add, Up1, Up2, Up3;
      KeyWordSeparates(k, l, 0);
      KeyWordSeparates(k, l, 4);
      EqualAts(k, l);
    }
  }

  lemma RestKeepsApart(s: Words, t: Words, k: Bytes, length: nat)
    requires s != t
    ensures AddRest(s, k, length) != AddRest(t, k, length)
  {
    hide Add, KeyWord, At;
    if s.a != t.a { ApartAdd(s.a, t.a, KeyWord(k, 0)); }
    if s.b != t.b { ApartAdd(s.b, t.b, KeyWord(k, 4)); }
    if s.c != t.c {
      ApartAdd(s.c, t.c, length % WORDS);
      ApartAdd(Add(s.c, length % WORDS), Add(t.c, length % WORDS), Up1(At(k, 8)) + Up2(At(k, 9)) + Up3(At(k, 10)));
    }
  }

  /** `k` and `l` differ, but only inside block `n`; the last block may be a partial one. */
  predicate DifferInBlock(k: Bytes, l: Bytes, n: nat) {
    && |k| == |l| && k != l
    && 12 * n <= |k|
    && k[..12 * n] == l[..12 * n]
    && (12 * n + 12 <= |k| ==> k[12 * n + 12..] == l[12 * n + 12..])
  }

  /** The blocks and the rest from any words on. */
  function Finish(s: Words, k: Bytes, length: nat): Words { Mix(AddRest(Blocks(s, k), Rest(k), length)) }

  lemma FinishStep(s: Words, k: Bytes, length: nat)
    requires |k| >= 12
    ensures Finish(s, k, length) == Finish(Mix(AddBlock(s, k[..12])), k[12..], length)
  {
    assert |k[12..]| / 12 * 12 == |k| / 12 * 12 - 12;
    assert Rest(k) == Rest(k[12..]);
    hide Mix, AddBlock, AddRest;
  }

  lemma FinishKeepsApart(s: Words, t: Words, k: Bytes, length: nat)
    requires s != t
    ensures Finish(s, k, length) != Finish(t, k, length)
  {
    BlocksKeepApart(s, t, k);
    RestKeepsApart(Blocks(s, k), Blocks(t, k), Rest(k), length);
    hide Mix, Blocks, AddRest;
    MixSeparates(AddRest(Blocks(s, k), Rest(k), length), AddRest(Blocks(t, k), Rest(k), length));
  }

  lemma {:induction false} FinishSeparates(s: Words, k: Bytes, l: Bytes, n: nat, length: nat)
    requires DifferInBlock(k, l, n)
    ensures Finish(s, k, length) != Finish(s, l, length)
    decreases n
  {
    hide Mix, AddBlock, AddRest, Finish;
    if n > 0 {
      FinishStep(s, k, length);
      FinishStep(s, l, length);
      assert k[..12] == k[..12 * n][..12] && l[..12] == l[..12 * n][..12];
      assert k[12..][..12 * (n - 1)] == k[..12 * n][12..] && l[12..][..12 * (n - 1)] == l[..12 * n][12..];
      if 12 * n + 12 <= |k| {
        assert k[12..][12 * (n - 1) + 12..] == k[12 * n + 12..] && l[12..][12 * (n - 1) + 12..] == l[12 * n + 12..];
      }
      assert k == k[..12] + k[12..] && l == l[..12] + l[12..];
      FinishSeparates(Mix(AddBlock(s, k[..12])), k[12..], l[12..], n - 1, length);
    } else if |k| >= 12 {
      assert k == k[..12] + k[12..] && l == l[..12] + l[12..];
      FinishStep(s, k, length);
      FinishStep(s, l, length);
      BlockSeparates(s, k[..12], l[..12]);
      MixSeparates(AddBlock(s, k[..12]), AddBlock(s, l[..12]));
      FinishKeepsApart(Mix(AddBlock(s, k[..12])), Mix(AddBlock(s, l[..12])), k[12..], length);
    } else {
      LastSeparates(s, k, l, length);
    }
  }

  lemma LastSeparates(s: Words, k: Bytes, l: Bytes, length: nat)
    requires |k| == |l| < 12 && k != l
    ensures Finish(s, k, length) != Finish(s, l, length)
  {
    RestSeparates(s, k, l, length);
    assert Rest(k) == k && Rest(l) == l;
    hide Mix, AddRest;
    MixSeparates(AddRest(s, k, length), AddRest(s, l, length));
  }

  /**
    Keys of equal length that differ only inside one 12-byte block, or only in
    the last partial one, end `hlookup` in different words; so does one key
    started at different levels.
   */
  lemma KeysSeparate(k: Bytes, l: Bytes, n: nat, level: Word)
    requires DifferInBlock(k, l, n)
    ensures FinalWords(k, level) != FinalWords(l, level)
  {
    FinishSeparates(Words(GOLDEN, GOLDEN, level), k, l, n, |k|);
    hide Mix, Blocks, AddRest;
  }

  lemma LevelsSeparate(k: Bytes, level: Word, level': Word)
    requires level != level'
    ensures FinalWords(k, level) != FinalWords(k, level')
  {
    FinishKeepsApart(Words(GOLDEN, GOLDEN, level), Words(GOLDEN, GOLDEN, level'), k, |k|);
    hide Mix, Blocks, AddRest;
  }

  // ---------------------------------------------------------------- keys of different length

  lemma LowByte(c: Word, n: nat, u: Byte, v: Byte, w: Byte)
    ensures Add(Add(c, n % WORDS), Up1(u) + Up2(v) + Up3(w)) % 0x100 == (c + n) % 0x100
  {
  }

  lemma LengthsDiffer(c: nat, m: nat, n: nat)
    requires m / 12 == n / 12 && m != n
    ensures (c + m) % 0x100 != (c + n) % 0x100
  {
  }

  /**
    Keys with the same 12-byte blocks and rests of different length end in different
    words, even when one is the other with zeros after it: the lowest byte of the third
    word is reserved for the length.
   */
  lemma LengthsSeparate(k: Bytes, l: Bytes, level: Word)
    requires |k| / 12 == |l| / 12 && k[..|k| / 12 * 12] == l[..|k| / 12 * 12] && |k| != |l|
    ensures FinalWords(k, level) != FinalWords(l, level)
  {
    var s := Words(GOLDEN, GOLDEN, level);
    hide Mix, Blocks, AddRest, Rest;
    SameBlocks(s, k, l);
    var t := Blocks(s, k);
    RestLow(t, Rest(k), |k|);
    RestLow(t, Rest(l), |l|);
    LengthsDiffer(t.c, |k|, |l|);
    MixSeparates(AddRest(t, Rest(k), |k|), AddRest(t, Rest(l), |l|));
  }

  lemma RestLow(s: Words, k: Bytes, length: nat)
    ensures AddRest(s, k, length).c % 0x100 == (s.c + length) % 0x100
  {
    LowByte(s.c, length, At(k, 8), At(k, 9), At(k, 10));
    hide Add, Up1, Up2, Up3, KeyWord;
  }

  lemma {:induction false} SameBlocks(s: Words, k: Bytes, l: Bytes)
    requires |k| / 12 == |l| / 12 && k[..|k| / 12 * 12] == l[..|k| / 12 * 12]
    ensures Blocks(s, k) == Blocks(s, l)
    decreases |k|
  {
    hide Mix, AddBlock;
    if |k| >= 12 {
      var n := |k| / 12 * 12;
      assert k[..12] == k[..n][..12] == l[..12];
      assert k[12..][..n - 12] == k[..n][12..] && l[12..][..n - 12] == l[..n][12..];
      SameBlocks(Mix(AddBlock(s, k[..12])), k[12..], l[12..]);
    }
  }
}
