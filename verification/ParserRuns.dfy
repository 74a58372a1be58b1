/**
  What holds after any run of the parser, whether or not the text is complete,
  and, for the bounds and the delivered text, whether or not the run failed.
 */
module ParserRuns {
  import opened JsonTables
  import opened ParserSpec
  import opened Grammar
  import opened TokenMachine
  import opened ReadsLexemes
  import opened FindsLexemes
  import opened ParserTheorems

  // ---------------------------------------------------------------- chunks

  /** Feeding chunk after chunk, until one is refused. */
  function FeedChunks(cfg: Config, p: Parser, chunks: seq<Bytes>): (o: Outcome)
    requires Ready(p)
    ensures o.ret == 0 ==> Ready(o.p)
    decreases chunks
  {
    if chunks == [] then Outcome(p, 0)
    else
      var o := Feed(cfg, p, chunks[0]);
      if o.ret != 0 then o else FeedChunks(cfg, o.p, chunks[1..])
  }

  function Join(chunks: seq<Bytes>): Bytes {
    if chunks == [] then [] else chunks[0] + Join(chunks[1..])
  }

  /** However a text is cut into chunks, the parser ends in the same state with the same code. */
  lemma {:induction false} ChunksDoNotMatter(cfg: Config, p: Parser, chunks: seq<Bytes>)
    requires Ready(p)
    ensures FeedChunks(cfg, p, chunks) == Feed(cfg, p, Join(chunks))
    decreases chunks
  {
    hide StepByte;
    if chunks == [] {
      FeedNothing(cfg, p);
    } else {
      hide Feed;
      FeedAppend(cfg, p, chunks[0], Join(chunks[1..]));
      var o := Feed(cfg, p, chunks[0]);
      if o.ret == 0 { ChunksDoNotMatter(cfg, o.p, chunks[1..]); }
    }
  }

  // ---------------------------------------------------------------- every run can be completed

  /** The frame as a tree, a missing value standing as null. */
  function CutShort(f: Frame): Tree {
    match f
    case InArr(items) => Arr(items)
    case InObj(members, key) =>
      Obj(if key.Some? then members + [Member(key.value, Name(JsonNull))] else members)
  }

  lemma CutShortEvents(f: Frame)
    ensures FrameEvents(f) <= Events(CutShort(f)) && IsContainer(CutShort(f))
  {
    match f
    case InArr(items) =>
    case InObj(members, key) =>
      if key.Some? {
        var ms := members + [Member(key.value, Name(JsonNull))];
        assert ms[..|members|] == members;
        assert MemberEvents(ms) == MemberEvents(members) + [Event(JsonKey, key.value)] + [Event(JsonNull, [])];
        assert Events(CutShort(f)) == FrameEvents(f) + [Event(JsonNull, [])] + [Event(JsonObjectEnd, [])];
      } else {
        assert Events(CutShort(f)) == FrameEvents(f) + [Event(JsonObjectEnd, [])];
      }
  }

  /** The document that closes all open frames. */
  lemma {:induction false} CloseAll(fs: seq<Frame>) returns (t: Tree)
    requires fs != [] && forall i :: 0 <= i < |fs| - 1 ==> IsHole(fs[i])
    ensures IsContainer(t) && OpenEvents(fs) <= Events(t)
    decreases |fs|, 0
  {
    var n := |fs| - 1;
    var inner := CutShort(fs[n]);
    CutShortEvents(fs[n]);
    hide FrameEvents, CutShort, Events;
    var outer := fs[..n];
    assert OpenEvents(fs) == OpenEvents(outer) + FrameEvents(fs[n]);
    if n == 0 {
      t := inner;
      assert OpenEvents(outer) == [];
    } else {
      t := CloseOuter(outer, inner, FrameEvents(fs[n]));
    }
  }

  lemma {:induction false} CloseOuter(outer: seq<Frame>, inner: Tree, told: seq<Event>) returns (t: Tree)
    requires outer != [] && forall i :: 0 <= i < |outer| ==> IsHole(outer[i])
    requires told <= Events(inner)
    ensures IsContainer(t) && OpenEvents(outer) + told <= Events(t)
    decreases |outer|, 1
  {
    var m := |outer| - 1;
    var g := AddToFrame(outer[m], inner);
    AddToFrameFills(outer[m], inner, STATE_V);
    hide FrameEvents, FrameTokens, Events, Tokens, FrameDepth, Depth;
    ReplaceTop(outer, g);
    var gs := outer[..m] + [g];
    assert OpenEvents(outer) == OpenEvents(outer[..m]) + FrameEvents(outer[m]);
    hide OpenEvents, OpenModes, FrameAt, FrameMode, AddToFrame;
    t := CloseAll(gs);
    LongerPrefix(OpenEvents(outer[..m]), FrameEvents(outer[m]), told, Events(inner));
  }

  lemma LongerPrefix<T>(a: seq<T>, b: seq<T>, told: seq<T>, all: seq<T>)
    requires told <= all
    ensures a + b + told <= a + (b + all)
  {
  }

  /** What the token machine has told is the beginning of some document. */
  lemma Completable(limit: nat, ts: seq<Token>)
    requires TokenRun(limit, START, ts).Some?
    ensures exists t: Tree :: IsContainer(t) && TokenRun(limit, START, ts).value.events <= Events(t)
  {
    var d := ReadTokens(limit, ts);
    hide TokenStep, TokenRun;
    match d
    case Start =>
      assert IsContainer(Arr([])) && [] <= Events(Arr([]));
    case Inside(fs) =>
      hide FrameTokens, FrameEvents, OpenEvents, OpenTokens, FrameDepth, OpenModes;
      var t := CloseAll(fs);
      assert IsContainer(t) && OpenEvents(fs) <= Events(t);
    case Complete(t) =>
      assert Events(t) <= Events(t);
  }

  // ---------------------------------------------------------------- the run invariant

  predicate IsStringState(s: State) {
    s == STATE_S || s == STATE_E0 || s == STATE_U1 || s == STATE_U2 || s == STATE_U3 || s == STATE_U4
    || s == STATE_D1 || s == STATE_D2
  }

  predicate IsCommentState(s: State) { s == STATE_C1 || s == STATE_C2 || s == STATE_C3 || s == STATE_Y1 }

  /** The structural state the parser is in, or will resume in after a comment. */
  function Context(p: Parser): State {
    if IsCommentState(p.state) then Resume(p.saveState) else p.state
  }

  ghost predicate BeginsDocument(evs: seq<Event>) {
    exists t: Tree :: IsContainer(t) && evs <= Events(t)
  }

  /** Telling `v` next, as a key or as a string according to the flag, still begins a document. */
  ghost predicate BeginsWithString(p: Parser, v: Bytes) {
    BeginsDocument(p.log + [Event(if p.expectingKey then JsonKey else JsonString, v)])
  }

  /** What one more token would tell is still the beginning of a document. */
  lemma CompletableWith(limit: nat, ts: seq<Token>, t: Token)
    requires TokenRun(limit, START, ts).Some? && TokenStep(limit, TokenRun(limit, START, ts).value, t).Some?
    ensures BeginsDocument(TokenStep(limit, TokenRun(limit, START, ts).value, t).value.events)
  {
    hide TokenStep;
    TokenRunOne(limit, TokenRun(limit, START, ts).value, t);
    TokenRunAppend(limit, START, ts, [t]);
    Completable(limit, ts + [t]);
  }

  lemma PrefixBegins(a: seq<Event>, b: seq<Event>)
    requires BeginsDocument(b) && a <= b
    ensures BeginsDocument(a)
  {
    var t: Tree :| IsContainer(t) && b <= Events(t);
    hide Events;
    assert a <= Events(t);
  }

  /** The value has been read to its end, so that what is pending is all of it. */
  predicate ValueRead(p: Parser) { p.state == STATE_OK || IsNumberEnd(p.state) }

  lemma PendingBegins(cfg: Config, p: Parser, sc: Scan)
    requires Tracks(cfg, p, sc)
    ensures BeginsDocument(p.log)
    ensures ValueRead(p) ==> BeginsDocument(p.log + Pending(p))
  {
    Completable(cfg.maxNesting, Meanings(sc.ls));
    PieceState(cfg, p, sc);
    PrefixBegins(p.log, sc.c.events);
    if ValueRead(p) {
      ReadIsBetween(cfg, p, sc);
      if sc.piece.PNum? {
        var done := FinishNumber(cfg, p, sc);
        Completable(cfg.maxNesting, Meanings(done.ls));
        hide BeginsDocument;
      }
    }
  }

  lemma ReadIsBetween(cfg: Config, p: Parser, sc: Scan)
    requires Tracks(cfg, p, sc) && ValueRead(p)
    ensures sc.piece == Nothing || (sc.piece.PNum? && IsNumberEnd(p.state))
    ensures sc.piece == Nothing ==> p.log + Pending(p) == sc.c.events
  {
    hide LexemesRead, Sized, InComment, UnitsValue, UnitsPeak, NumberText, IsWhole;
  }

  /** `expecting_key` is set exactly at a key position, and in a string that stands there. */
  lemma KeyFlag(cfg: Config, p: Parser, sc: Scan)
    requires Tracks(cfg, p, sc)
    ensures !IsStringState(p.state) ==> p.expectingKey == KeyExpected(Context(p))
    ensures IsStringState(p.state) ==>
              forall v: Bytes :: BeginsWithString(p, v)
    ensures p.state != STATE_GO && p.state != STATE_OK && !IsCommentState(p.state) ==> p.stack != []
  {
    KeyFlagFacts(cfg, p, sc);
    hide Tracks;
    if IsStringState(p.state) {
      forall v: Bytes
        ensures BeginsWithString(p, v)
      {
        hide TokenRun, BeginsDocument;
        CompletableWith(cfg.maxNesting, Meanings(sc.ls), TStr(v));
      }
    }
  }

  lemma KeyFlagFacts(cfg: Config, p: Parser, sc: Scan)
    requires Tracks(cfg, p, sc)
    ensures !IsStringState(p.state) ==> p.expectingKey == KeyExpected(Context(p))
    ensures IsStringState(p.state) ==>
              p.log == sc.c.events && p.expectingKey == KeyExpected(sc.c.state)
              && (KeyExpected(sc.c.state) || ValueExpected(sc.c.state))
    ensures p.state != STATE_GO && p.state != STATE_OK && !IsCommentState(p.state) ==> p.stack != []
    ensures TokenRun(cfg.maxNesting, START, Meanings(sc.ls)) == Some(sc.c)
  {
    hide Sized, UnitsValue, UnitsPeak, IsPartGroup, BlockBodyAt, IsLineBody, IsWhole, TokenRun, Meanings, NumberText;
  }

  /**
    The invariant of every run that has returned 0 so far, on any input: the stack
    holds the structures that the log leaves open; the log, with the one value that
    may be pending, is the beginning of a document's events; the key flag is set
    exactly at or inside a key position; and outside of the document and comments
    the stack is not empty.
   */
  lemma RunInvariant(cfg: Config, bytes: Bytes)
    requires Feed(cfg, Init(cfg), bytes).ret == 0
    ensures var p := Feed(cfg, Init(cfg), bytes).p;
            && p.stack == OpenOf(p.log)
            && BeginsDocument(p.log)
            && (ValueRead(p) ==> BeginsDocument(p.log + Pending(p)))
            && (!IsStringState(p.state) ==> p.expectingKey == KeyExpected(Context(p)))
            && (IsStringState(p.state) ==>
                  forall v: Bytes :: BeginsWithString(p, v))
            && (p.state != STATE_GO && p.state != STATE_OK && !IsCommentState(p.state) ==> p.stack != [])
  {
    hide Feed, StepByte, Tracks, BeginsDocument, BeginsWithString, OpenOf;
    var sc := RunTracks(cfg, bytes);
    var p := Feed(cfg, Init(cfg), bytes).p;
    LogOpens(cfg, p, sc);
    PendingBegins(cfg, p, sc);
    KeyFlag(cfg, p, sc);
  }

  // ---------------------------------------------------------------- bounds, on every run

  /** The buffer and the stack stay within their sizes, and these within the limits. */
  predicate Bounded(cfg: Config, p: Parser) {
    && Sized(cfg, p)
    && |p.stack| <= p.stackSize && p.stackSize > 0
    && Limited(cfg, p)
  }

  lemma ActBounded(cfg: Config, p: Parser, a: Action)
    requires Bounded(cfg, p) && (a == ACT_UC ==> EndsInHex(p.buffer, 4))
    ensures Bounded(cfg, Act(cfg, p, a).p)
  {
    hide HexQuad, AllHex;
  }

  lemma MoveBounded(cfg: Config, p: Parser, t: Target)
    requires Bounded(cfg, p) && t != REJECT && (t == ACT_UC ==> EndsInHex(p.buffer, 4))
    ensures Bounded(cfg, Move(cfg, p, t).p)
  {
    if IsAction(t) {
      var q := p;
      if FlushesBuffer(t) { q := DoBuffer(cfg, p).p; }
      assert Bounded(cfg, q);
      ActBounded(cfg, q, t);
      hide Act, EndsInHex;
    }
  }

  lemma PushBounded(cfg: Config, p: Parser, policy: Policy, ch: Byte)
    requires Bounded(cfg, p)
    ensures Bounded(cfg, Push(cfg, p, policy, ch).p)
  {
  }

  lemma StepBounded(cfg: Config, p: Parser, ch: Byte)
    requires Bounded(cfg, p) && Ready(p)
    ensures Bounded(cfg, StepByte(cfg, p, ch).p)
  {
    var cl := Classify(p.utf8Left, ch);
    var t := Transition(p.state, cl.cls);
    var q := p.(utf8Left := cl.left);
    assert Bounded(cfg, q);
    PushBounded(cfg, q, BufferPolicy(p.state, cl.cls), ch);
    var o := Advance(cfg, p, cl, ch);
    hide Transition, Classify, BufferPolicy, Push, Move, Bounded;
    if cl.ret == 0 && t != REJECT && o.ret == 0 {
      AdvanceKeepsDigits(cfg, p, ch);
      MoveBounded(cfg, o.p, t);
    }
  }

  /**
    Whatever is fed, and even when the run fails: the write position is inside the
    parse buffer, the buffer is no larger than `max_data`, and the stack is no
    deeper than `max_nesting`, when these limits are set.
   */
  lemma {:induction false} RunBounded(cfg: Config, p: Parser, s: Bytes)
    requires Bounded(cfg, p) && Ready(p)
    ensures Bounded(cfg, Feed(cfg, p, s).p)
    decreases s
  {
    hide StepByte, Bounded;
    if s != [] {
      StepBounded(cfg, p, s[0]);
      var o := StepByte(cfg, p, s[0]);
      if o.ret == 0 { RunBounded(cfg, o.p, s[1..]); }
    }
  }

  lemma StartBounded(cfg: Config)
    ensures Bounded(cfg, Init(cfg)) && Ready(Init(cfg))
  {
  }

  // ---------------------------------------------------------------- delivered text, on every run

  /** A character is one group, however it is written. */
  lemma UnitIsGroup(u: StrUnit)
    requires IsUnit(u)
    ensures IsUtf8Group(UnitValue(u))
  {
    hide HexQuad, IsQuad;
  }

  lemma {:induction false} UnitsAreUtf8(us: seq<StrUnit>) returns (groups: seq<Bytes>)
    requires AreUnits(us)
    ensures IsUtf8Split(groups, UnitsValue(us))
  {
    if us == [] {
      groups := [];
    } else {
      var n := |us| - 1;
      var gs := UnitsAreUtf8(us[..n]);
      UnitIsGroup(us[n]);
      hide IsUnit, UnitValue, IsUtf8Group;
      groups := gs + [UnitValue(us[n])];
      assert groups[..|gs|] == gs;
    }
  }

  predicate IsText(kind: JsonType) { kind.JsonKey? || kind.JsonString? }

  /** What a callback can rely on: keys and strings are well-formed, and data is below the limit. */
  ghost predicate Sound(cfg: Config, ev: Event) {
    (IsText(ev.kind) ==> IsUtf8(ev.data)) && (cfg.maxData > 0 ==> |ev.data| < cfg.maxData)
  }

  ghost predicate AllSound(cfg: Config, log: seq<Event>) {
    forall i :: 0 <= i < |log| ==> Sound(cfg, log[i])
  }

  /** The log after a step, whatever its outcome: the old log, and then events of the parse buffer or of no data. */
  ghost predicate Tells(cfg: Config, p: Parser, q: Parser, text: bool) {
    && p.log <= q.log
    && forall i :: |p.log| <= i < |q.log| ==>
         && (q.log[i].data == [] || q.log[i].data == p.buffer)
         && (IsText(q.log[i].kind) ==> q.log[i].data == p.buffer && (text || q.log[i].kind == p.kind))
  }

  lemma FlushTells(cfg: Config, p: Parser)
    ensures Tells(cfg, p, DoBuffer(cfg, p).p, false)
  {
  }

  lemma ActTells(cfg: Config, p: Parser, a: Action)
    requires a == ACT_UC ==> EndsInHex(p.buffer, 4)
    ensures Tells(cfg, p, Act(cfg, p, a).p, a == ACT_SE)
  {
    hide HexQuad, AllHex;
  }

  lemma MoveTells(cfg: Config, p: Parser, t: Target)
    requires t != REJECT && (t == ACT_UC ==> EndsInHex(p.buffer, 4))
    ensures Tells(cfg, p, Move(cfg, p, t).p, t == ACT_SE)
  {
    if IsAction(t) {
      FlushTells(cfg, p);
      var q := if FlushesBuffer(t) then DoBuffer(cfg, p).p else p;
      ActTells(cfg, q, t);
      ActAfterFlush(cfg, q, t);
      hide Act, DoBuffer, EndsInHex;
    }
  }

  /** An action that flushes tells no text of its own. */
  lemma ActAfterFlush(cfg: Config, p: Parser, a: Action)
    requires a == ACT_UC ==> EndsInHex(p.buffer, 4)
    ensures FlushesBuffer(a) ==>
              var q := Act(cfg, p, a).p;
              p.log <= q.log && forall i :: |p.log| <= i < |q.log| ==> q.log[i].data == [] && !IsText(q.log[i].kind)
  {
    hide HexQuad, AllHex;
  }

  /** What the tables say about the steps that tell something. */
  lemma TellingSteps(s: State, c: Class)
    ensures var t := Transition(s, c);
            && (IsAction(t) && FlushesBuffer(t) ==> BufferPolicy(s, c) == Ignore)
            && (t == ACT_SE ==> s == STATE_S && BufferPolicy(s, c) == Ignore)
            && (t == ACT_OB || t == ACT_AB ==> BufferPolicy(s, c) == Ignore)
  {
  }

  lemma StepTells(cfg: Config, p: Parser, ch: Byte)
    requires Ready(p)
    ensures Tells(cfg, p, StepByte(cfg, p, ch).p, p.state == STATE_S && p.utf8Left == 0)
  {
    var cl := Classify(p.utf8Left, ch);
    var t := Transition(p.state, cl.cls);
    var policy := BufferPolicy(p.state, cl.cls);
    var q := p.(utf8Left := cl.left);
    TellingSteps(p.state, cl.cls);
    PushKeepsLog(cfg, q, policy, ch);
    if cl.ret == 0 && t == ACT_SE { EndQuote(p, ch); }
    hide Transition, BufferPolicy, Classify, Move;
    if cl.ret == 0 && t != REJECT {
      var o := Advance(cfg, p, cl, ch);
      if o.ret == 0 {
        AdvanceKeepsDigits(cfg, p, ch);
        if IsAction(t) && (FlushesBuffer(t) || t == ACT_SE || t == ACT_OB || t == ACT_AB) {
          assert o.p == q;
          MoveTells(cfg, q, t);
          assert Move(cfg, q, t) == StepByte(cfg, p, ch);
        } else {
          MoveIsSilent(cfg, o.p, t);
          assert Move(cfg, o.p, t) == StepByte(cfg, p, ch);
        }
        hide StepByte, Push, Advance;
      }
    }
  }

  lemma EndQuote(p: Parser, ch: Byte)
    requires var cl := Classify(p.utf8Left, ch); cl.ret == 0 && Transition(p.state, cl.cls) == ACT_SE
    ensures p.utf8Left == 0
  {
    TellingSteps(p.state, Classify(p.utf8Left, ch).cls);
  }

  lemma MoveIsSilent(cfg: Config, p: Parser, t: Target)
    requires t != REJECT && (t == ACT_UC ==> EndsInHex(p.buffer, 4))
    requires IsAction(t) ==> !(FlushesBuffer(t) || t == ACT_SE || t == ACT_OB || t == ACT_AB)
    ensures Move(cfg, p, t).p.log == p.log
  {
    hide HexQuad, AllHex;
  }

  lemma TextBuffer(cfg: Config, p: Parser, sc: Scan)
    requires Tracks(cfg, p, sc)
    ensures !IsText(p.kind)
    ensures p.state == STATE_S && p.utf8Left == 0 ==> IsUtf8(p.buffer)
    ensures cfg.maxData > 0 ==> |p.buffer| < cfg.maxData
  {
    hide LexemesRead, UnitsPeak;
    if p.state == STATE_S && p.utf8Left == 0 {
      assert sc.piece.PStr? && sc.piece.tail == Idle;
      assert p.buffer == UnitsValue(sc.piece.units);
      var groups := UnitsAreUtf8(sc.piece.units);
    }
  }

  /**
    On every input, and even when the run fails, every key and string that the
    callback has been handed is a sequence of complete characters, and no event
    carries `max_data` bytes or more when that limit is set.
   */
  lemma {:induction false} DeliveredIsSound(cfg: Config, bytes: Bytes)
    ensures AllSound(cfg, Feed(cfg, Init(cfg), bytes).p.log)
    decreases bytes
  {
    hide StepByte, Sound, Tracks;
    if bytes == [] {
      FeedNothing(cfg, Init(cfg));
    } else {
      hide Feed;
      var n := |bytes| - 1;
      assert bytes[..n] + [bytes[n]] == bytes;
      FeedSnoc(cfg, Init(cfg), bytes[..n], bytes[n]);
      DeliveredIsSound(cfg, bytes[..n]);
      var o := Feed(cfg, Init(cfg), bytes[..n]);
      if o.ret == 0 {
        var sc := RunTracks(cfg, bytes[..n]);
        TextBuffer(cfg, o.p, sc);
        StepTells(cfg, o.p, bytes[n]);
        ToldIsSound(cfg, o.p, StepByte(cfg, o.p, bytes[n]).p);
      }
    }
  }

  lemma ToldIsSound(cfg: Config, p: Parser, q: Parser)
    requires AllSound(cfg, p.log) && Tells(cfg, p, q, p.state == STATE_S && p.utf8Left == 0)
    requires !IsText(p.kind) && (p.state == STATE_S && p.utf8Left == 0 ==> IsUtf8(p.buffer))
    requires cfg.maxData > 0 ==> |p.buffer| < cfg.maxData
    ensures AllSound(cfg, q.log)
  {
    forall i | 0 <= i < |q.log|
      ensures Sound(cfg, q.log[i])
    {
      if i < |p.log| { assert q.log[i] == p.log[i]; }
    }
  }
}
