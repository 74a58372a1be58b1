/**
  What libjson's parser accepts and what it tells, on all inputs: the results
  that follow from `ReadsLexemes` and `FindsLexemes` together.
 */
module ParserTheorems {
  import opened JsonTables
  import opened ParserSpec
  import opened Grammar
  import opened TokenMachine
  import opened ReadsLexemes
  import opened FindsLexemes

  // ---------------------------------------------------------------- the callback

  lemma AcceptsMore(cfg: Config, log: seq<Event>, ev: Event)
    requires Accepts(cfg, log) && cfg.callback(log, ev) == 0
    ensures Accepts(cfg, log + [ev])
  {
    forall k | 0 <= k < |log| + 1
      ensures cfg.callback((log + [ev])[..k], (log + [ev])[k]) == 0
    {
      if k < |log| { assert (log + [ev])[..k] == log[..k]; } else { assert (log + [ev])[..k] == log; }
    }
  }

  lemma FlushAccepts(cfg: Config, p: Parser)
    requires Accepts(cfg, p.log) && DoBuffer(cfg, p).ret == 0
    ensures Accepts(cfg, DoBuffer(cfg, p).p.log)
  {
    hide Accepts;
    if IsDelayed(p.kind) { AcceptsMore(cfg, p.log, Event(p.kind, p.buffer)); }
  }

  lemma ActAccepts(cfg: Config, p: Parser, a: Action)
    requires a == ACT_UC ==> EndsInHex(p.buffer, 4)
    requires Accepts(cfg, p.log) && Act(cfg, p, a).ret == 0
    ensures Accepts(cfg, Act(cfg, p, a).p.log)
  {
    hide Accepts, HexQuad, AllHex;
    match a
    case ACT_OB => AcceptsMore(cfg, p.log, Event(JsonObjectBegin, []));
    case ACT_AB => AcceptsMore(cfg, p.log, Event(JsonArrayBegin, []));
    case ACT_OE => AcceptsMore(cfg, p.log, Event(JsonObjectEnd, []));
    case ACT_AE => AcceptsMore(cfg, p.log, Event(JsonArrayEnd, []));
    case ACT_SE => AcceptsMore(cfg, p.log, Event(if p.expectingKey then JsonKey else JsonString, p.buffer));
    case _ =>
  }

  lemma MoveAccepts(cfg: Config, p: Parser, t: Target)
    requires t != REJECT && (t == ACT_UC ==> EndsInHex(p.buffer, 4))
    requires Accepts(cfg, p.log) && Move(cfg, p, t).ret == 0
    ensures Accepts(cfg, Move(cfg, p, t).p.log)
  {
    if IsAction(t) {
      var q := p;
      if FlushesBuffer(t) {
        FlushAccepts(cfg, p);
        q := DoBuffer(cfg, p).p;
      }
      ActAccepts(cfg, q, t);
    }
    hide Act, DoBuffer, Accepts, EndsInHex;
  }

  lemma PushKeepsLog(cfg: Config, p: Parser, policy: Policy, ch: Byte)
    ensures Push(cfg, p, policy, ch).p.log == p.log
  {
  }

  lemma StepAccepts(cfg: Config, p: Parser, ch: Byte)
    requires Ready(p) && Accepts(cfg, p.log) && StepByte(cfg, p, ch).ret == 0
    ensures Accepts(cfg, StepByte(cfg, p, ch).p.log)
  {
    var cl := Classify(p.utf8Left, ch);
    var t := Transition(p.state, cl.cls);
    var o := Advance(cfg, p, cl, ch);
    PushKeepsLog(cfg, p.(utf8Left := cl.left), BufferPolicy(p.state, cl.cls), ch);
    AdvanceKeepsDigits(cfg, p, ch);
    assert StepByte(cfg, p, ch) == Move(cfg, o.p, t);
    hide StepByte, Transition, Classify, BufferPolicy, Push, Move, Accepts;
    MoveAccepts(cfg, o.p, t);
  }

  lemma {:induction false} FeedAccepts(cfg: Config, p: Parser, s: Bytes)
    requires Ready(p) && Accepts(cfg, p.log) && Feed(cfg, p, s).ret == 0
    ensures Accepts(cfg, Feed(cfg, p, s).p.log)
    decreases s
  {
    hide StepByte, Accepts;
    if s != [] {
      StepAccepts(cfg, p, s[0]);
      FeedAccepts(cfg, StepByte(cfg, p, s[0]).p, s[1..]);
    }
  }

  // ---------------------------------------------------------------- the accepted language

  /** At an end nothing is half read or pending, and the token machine is at its end too. */
  lemma AtEndIsRest(cfg: Config, p: Parser, sc: Scan)
    requires Tracks(cfg, p, sc) && AtEnd(p)
    ensures sc.piece == Nothing && LexemesRead(cfg, sc.ls, sc.c) && Meanings(sc.ls) != []
    ensures sc.c.stack == [] && sc.c.events == p.log
  {
    assert p.log + [] == p.log;
    hide IsLexeme, Fits, Allowed, LexemeText, UnitsValue, UnitsPeak, NumberText, IsPartGroup;
  }

  /** Where a tracked parser that is at an end stands. */
  lemma EndIsDocument(cfg: Config, p: Parser, sc: Scan) returns (t: Tree)
    requires Tracks(cfg, p, sc) && AtEnd(p)
    ensures Admits(cfg, sc.ls, ScanText(sc), t) && p.log == Events(t)
  {
    hide IsLexeme, Fits, Allowed, LexemeText, Tokens, Events, Depth, TokenRun, TokenStep, CommentsPlaced, Meaning;
    AtEndIsRest(cfg, p, sc);
    hide Tracks, PieceAt;
    assert Text(sc.ls) + [] == Text(sc.ls);
    AcceptsOnlyDocuments(cfg.maxNesting, Meanings(sc.ls));
    t :| IsContainer(t) && Within(cfg.maxNesting, Depth(t)) && Meanings(sc.ls) == Tokens(t);
  }

  /**
    The accepted language. A text is read to an end outside comments, with every
    callback returning 0, exactly when it is an admitted spelling of an object or
    array whose events the callback accepts; and then exactly those events have
    been told.
   */
  lemma AcceptedLanguage(cfg: Config, bytes: Bytes)
    ensures var o := Feed(cfg, Init(cfg), bytes);
            (o.ret == 0 && AtEnd(o.p))
            <==> exists ls: seq<Lexeme>, t: Tree :: Admits(cfg, ls, bytes, t) && Accepts(cfg, Events(t))
    ensures var o := Feed(cfg, Init(cfg), bytes);
            forall ls: seq<Lexeme>, t: Tree :: Admits(cfg, ls, bytes, t) && Accepts(cfg, Events(t))
              ==> o.ret == 0 && AtEnd(o.p) && o.p.log == Events(t)
  {
    hide Feed, StepByte, Admits, Accepts, AtEnd;
    var o := Feed(cfg, Init(cfg), bytes);
    if o.ret == 0 && AtEnd(o.p) {
      var ls, t := AcceptedIsDocument(cfg, bytes);
      assert Admits(cfg, ls, bytes, t) && Accepts(cfg, Events(t));
    }
    forall ls: seq<Lexeme>, t: Tree | Admits(cfg, ls, bytes, t) && Accepts(cfg, Events(t))
      ensures o.ret == 0 && AtEnd(o.p) && o.p.log == Events(t)
    {
      AcceptsSpelling(cfg, ls, bytes, t);
    }
  }

  lemma AcceptedIsDocument(cfg: Config, bytes: Bytes) returns (ls: seq<Lexeme>, t: Tree)
    requires var o := Feed(cfg, Init(cfg), bytes); o.ret == 0 && AtEnd(o.p)
    ensures Admits(cfg, ls, bytes, t) && Accepts(cfg, Events(t))
    ensures Feed(cfg, Init(cfg), bytes).p.log == Events(t)
  {
    hide Feed, StepByte;
    var sc := RunTracks(cfg, bytes);
    var p := Feed(cfg, Init(cfg), bytes).p;
    t := EndIsDocument(cfg, p, sc);
    ls := sc.ls;
    FeedAccepts(cfg, Init(cfg), bytes);
  }

  /**
    `json_parser_is_done` on a run that returned 0. It means the end of a document
    exactly when something has been told, or comments are off: with comments on,
    it already answers yes inside a comment before the document.
   */
  lemma DoneMeansDocument(cfg: Config, bytes: Bytes)
    requires Feed(cfg, Init(cfg), bytes).ret == 0
    ensures var p := Feed(cfg, Init(cfg), bytes).p;
            IsDone(p) && p.log != [] <==> exists t: Tree :: IsContainer(t) && p.log == Events(t)
    ensures var p := Feed(cfg, Init(cfg), bytes).p;
            IsDone(p) && !cfg.allowCComments && !cfg.allowYamlComments ==> AtEnd(p)
  {
    hide Feed, StepByte;
    var sc := RunTracks(cfg, bytes);
    var p := Feed(cfg, Init(cfg), bytes).p;
    DoneTold(cfg, p, sc);
  }

  /**
    What a run that is done has read when something was told: the document it told,
    spelled by a first part of the text; what may follow is a comment not yet ended.
   */
  lemma DoneIsDocument(cfg: Config, bytes: Bytes) returns (ls: seq<Lexeme>, t: Tree)
    requires var o := Feed(cfg, Init(cfg), bytes); o.ret == 0 && IsDone(o.p) && o.p.log != []
    ensures Text(ls) <= bytes && Admits(cfg, ls, Text(ls), t) && Accepts(cfg, Events(t))
    ensures Text(ls) == bytes || bytes[|Text(ls)|] in {HASH, SLASH}
    ensures Feed(cfg, Init(cfg), bytes).p.log == Events(t)
  {
    hide Feed, StepByte, Tokens, Events, Depth, TokenRun, TokenStep, CommentsPlaced, Fits, Allowed, IsLexeme,
      LexemeText;
    var sc := RunTracks(cfg, bytes);
    var p := Feed(cfg, Init(cfg), bytes).p;
    var d := ReadTokens(cfg.maxNesting, Meanings(sc.ls));
    StateOf(cfg, p, sc, d);
    FeedAccepts(cfg, Init(cfg), bytes);
    ls, t := sc.ls, d.tree;
    LastPiece(cfg, p, sc);
    hide PieceAt, Sized, Limited, PieceText;
  }

  /** After a document nothing but a comment can be half read. */
  lemma LastPiece(cfg: Config, p: Parser, sc: Scan)
    requires PieceAt(cfg, p, sc.piece, sc.c) && sc.c.state == STATE_OK
    ensures PieceText(sc.piece) == [] || PieceText(sc.piece)[0] in {HASH, SLASH}
  {
    hide Stands, InString, InNumber, InComment, Concat;
  }

  lemma DoneTold(cfg: Config, p: Parser, sc: Scan)
    requires Tracks(cfg, p, sc)
    ensures IsDone(p) && p.log != [] <==> exists t: Tree :: IsContainer(t) && p.log == Events(t)
    ensures IsDone(p) && !cfg.allowCComments && !cfg.allowYamlComments ==> AtEnd(p)
  {
    var d := ReadTokens(cfg.maxNesting, Meanings(sc.ls));
    StateOf(cfg, p, sc, d);
    LogOpens(cfg, p, sc);
    if IsDone(p) && p.log != [] {
      assert IsContainer(d.tree) && p.log == Events(d.tree);
    }
    forall t: Tree | IsContainer(t) && p.log == Events(t)
      ensures IsDone(p) && p.log != []
    {
      AcceptsEveryDocument(0, t);
      RunOpens(0, Tokens(t));
    }
  }

  /** What the description of the tokens read says about the parser. */
  lemma StateOf(cfg: Config, p: Parser, sc: Scan, d: Partial)
    requires Tracks(cfg, p, sc) && Describes(cfg.maxNesting, d, sc.c, Meanings(sc.ls))
    ensures p.stack == sc.c.stack
    ensures p.stack == [] ==> p.log == sc.c.events
    ensures d.Start? ==> p.log == []
    ensures d.Inside? ==> p.stack != []
    ensures d.Complete? ==> p.stack == [] && p.state != STATE_GO && sc.c.events == Events(d.tree)
    ensures p.state == STATE_GO ==> d.Start?
    ensures IsDone(p) && !cfg.allowCComments && !cfg.allowYamlComments ==> AtEnd(p)
  {
    PieceState(cfg, p, sc);
    hide Tracks;
    if d.Inside? {
      assert |OpenModes(d.frames)| > 0;
      hide FrameTokens, FrameEvents, OpenEvents, OpenTokens, FrameDepth;
    }
  }

  lemma PieceState(cfg: Config, p: Parser, sc: Scan)
    requires Tracks(cfg, p, sc)
    ensures p.stack == sc.c.stack
    ensures p.stack == [] ==> p.log == sc.c.events
    ensures p.log <= sc.c.events
    ensures sc.c.state != STATE_GO ==> p.state != STATE_GO
    ensures p.state == STATE_GO ==> sc.c.state == STATE_GO
    ensures IsDone(p) && !cfg.allowCComments && !cfg.allowYamlComments ==> AtEnd(p)
  {
    hide LexemesRead, Sized, Limited, IsPartGroup, BlockBodyAt, IsLineBody, UnitsValue, UnitsPeak;
    assert p.log + [] == p.log;
  }

  // ---------------------------------------------------------------- comments

  /** A comment replaced by one space. */
  function Erased(l: Lexeme): Lexeme { if IsComment(l) then Space(0x20) else l }

  function Erase(ls: seq<Lexeme>): seq<Lexeme> { seq(|ls|, i requires 0 <= i < |ls| => Erased(ls[i])) }

  lemma {:induction false} ErasingKeepsMeaning(ls: seq<Lexeme>)
    requires AreLexemes(ls)
    ensures AreLexemes(Erase(ls)) && CommentFree(Erase(ls)) && Meanings(Erase(ls)) == Meanings(ls)
  {
    if ls != [] {
      hide IsLexeme, Meaning, Erased, IsComment;
      var n := |ls| - 1;
      ErasingKeepsMeaning(ls[..n]);
      ErasedMeaning(ls[n]);
      assert Erase(ls)[..n] == Erase(ls[..n]);
    }
  }

  lemma ErasedMeaning(l: Lexeme)
    requires IsLexeme(l)
    ensures IsLexeme(Erased(l)) && !IsComment(Erased(l)) && Meaning(Erased(l)) == Meaning(l)
  {
    hide UnitsValue, AreUnits;
  }

  lemma ErasedFits(cfg: Config, ls: seq<Lexeme>)
    requires AreLexemes(ls) && AllFit(cfg, ls)
    ensures AreLexemes(Erase(ls)) && AllFit(cfg, Erase(ls))
  {
    hide IsNumber, UnitsPeak, AreUnits, NumberText, IsBlockBody, IsLineBody;
  }

  /** A configuration with both kinds of comments off. */
  function NoComments(cfg: Config): Config { cfg.(allowCComments := false, allowYamlComments := false) }

  /**
    Comments mean nothing: however an accepted text is read as lexemes, with each
    of its comments replaced by one space it is accepted without comments being
    allowed and tells the same events, wherever the comments stood and although each
    one flushes the number or name before it.
   */
  lemma CommentsAreSpaces(cfg: Config, ls: seq<Lexeme>, bytes: Bytes, t: Tree)
    requires Admits(cfg, ls, bytes, t) && Accepts(cfg, Events(t))
    ensures CommentFree(Erase(ls))
    ensures var o := Feed(NoComments(cfg), Init(NoComments(cfg)), Text(Erase(ls)));
            o.ret == 0 && AtEnd(o.p) && o.p.log == Feed(cfg, Init(cfg), bytes).p.log
  {
    hide Feed, StepByte, AtEnd;
    AcceptsSpelling(cfg, ls, bytes, t);
    ErasingKeepsMeaning(ls);
    ErasedFits(cfg, ls);
    hide Text, Meanings, IsLexeme, Fits, Erase;
    assert Admits(NoComments(cfg), Erase(ls), Text(Erase(ls)), t);
    AcceptsSpelling(NoComments(cfg), Erase(ls), Text(Erase(ls)), t);
  }

  // ---------------------------------------------------------------- where the documentation says otherwise

  /** One byte, the start of a YAML comment, already makes the parser done, with nothing told. */
  lemma CommentIsDone(cfg: Config)
    requires cfg.allowYamlComments
    ensures var o := Feed(cfg, Init(cfg), [HASH]); o.ret == 0 && IsDone(o.p) && o.p.log == []
  {
    FeedOne(cfg, Init(cfg), HASH);
    hide Feed;
  }

  /** The table has no entry for an ASCII byte in a state. */
  predicate IsRefused(s: State, ch: Byte) {
    ch < 0x80 && CharacterClass(ch) != C_ERROR && Transition(s, CharacterClass(ch)) == REJECT
  }

  /** Such a byte ends the run, whatever follows it. */
  lemma RefusedAfter(cfg: Config, s: Bytes, ch: Byte, rest: Bytes)
    requires var o := Feed(cfg, Init(cfg), s);
             o.ret == 0 && o.p.utf8Left == 0 && IsRefused(o.p.state, ch)
    ensures Feed(cfg, Init(cfg), s + [ch] + rest).ret == ERROR_UNEXPECTED_CHAR
  {
    hide Feed, StepByte, IsRefused;
    RefusedStep(cfg, Feed(cfg, Init(cfg), s).p, ch);
    FeedSnoc(cfg, Init(cfg), s, ch);
    FeedAppend(cfg, Init(cfg), s + [ch], rest);
  }

  lemma RefusedStep(cfg: Config, p: Parser, ch: Byte)
    requires Ready(p) && p.utf8Left == 0 && IsRefused(p.state, ch)
    ensures StepByte(cfg, p, ch).ret == ERROR_UNEXPECTED_CHAR
  {
    hide Transition, CharacterClass;
    assert Classify(0, ch) == Classified(0, CharacterClass(ch), 0);
  }

  lemma NumberInArray(cfg: Config, n: Number)
    requires cfg.callback([], Event(JsonArrayBegin, [])) == 0
    requires IsNumber(n) && (cfg.maxData == 0 || |NumberText(n)| < cfg.maxData)
    ensures var o := Feed(cfg, Init(cfg), [0x5b] + NumberText(n));
            o.ret == 0 && o.p.utf8Left == 0 && o.p.state == NumberState(n)
  {
    FeedOne(cfg, Init(cfg), 0x5b);
    FeedAppend(cfg, Init(cfg), [0x5b], NumberText(n));
    hide Feed, IsNumber, NumberText;
    var p := StepByte(cfg, Init(cfg), 0x5b).p;
    assert p.state == STATE_A && p.buffer == [] && p.utf8Left == 0;
    FeedNumber(cfg, p, n);
  }

  /**
    A zero with an exponent, a number of section 2.4 of RFC 4627 such as `0e5`, is
    refused at the exponent's mark.
   */
  lemma ZeroExponentIsRefused(cfg: Config, minus: bool, mark: Byte, rest: Bytes)
    requires cfg.callback([], Event(JsonArrayBegin, [])) == 0 && IsMark(mark)
    requires cfg.maxData == 0 || |SignText(minus)| + 1 < cfg.maxData
    ensures Feed(cfg, Init(cfg), [0x5b] + SignText(minus) + [0x30] + [mark] + rest).ret == ERROR_UNEXPECTED_CHAR
  {
    hide Feed, StepByte, Classify, NumberState;
    var n := Number(minus, [0x30], None, None);
    var text := [0x5b] + NumberText(n);
    assert text == [0x5b] + SignText(minus) + [0x30];
    NumberInArray(cfg, n);
    ZeroState(n);
    MarkAfterZero(mark);
    hide IsRefused, NumberText, SignText;
    RefusedAfter(cfg, text, mark, rest);
  }

  lemma ZeroState(n: Number)
    requires n.whole == [0x30] && n.frac.None? && n.exp.None?
    ensures NumberState(n) == STATE_Z0
  {
  }

  lemma MarkAfterZero(mark: Byte)
    requires IsMark(mark)
    ensures IsRefused(STATE_Z0, mark)
  {
  }

  /** Directly after a number with an exponent, such as `1e5`, the start of a comment is refused, allowed or not. */
  lemma CommentAfterExponentIsRefused(cfg: Config, n: Number, ch: Byte, rest: Bytes)
    requires cfg.callback([], Event(JsonArrayBegin, [])) == 0 && (ch == HASH || ch == SLASH)
    requires IsNumber(n) && n.exp.Some? && (cfg.maxData == 0 || |NumberText(n)| < cfg.maxData)
    ensures Feed(cfg, Init(cfg), [0x5b] + NumberText(n) + [ch] + rest).ret == ERROR_UNEXPECTED_CHAR
  {
    hide Feed, IsNumber, NumberText;
    NumberInArray(cfg, n);
    RefusedAfter(cfg, [0x5b] + NumberText(n), ch, rest);
  }

  // ---------------------------------------------------------------- the run invariant

  /** The objects and arrays that events have begun and not ended. */
  function OpenOf(evs: seq<Event>): seq<Mode> {
    if evs == [] then [] else Opens(OpenOf(evs[..|evs| - 1]), evs[|evs| - 1])
  }

  lemma OpenOfSnoc(evs: seq<Event>, ev: Event)
    ensures OpenOf(evs + [ev]) == Opens(OpenOf(evs), ev)
  {
    assert (evs + [ev])[..|evs|] == evs;
  }

  /** The machine's stack holds the structures its events have left open. */
  lemma {:induction false} RunOpens(limit: nat, ts: seq<Token>)
    requires TokenRun(limit, START, ts).Some?
    ensures var c := TokenRun(limit, START, ts).value; OpenOf(c.events) == c.stack
  {
    if ts != [] {
      var n := |ts| - 1;
      RunOpens(limit, ts[..n]);
      var c0 := TokenRun(limit, START, ts[..n]).value;
      var c := TokenRun(limit, START, ts).value;
      StepEvent(limit, c0, ts[n]);
      hide TokenStep;
      if c.events != c0.events {
        var ev :| c.events == c0.events + [ev] && c.stack == Opens(c0.stack, ev);
        OpenOfSnoc(c0.events, ev);
      }
    }
  }

  lemma StepEvent(limit: nat, c: Control, t: Token)
    requires TokenStep(limit, c, t).Some?
    ensures var d := TokenStep(limit, c, t).value;
            || (d.events == c.events && d.stack == c.stack)
            || (exists ev: Event :: d.events == c.events + [ev] && d.stack == Opens(c.stack, ev))
  {
    var d := TokenStep(limit, c, t).value;
    if d.events != c.events {
      assert d.events == c.events + [d.events[|c.events|]];
    }
  }

  /** The open structures after one more event. */
  function Opens(before: seq<Mode>, ev: Event): seq<Mode> {
    match ev.kind
    case JsonObjectBegin => before + [ModeObject]
    case JsonArrayBegin => before + [ModeArray]
    case JsonObjectEnd | JsonArrayEnd => if before == [] then [] else before[..|before| - 1]
    case _ => before
  }

  /** The log leaves open exactly what is on the stack: what is pending opens and closes nothing. */
  lemma LogOpens(cfg: Config, p: Parser, sc: Scan)
    requires Tracks(cfg, p, sc)
    ensures OpenOf(p.log) == p.stack
  {
    hide Tracks, TokenRun, Meanings;
    LogOrPending(cfg, p, sc);
    RunOpens(cfg.maxNesting, Meanings(sc.ls));
    if p.log != sc.c.events {
      OpenOfSnoc(p.log, Event(p.kind, p.buffer));
    }
  }

  lemma LogOrPending(cfg: Config, p: Parser, sc: Scan)
    requires Tracks(cfg, p, sc)
    ensures AreLexemes(sc.ls)
    ensures p.stack == sc.c.stack && TokenRun(cfg.maxNesting, START, Meanings(sc.ls)) == Some(sc.c)
    ensures p.log == sc.c.events
            || ((IsNumberKind(p.kind) || IsName(p.kind)) && sc.c.events == p.log + [Event(p.kind, p.buffer)])
  {
    hide InString, InNumber, InComment, Sized;
    assert p.log + [] == p.log;
  }
}
