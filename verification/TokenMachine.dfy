/**
  The parser seen one token at a time: a push-down machine over the seven
  structural states. It accepts exactly the token sequences of documents, and
  tells exactly their events.
 */
module TokenMachine {
  import opened JsonTables
  import opened Grammar

  datatype Control = Control(state: State, stack: seq<Mode>, events: seq<Event>)

  function Top(c: Control): Mode
    requires c.stack != []
  {
    c.stack[|c.stack| - 1]
  }

  predicate ValueExpected(s: State) { s == STATE_V || s == STATE_A }
  predicate KeyExpected(s: State) { s == STATE_O || s == STATE_K }

  function Opened(c: Control, state: State, mode: Mode, kind: JsonType): Control {
    Control(state, c.stack + [mode], c.events + [Event(kind, [])])
  }

  function Closed(c: Control, kind: JsonType): Control
    requires c.stack != []
  {
    Control(STATE_OK, c.stack[..|c.stack| - 1], c.events + [Event(kind, [])])
  }

  /** `d` levels of nesting are within the limit; a limit of 0 is no limit. */
  predicate Within(limit: nat, d: nat) { limit == 0 || d <= limit }

  function TokenStep(limit: nat, c: Control, t: Token): Option<Control> {
    match t
    case TPunct(b) =>
      if (b == LCURB || b == LSQRB) && !Within(limit, |c.stack| + 1) then None
      else if b == LCURB && (c.state == STATE_GO || ValueExpected(c.state)) then
        Some(Opened(c, STATE_O, ModeObject, JsonObjectBegin))
      else if b == LSQRB && (c.state == STATE_GO || ValueExpected(c.state)) then
        Some(Opened(c, STATE_A, ModeArray, JsonArrayBegin))
      else if b == RCURB && (c.state == STATE_OK || c.state == STATE_O) && c.stack != [] && Top(c) == ModeObject then
        Some(Closed(c, JsonObjectEnd))
      else if b == RSQRB && (c.state == STATE_OK || c.state == STATE_A) && c.stack != [] && Top(c) == ModeArray then
        Some(Closed(c, JsonArrayEnd))
      else if b == COLON && c.state == STATE_CO then Some(c.(state := STATE_V))
      else if b == COMMA && c.state == STATE_OK && c.stack != [] then
        Some(c.(state := if Top(c) == ModeObject then STATE_K else STATE_V))
      else None
    case TStr(v) =>
      if KeyExpected(c.state) then Some(c.(state := STATE_CO, events := c.events + [Event(JsonKey, v)]))
      else if ValueExpected(c.state) then Some(c.(state := STATE_OK, events := c.events + [Event(JsonString, v)]))
      else None
    case TNum(n) =>
      if ValueExpected(c.state) then
        Some(c.(state := STATE_OK, events := c.events + [Event(NumberKind(n), NumberText(n))]))
      else None
    case TName(k) =>
      if ValueExpected(c.state) then Some(c.(state := STATE_OK, events := c.events + [Event(k, [])]))
      else None
  }

  function TokenRun(limit: nat, c: Control, ts: seq<Token>): Option<Control> {
    if ts == [] then Some(c)
    else
      var d := TokenRun(limit, c, ts[..|ts| - 1]);
      if d.None? then None else TokenStep(limit, d.value, ts[|ts| - 1])
  }

  const START := Control(STATE_GO, [], [])

  /** The state of a machine that has read a whole document. */
  function Finished(t: Tree): Control {
    Control(STATE_OK, [], Events(t))
  }

  lemma {:induction false} TokenRunAppend(limit: nat, c: Control, a: seq<Token>, b: seq<Token>)
    ensures TokenRun(limit, c, a + b) ==
            var d := TokenRun(limit, c, a); if d.None? then None else TokenRun(limit, d.value, b)
    decreases b
  {
    hide TokenStep;
    if b == [] {
      assert a + b == a;
    } else {
      assert (a + b)[..|a + b| - 1] == a + b[..|b| - 1];
      TokenRunAppend(limit, c, a, b[..|b| - 1]);
    }
  }

  lemma TokenRunOne(limit: nat, c: Control, t: Token)
    ensures TokenRun(limit, c, [t]) == TokenStep(limit, c, t)
  {
    hide TokenStep;
    assert [t][..0] == [];
    assert TokenRun(limit, c, []) == Some(c);
  }

  lemma ReadsBracketed(limit: nat, c: Control, open: Control, inner: Control, l: Token, ts: seq<Token>, r: Token)
    requires TokenStep(limit, c, l) == Some(open) && TokenRun(limit, open, ts) == Some(inner)
    ensures TokenRun(limit, c, [l] + ts + [r]) == TokenStep(limit, inner, r)
  {
    hide TokenStep, TokenRun;
    TokenRunOne(limit, c, l);
    TokenRunAppend(limit, c, [l], ts);
    TokenRunOne(limit, inner, r);
    TokenRunAppend(limit, c, [l] + ts, [r]);
  }

  // ---------------------------------------------------------------- every document is accepted

  /** After `c` has read a value with these events. */
  function WithValue(c: Control, evs: seq<Event>): Control {
    Control(STATE_OK, c.stack, c.events + evs)
  }

  predicate CanRead(c: Control, t: Tree) {
    ValueExpected(c.state) || (c.state == STATE_GO && IsContainer(t))
  }

  /** Reading a document where a value is expected moves past it and tells its events. */
  lemma {:induction false} ReadsTree(limit: nat, c: Control, t: Tree)
    requires CanRead(c, t) && Within(limit, |c.stack| + Depth(t))
    ensures TokenRun(limit, c, Tokens(t)) == Some(WithValue(c, Events(t)))
    decreases t, 2
  {
    match t
    case Str(v) => TokenRunOne(limit, c, TStr(v));
    case Num(n) => TokenRunOne(limit, c, TNum(n));
    case Name(k) => TokenRunOne(limit, c, TName(k));
    case Arr(items) => ReadsArr(limit, c, items, t);
    case Obj(members) => ReadsObj(limit, c, members, t);
  }

  lemma {:induction false} ReadsArr(limit: nat, c: Control, items: seq<Tree>, t: Tree)
    requires CanRead(c, t) && t == Arr(items) && Within(limit, |c.stack| + Depth(t))
    ensures TokenRun(limit, c, Tokens(t)) == Some(WithValue(c, Events(t)))
    decreases t, 1
  {
    assert Tokens(t) == [TPunct(LSQRB)] + ItemTokens(items) + [TPunct(RSQRB)];
    assert Events(t) == [Event(JsonArrayBegin, [])] + ItemEvents(items) + [Event(JsonArrayEnd, [])];
    var open := Opened(c, STATE_A, ModeArray, JsonArrayBegin);
    var inner := Control(if items == [] then STATE_A else STATE_OK, open.stack, open.events + ItemEvents(items));
    assert items == [] ==> ItemTokens(items) == [] && inner == open;
    hide Tokens, Events, ItemTokens, ItemEvents;
    if items == [] {
      assert TokenRun(limit, open, []) == Some(open);
    } else {
      ReadsItems(limit, open, items, t);
    }
    hide TokenRun;
    ReadsBracketed(limit, c, open, inner, TPunct(LSQRB), ItemTokens(items), TPunct(RSQRB));
    assert inner.stack[..|inner.stack| - 1] == c.stack;
    assert inner.events + [Event(JsonArrayEnd, [])] == c.events + Events(t);
  }

  lemma {:induction false} ReadsObj(limit: nat, c: Control, members: seq<Member>, t: Tree)
    requires CanRead(c, t) && t == Obj(members) && Within(limit, |c.stack| + Depth(t))
    ensures TokenRun(limit, c, Tokens(t)) == Some(WithValue(c, Events(t)))
    decreases t, 1
  {
    assert Tokens(t) == [TPunct(LCURB)] + MemberTokens(members) + [TPunct(RCURB)];
    assert Events(t) == [Event(JsonObjectBegin, [])] + MemberEvents(members) + [Event(JsonObjectEnd, [])];
    var open := Opened(c, STATE_O, ModeObject, JsonObjectBegin);
    var inner := Control(if members == [] then STATE_O else STATE_OK, open.stack, open.events + MemberEvents(members));
    assert members == [] ==> MemberTokens(members) == [] && inner == open;
    hide Tokens, Events, MemberTokens, MemberEvents;
    if members == [] {
      assert TokenRun(limit, open, []) == Some(open);
    } else {
      ReadsMembers(limit, open, members, t);
    }
    hide TokenRun;
    ReadsBracketed(limit, c, open, inner, TPunct(LCURB), MemberTokens(members), TPunct(RCURB));
    assert inner.stack[..|inner.stack| - 1] == c.stack;
    assert inner.events + [Event(JsonObjectEnd, [])] == c.events + Events(t);
  }

  /** In a freshly opened array, items each followed by a comma lead to a value position. */
  lemma {:induction false} ReadsItemsThenCommas(limit: nat, c: Control, items: seq<Tree>, t: Tree)
    requires c.state == STATE_A && c.stack != [] && Top(c) == ModeArray
    requires Within(limit, |c.stack| + ItemsDepth(items))
    requires forall i :: 0 <= i < |items| ==> items[i] < t
    ensures TokenRun(limit, c, ItemsThenCommas(items))
            == Some(Control(if items == [] then STATE_A else STATE_V, c.stack, c.events + ItemEvents(items)))
    decreases t, 0, items
  {
    if items == [] {
      assert c.events + ItemEvents(items) == c.events;
    } else {
      ReadsItems(limit, c, items, t);
      var d := WithValue(c, ItemEvents(items));
      assert ItemsThenCommas(items) == ItemTokens(items) + [TPunct(COMMA)];
      TokenRunAppend(limit, c, ItemTokens(items), [TPunct(COMMA)]);
      TokenRunOne(limit, d, TPunct(COMMA));
    }
  }

  lemma {:induction false} ReadsItems(limit: nat, c: Control, items: seq<Tree>, t: Tree)
    requires c.state == STATE_A && c.stack != [] && Top(c) == ModeArray
    requires Within(limit, |c.stack| + ItemsDepth(items))
    requires forall i :: 0 <= i < |items| ==> items[i] < t
    requires items != []
    ensures TokenRun(limit, c, ItemTokens(items)) == Some(WithValue(c, ItemEvents(items)))
    decreases t, 0, items, 0
  {
    hide TokenStep, TokenRun, Tokens, Events;
    var n := |items| - 1;
    ReadsItemsThenCommas(limit, c, items[..n], t);
    var d := TokenRun(limit, c, ItemsThenCommas(items[..n])).value;
    ReadsTree(limit, d, items[n]);
    TokenRunAppend(limit, c, ItemsThenCommas(items[..n]), Tokens(items[n]));
    assert WithValue(d, Events(items[n])).events == c.events + ItemEvents(items);
  }

  lemma {:induction false} ReadsMembersThenCommas(limit: nat, c: Control, members: seq<Member>, t: Tree)
    requires c.state == STATE_O && c.stack != [] && Top(c) == ModeObject
    requires Within(limit, |c.stack| + MembersDepth(members))
    requires forall i :: 0 <= i < |members| ==> members[i].value < t
    ensures TokenRun(limit, c, MembersThenCommas(members))
            == Some(Control(if members == [] then STATE_O else STATE_K, c.stack, c.events + MemberEvents(members)))
    decreases t, 0, members
  {
    if members == [] {
      assert c.events + MemberEvents(members) == c.events;
    } else {
      ReadsMembers(limit, c, members, t);
      var d := WithValue(c, MemberEvents(members));
      assert MembersThenCommas(members) == MemberTokens(members) + [TPunct(COMMA)];
      TokenRunAppend(limit, c, MemberTokens(members), [TPunct(COMMA)]);
      TokenRunOne(limit, d, TPunct(COMMA));
    }
  }

  lemma {:induction false} ReadsMembers(limit: nat, c: Control, members: seq<Member>, t: Tree)
    requires c.state == STATE_O && c.stack != [] && Top(c) == ModeObject
    requires Within(limit, |c.stack| + MembersDepth(members))
    requires forall i :: 0 <= i < |members| ==> members[i].value < t
    requires members != []
    ensures TokenRun(limit, c, MemberTokens(members)) == Some(WithValue(c, MemberEvents(members)))
    decreases t, 0, members, 0
  {
    hide TokenRun, Tokens, Events;
    var n := |members| - 1;
    var last := members[n];
    ReadsMembersThenCommas(limit, c, members[..n], t);
    var d := TokenRun(limit, c, MembersThenCommas(members[..n])).value;
    var atColon := Control(STATE_CO, d.stack, d.events + [Event(JsonKey, last.key)]);
    var atValue := atColon.(state := STATE_V);
    TokenRunOne(limit, d, TStr(last.key));
    TokenRunOne(limit, atColon, TPunct(COLON));
    TokenRunAppend(limit, d, [TStr(last.key)], [TPunct(COLON)]);
    assert [TStr(last.key)] + [TPunct(COLON)] == [TStr(last.key), TPunct(COLON)];
    TokenRunAppend(limit, c, MembersThenCommas(members[..n]), [TStr(last.key), TPunct(COLON)]);
    ReadsTree(limit, atValue, last.value);
    TokenRunAppend(limit, c, MembersThenCommas(members[..n]) + [TStr(last.key), TPunct(COLON)], Tokens(last.value));
    assert WithValue(atValue, Events(last.value)).events == c.events + MemberEvents(members);
  }

  /** Completeness: the machine accepts the tokens of every document and tells its events. */
  lemma AcceptsEveryDocument(limit: nat, t: Tree)
    requires IsContainer(t) && Within(limit, Depth(t))
    ensures TokenRun(limit, START, Tokens(t)) == Some(Finished(t))
  {
    ReadsTree(limit, START, t);
    assert WithValue(START, Events(t)) == Finished(t);
  }

  // ---------------------------------------------------------------- only documents are accepted

  /** An object or array that is still open, with what it holds so far. */
  datatype Frame = InArr(items: seq<Tree>) | InObj(members: seq<Member>, key: Option<Bytes>)

  function FrameMode(f: Frame): Mode { if f.InArr? then ModeArray else ModeObject }

  function FrameTokens(f: Frame, s: State): seq<Token> {
    match f
    case InArr(items) =>
      [TPunct(LSQRB)] + (if s == STATE_OK then ItemTokens(items) else ItemsThenCommas(items))
    case InObj(members, key) =>
      [TPunct(LCURB)] + (if s == STATE_OK then MemberTokens(members) else MembersThenCommas(members))
      + (if key.None? then [] else if s == STATE_V then [TStr(key.value), TPunct(COLON)] else [TStr(key.value)])
  }

  function FrameEvents(f: Frame): seq<Event> {
    match f
    case InArr(items) => [Event(JsonArrayBegin, [])] + ItemEvents(items)
    case InObj(members, key) =>
      [Event(JsonObjectBegin, [])] + MemberEvents(members)
      + (if key.None? then [] else [Event(JsonKey, key.value)])
  }

  function FrameDepth(f: Frame): nat {
    if f.InArr? then ItemsDepth(f.items) else MembersDepth(f.members)
  }

  /** Where the innermost open frame stands in each state. */
  predicate FrameAt(f: Frame, s: State) {
    match f
    case InArr(items) =>
      (s == STATE_A && items == []) || ((s == STATE_V || s == STATE_OK) && items != [])
    case InObj(members, key) =>
      || (s == STATE_O && members == [] && key == None)
      || ((s == STATE_K || s == STATE_OK) && members != [] && key == None)
      || ((s == STATE_CO || s == STATE_V) && key.Some?)
  }

  /** An enclosing frame waits for the value it has just opened. */
  predicate IsHole(f: Frame) { f.InObj? ==> f.key.Some? }

  /** `fs` are the frames open around the innermost one. */
  function OuterTokens(fs: seq<Frame>): seq<Token> {
    if fs == [] then [] else OuterTokens(fs[..|fs| - 1]) + FrameTokens(fs[|fs| - 1], STATE_V)
  }

  function OpenEvents(fs: seq<Frame>): seq<Event> {
    if fs == [] then [] else OpenEvents(fs[..|fs| - 1]) + FrameEvents(fs[|fs| - 1])
  }

  function OpenModes(fs: seq<Frame>): (ms: seq<Mode>)
    ensures |ms| == |fs|
  {
    if fs == [] then [] else OpenModes(fs[..|fs| - 1]) + [FrameMode(fs[|fs| - 1])]
  }

  function OpenTokens(fs: seq<Frame>, s: State): seq<Token> {
    if fs == [] then [] else OuterTokens(fs[..|fs| - 1]) + FrameTokens(fs[|fs| - 1], s)
  }

  /** A partly read document: nothing yet, some open frames, or all of it. */
  datatype Partial = Start | Inside(frames: seq<Frame>) | Complete(tree: Tree)

  /** `d` is what the machine has read when it has read `ts` and is in state `c`. */
  ghost predicate Describes(limit: nat, d: Partial, c: Control, ts: seq<Token>) {
    match d
    case Start => c == START && ts == []
    case Inside(fs) =>
      && fs != []
      && FrameAt(fs[|fs| - 1], c.state)
      && (forall i :: 0 <= i < |fs| - 1 ==> IsHole(fs[i]))
      && c.stack == OpenModes(fs)
      && ts == OpenTokens(fs, c.state)
      && c.events == OpenEvents(fs)
      && (forall i :: 0 <= i < |fs| ==> Within(limit, i + 1 + FrameDepth(fs[i])))
    case Complete(t) =>
      IsContainer(t) && Within(limit, Depth(t)) && c == Finished(t) && ts == Tokens(t)
  }

  function AddToFrame(f: Frame, t: Tree): Frame
    requires IsHole(f)
  {
    match f
    case InArr(items) => InArr(items + [t])
    case InObj(members, key) => InObj(members + [Member(key.value, t)], None)
  }

  /** A value in a hole fills it. */
  lemma AddToFrameFills(f: Frame, t: Tree, s: State)
    requires IsHole(f)
    requires s == STATE_V || (s == STATE_A && f.InArr? && f.items == [])
    ensures var g := AddToFrame(f, t);
            && FrameAt(g, STATE_OK) && FrameMode(g) == FrameMode(f)
            && FrameTokens(g, STATE_OK) == FrameTokens(f, s) + Tokens(t)
            && FrameEvents(g) == FrameEvents(f) + Events(t)
            && FrameDepth(g) == Max(FrameDepth(f), Depth(t))
  {
    hide Tokens, Events, Depth;
    match f
    case InArr(items) =>
      assert (items + [t])[..|items|] == items;
    case InObj(members, key) =>
      assert (members + [Member(key.value, t)])[..|members|] == members;
  }

  lemma Regroup<T>(a: seq<T>, b: seq<T>, c: seq<T>)
    ensures (a + b) + c == a + (b + c)
  {
  }

  /** Replacing the innermost frame. */
  lemma ReplaceTop(fs: seq<Frame>, g: Frame)
    requires fs != [] && FrameMode(g) == FrameMode(fs[|fs| - 1])
    ensures var n := |fs| - 1; var gs := fs[..n] + [g];
            && gs[..n] == fs[..n] && gs[n] == g
            && OpenModes(gs) == OpenModes(fs)
            && OpenEvents(gs) == OpenEvents(fs[..n]) + FrameEvents(g)
  {
    assert (fs[..|fs| - 1] + [g])[..|fs| - 1] == fs[..|fs| - 1];
  }

  /** Reading a whole value inside the frames `fs`. */
  lemma ReadValue(limit: nat, fs: seq<Frame>, c: Control, ts: seq<Token>, t: Tree) returns (d: Partial)
    requires Describes(limit, Inside(fs), c, ts) && ValueExpected(c.state)
    requires Depth(t) == 0
    ensures d.Inside? && Describes(limit, d, WithValue(c, Events(t)), ts + Tokens(t))
  {
    hide Tokens, Events, FrameTokens, FrameEvents, FrameMode;
    var n := |fs| - 1;
    var g := AddToFrame(fs[n], t);
    AddToFrameFills(fs[n], t, c.state);
    ReplaceTop(fs, g);
    d := Inside(fs[..n] + [g]);
  }

  function CloseFrame(f: Frame): Tree { if f.InArr? then Arr(f.items) else Obj(f.members) }

  function CloseKind(f: Frame): JsonType { if f.InArr? then JsonArrayEnd else JsonObjectEnd }

  /** The innermost frame and the bracket that closes it make up its tree. */
  lemma CloseFrameTokens(limit: nat, f: Frame, c: Control, b: Byte)
    requires b == RCURB || b == RSQRB
    requires c.stack != [] && Top(c) == FrameMode(f) && FrameAt(f, c.state)
    requires TokenStep(limit, c, TPunct(b)).Some?
    ensures TokenStep(limit, c, TPunct(b)).value == Closed(c, CloseKind(f))
    ensures FrameTokens(f, c.state) + [TPunct(b)] == Tokens(CloseFrame(f))
    ensures FrameEvents(f) + [Event(CloseKind(f), [])] == Events(CloseFrame(f))
    ensures IsContainer(CloseFrame(f)) && Depth(CloseFrame(f)) == 1 + FrameDepth(f)
  {
  }

  lemma InnermostMode(fs: seq<Frame>)
    requires fs != []
    ensures var ms := OpenModes(fs); var n := |fs| - 1;
            ms[n] == FrameMode(fs[n]) && ms[..n] == OpenModes(fs[..n])
  {
  }

  /** What has been read once the innermost frame is closed. */
  lemma CloseReads(limit: nat, fs: seq<Frame>, c: Control, ts: seq<Token>, b: Byte)
    requires Describes(limit, Inside(fs), c, ts)
    requires (b == RCURB || b == RSQRB) && TokenStep(limit, c, TPunct(b)).Some?
    ensures var n := |fs| - 1; var t := CloseFrame(fs[n]); var outer := fs[..n];
            && TokenStep(limit, c, TPunct(b))
               == Some(Control(STATE_OK, OpenModes(outer), OpenEvents(outer) + Events(t)))
            && ts + [TPunct(b)] == OuterTokens(outer) + Tokens(t)
  {
    var n := |fs| - 1;
    var outer := fs[..n];
    InnermostMode(fs);
    CloseFrameTokens(limit, fs[n], c, b);
    hide TokenStep, FrameTokens, FrameEvents, Tokens, Events, CloseFrame, CloseKind, OpenModes, FrameAt, FrameMode;
    hide FrameDepth, Depth, OuterTokens, IsContainer, IsHole, Within;
    assert OpenEvents(fs) == OpenEvents(outer) + FrameEvents(fs[n]);
    Regroup(OuterTokens(outer), FrameTokens(fs[n], c.state), [TPunct(b)]);
    Regroup(OpenEvents(outer), FrameEvents(fs[n]), [Event(CloseKind(fs[n]), [])]);
  }

  /** Closing a frame leaves the enclosing ones waiting, and within the limit. */
  lemma CloseKeeps(limit: nat, fs: seq<Frame>, c: Control, ts: seq<Token>, b: Byte)
    requires Describes(limit, Inside(fs), c, ts)
    requires (b == RCURB || b == RSQRB) && TokenStep(limit, c, TPunct(b)).Some?
    ensures fs != []
    ensures var n := |fs| - 1; var t := CloseFrame(fs[n]);
            && IsContainer(t) && Within(limit, n + Depth(t))
            && (forall i :: 0 <= i < n ==> IsHole(fs[i]))
            && (forall i :: 0 <= i < n ==> Within(limit, i + 1 + FrameDepth(fs[i])))
  {
    hide TokenStep, FrameTokens, FrameEvents, Tokens, Events, CloseFrame, CloseKind, OpenModes, FrameAt, FrameMode,
      FrameDepth, Depth, OuterTokens, OpenTokens, OpenEvents;
    var n := |fs| - 1;
    InnermostMode(fs);
    CloseFrameTokens(limit, fs[n], c, b);
  }

  /** Closing the innermost frame: it becomes a value of the next one, or the document. */
  lemma ReadClose(limit: nat, fs: seq<Frame>, c: Control, ts: seq<Token>, b: Byte) returns (d: Partial)
    requires Describes(limit, Inside(fs), c, ts)
    requires (b == RCURB || b == RSQRB) && TokenStep(limit, c, TPunct(b)).Some?
    ensures Describes(limit, d, TokenStep(limit, c, TPunct(b)).value, ts + [TPunct(b)])
  {
    hide Describes, OpenTokens, OuterTokens, OpenEvents, OpenModes, FrameEvents, FrameTokens, FrameMode, TokenStep,
      Tokens, Events, CloseFrame, FrameDepth, Depth, IsHole, Within;
    var n := |fs| - 1;
    CloseKeeps(limit, fs, c, ts, b);
    var t := CloseFrame(fs[n]);
    CloseReads(limit, fs, c, ts, b);
    if n == 0 {
      assert fs[..n] == [];
      d := ReadEnd(limit, t);
    } else {
      d := FillOuter(limit, fs[..n], t);
    }
  }

  /** A closed outermost frame is the document. */
  lemma ReadEnd(limit: nat, t: Tree) returns (d: Partial)
    requires IsContainer(t) && Within(limit, Depth(t))
    ensures Describes(limit, d, Control(STATE_OK, OpenModes([]), OpenEvents([]) + Events(t)),
                      OuterTokens([]) + Tokens(t))
  {
    assert OuterTokens([]) + Tokens(t) == Tokens(t);
    assert OpenEvents([]) + Events(t) == Events(t);
    d := Complete(t);
  }

  /** A closed frame fills the hole of the frame around it. */
  lemma FillOuter(limit: nat, outer: seq<Frame>, t: Tree) returns (d: Partial)
    requires outer != [] && forall i :: 0 <= i < |outer| ==> IsHole(outer[i])
    requires forall i :: 0 <= i < |outer| ==> Within(limit, i + 1 + FrameDepth(outer[i]))
    requires Within(limit, |outer| + Depth(t))
    ensures Describes(limit, d, Control(STATE_OK, OpenModes(outer), OpenEvents(outer)
            + Events(t)), OuterTokens(outer) + Tokens(t))
  {
    hide FrameTokens, FrameEvents, Tokens, Events;
    var m := |outer| - 1;
    var g := AddToFrame(outer[m], t);
    AddToFrameFills(outer[m], t, STATE_V);
    ReplaceTop(outer, g);
    d := Inside(outer[..m] + [g]);
    assert OuterTokens(outer) + Tokens(t) == OuterTokens(outer[..m]) + FrameTokens(g, STATE_OK);
    assert OpenEvents(outer) + Events(t) == OpenEvents(outer[..m]) + FrameEvents(g);
  }

  /** Opening a frame inside the frames `fs`. */
  lemma ReadOpen(limit: nat, fs: seq<Frame>, c: Control, ts: seq<Token>, b: Byte) returns (d: Partial)
    requires Describes(limit, Inside(fs), c, ts) && ValueExpected(c.state)
    requires (b == LCURB || b == LSQRB) && TokenStep(limit, c, TPunct(b)).Some?
    ensures Describes(limit, d, TokenStep(limit, c, TPunct(b)).value, ts + [TPunct(b)])
  {
    hide FrameTokens, FrameEvents, OuterTokens, OpenEvents, OpenTokens, OpenModes, FrameDepth, TokenStep;
    var g := if b == LCURB then InObj([], None) else InArr([]);
    d := Inside(fs + [g]);
    OpenedFrame(limit, fs, c, b, g);
    OpenedLists(fs, g, c.state);
  }

  lemma OpenedLists(fs: seq<Frame>, g: Frame, s: State)
    requires fs != [] && FrameAt(fs[|fs| - 1], s) && ValueExpected(s)
    ensures var gs := fs + [g];
            && IsHole(fs[|fs| - 1]) && OuterTokens(fs) == OpenTokens(fs, s)
            && (forall s': State :: OpenTokens(gs, s') == OuterTokens(fs) + FrameTokens(g, s'))
            && OpenEvents(gs) == OpenEvents(fs) + FrameEvents(g)
            && OpenModes(gs) == OpenModes(fs) + [FrameMode(g)]
  {
    hide FrameTokens, FrameEvents, FrameMode;
    assert (fs + [g])[..|fs|] == fs;
    HoleTokens(fs[|fs| - 1], s);
  }

  lemma HoleTokens(f: Frame, s: State)
    requires FrameAt(f, s) && ValueExpected(s)
    ensures IsHole(f) && FrameTokens(f, s) == FrameTokens(f, STATE_V)
  {
    hide ItemsThenCommas, MembersThenCommas, ItemTokens, MemberTokens;
  }

  lemma OpenedFrame(limit: nat, fs: seq<Frame>, c: Control, b: Byte, g: Frame)
    requires fs != [] && c.stack == OpenModes(fs) && ValueExpected(c.state)
    requires (b == LCURB || b == LSQRB) && TokenStep(limit, c, TPunct(b)).Some?
    requires g == if b == LCURB then InObj([], None) else InArr([])
    ensures var c' := TokenStep(limit, c, TPunct(b)).value;
            && c' == Control(if b == LCURB then STATE_O else STATE_A, OpenModes(fs) + [FrameMode(g)],
                             c.events + FrameEvents(g))
            && FrameTokens(g, c'.state) == [TPunct(b)] && FrameAt(g, c'.state) && FrameDepth(g) == 0
            && Within(limit, |fs| + 1)
  {
  }

  /** The first token opens the document. */
  lemma ReadFirst(limit: nat, c: Control, t: Token) returns (d: Partial)
    requires c == START && TokenStep(limit, c, t).Some?
    ensures Describes(limit, d, TokenStep(limit, c, t).value, [t])
  {
    var g := if t.ch == LCURB then InObj([], None) else InArr([]);
    assert [g][..0] == [];
    assert OuterTokens([]) == [] && OpenEvents([]) == [] && OpenModes([]) == [];
    d := Inside([g]);
  }

  /** A key, a colon or a comma: the innermost frame moves on. */
  lemma MarkFrame(limit: nat, f: Frame, c: Control, t: Token) returns (g: Frame)
    requires c.stack != [] && Top(c) == FrameMode(f) && FrameAt(f, c.state) && TokenStep(limit, c, t).Some?
    requires (t.TStr? && KeyExpected(c.state)) || t == TPunct(COLON) || t == TPunct(COMMA)
    ensures var c' := TokenStep(limit, c, t).value;
            && FrameMode(g) == FrameMode(f) && FrameAt(g, c'.state)
            && FrameTokens(g, c'.state) == FrameTokens(f, c.state) + [t]
            && c'.stack == c.stack
            && c'.events == c.events + (if t.TStr? then [Event(JsonKey, t.value)] else [])
            && FrameDepth(g) == FrameDepth(f)
            && FrameEvents(g) == FrameEvents(f) + (if t.TStr? then [Event(JsonKey, t.value)] else [])
  {
    g := if t.TStr? then f.(key := Some(t.value)) else f;
  }

  lemma ReadMark(limit: nat, fs: seq<Frame>, c: Control, ts: seq<Token>, t: Token) returns (d: Partial)
    requires Describes(limit, Inside(fs), c, ts) && TokenStep(limit, c, t).Some?
    requires (t.TStr? && KeyExpected(c.state)) || t == TPunct(COLON) || t == TPunct(COMMA)
    ensures Describes(limit, d, TokenStep(limit, c, t).value, ts + [t])
  {
    hide FrameTokens, FrameEvents, FrameMode, FrameAt, TokenStep, OpenModes, FrameDepth;
    var n := |fs| - 1;
    InnermostMode(fs);
    var g := MarkFrame(limit, fs[n], c, t);
    var c' := TokenStep(limit, c, t).value;
    var e := if t.TStr? then [Event(JsonKey, t.value)] else [];
    ReplaceTop(fs, g);
    assert OpenEvents(fs) == OpenEvents(fs[..n]) + FrameEvents(fs[n]);
    Regroup(OuterTokens(fs[..n]), FrameTokens(fs[n], c.state), [t]);
    Regroup(OpenEvents(fs[..n]), FrameEvents(fs[n]), e);
    hide OuterTokens, OpenEvents;
    d := Inside(fs[..n] + [g]);
  }

  /** Every step of the machine keeps a description of what has been read. */
  lemma ReadToken(limit: nat, d: Partial, c: Control, ts: seq<Token>, t: Token) returns (d': Partial)
    requires Describes(limit, d, c, ts) && TokenStep(limit, c, t).Some?
    ensures Describes(limit, d', TokenStep(limit, c, t).value, ts + [t])
  {
    match d
    case Start =>
      d' := ReadFirst(limit, c, t);
      assert ts + [t] == [t];
    case Complete(_) =>
      assert false;
    case Inside(fs) =>
      if t.TNum? {
        d' := ReadValue(limit, fs, c, ts, Num(t.number));
      } else if t.TName? {
        d' := ReadValue(limit, fs, c, ts, Name(t.kind));
      } else if t.TStr? && ValueExpected(c.state) {
        d' := ReadValue(limit, fs, c, ts, Str(t.value));
      } else if t.TStr? || t.ch == COLON || t.ch == COMMA {
        d' := ReadMark(limit, fs, c, ts, t);
      } else if t.ch == LCURB || t.ch == LSQRB {
        d' := ReadOpen(limit, fs, c, ts, t.ch);
      } else {
        d' := ReadClose(limit, fs, c, ts, t.ch);
      }
  }

  lemma NothingRead(limit: nat)
    ensures Describes(limit, Start, START, [])
  {
  }

  lemma {:induction false} ReadTokens(limit: nat, ts: seq<Token>) returns (d: Partial)
    requires TokenRun(limit, START, ts).Some?
    ensures Describes(limit, d, TokenRun(limit, START, ts).value, ts)
  {
    hide TokenStep, Describes;
    if ts == [] {
      NothingRead(limit);
      d := Start;
    } else {
      var n := |ts| - 1;
      var d0 := ReadTokens(limit, ts[..n]);
      d := ReadToken(limit, d0, TokenRun(limit, START, ts[..n]).value, ts[..n], ts[n]);
      assert ts[..n] + [ts[n]] == ts;
    }
  }

  /**
    The machine ends with an empty stack, past the start, exactly on the token
    sequences of objects and arrays that nest within the limit, and has then told
    exactly their events.
   */
  lemma AcceptsOnlyDocuments(limit: nat, ts: seq<Token>)
    ensures (TokenRun(limit, START, ts).Some? && TokenRun(limit, START, ts).value.stack == [] && ts != [])
            <==> exists t: Tree :: IsContainer(t) && Within(limit, Depth(t)) && ts == Tokens(t)
    ensures forall t: Tree :: IsContainer(t) && Within(limit, Depth(t)) && ts == Tokens(t)
                              ==> TokenRun(limit, START, ts) == Some(Finished(t))
  {
    if TokenRun(limit, START, ts).Some? && TokenRun(limit, START, ts).value.stack == [] && ts != [] {
      var d := ReadTokens(limit, ts);
      assert d.Complete?;
      assert IsContainer(d.tree) && Within(limit, Depth(d.tree)) && ts == Tokens(d.tree);
    }
    forall t: Tree | IsContainer(t) && Within(limit, Depth(t)) && ts == Tokens(t)
      ensures TokenRun(limit, START, ts) == Some(Finished(t)) && ts != []
    {
      AcceptsEveryDocument(limit, t);
    }
  }
}
