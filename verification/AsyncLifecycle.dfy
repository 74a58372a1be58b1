/**
  The life of an asynchronous request. Invoke, response, cancel, wait and clean-up
  run in different threads and meet at the table of outstanding requests and at
  the request's own mutex. A step is what one thread does at once: a section under
  the table's mutex, one access that takes no mutex, or one part of a section under
  the request's mutex, which no other such section can enter meanwhile. A run is
  any sequence of steps; a step whose thread is not there yet changes nothing.

  Nothing is assumed of the ids: two requests may have the same one.
 */
module AsyncLifecycle {

  /** How far `abus_request_method_invoke_async` has come with a request. */
  datatype Phase = Created | HandlerSet | Tracked | Sent

  /** Where the thread is that runs the callback of a response. */
  datatype Responder = NoResponse | Found | Claimed | Calling | Called | Cleared | Finished

  /** Where the thread is that cancels. */
  datatype Canceller = NoCancel | Taken | CancelCleared | Cancelled

  /**
    Where the client is that cleans up: not there, in a cancel that took the request,
    past a cancel that did not, or done, with a thread still in progress or not.
   */
  datatype CleanUp = NotCleaning | OwnCancel | Missed | Freed(inProgress: bool)

  /**
    A request; `context` is whether `cb_context` is set. `overUnlocked` and
    `overLocked` say that a wait has returned 0 by its test outside the mutex or
    under it, and `touchedLate` that the library used the request after it was freed.
   */
  datatype Request = Request(
    id: nat,
    hasCallback: bool,
    phase: Phase,
    context: bool,
    responder: Responder,
    canceller: Canceller,
    callsBegun: nat,
    callsEnded: nat,
    releases: nat,
    waiting: bool,
    overUnlocked: bool,
    overLocked: bool,
    cleaning: CleanUp,
    touchedLate: bool)

  /** The requests by their address, and the addresses of the outstanding ones by id. */
  datatype State = State(requests: map<nat, Request>, table: map<nat, nat>)

  datatype Step =
    | Create(r: nat, id: nat, hasCallback: bool)
    | SetHandler(r: nat)
    | Track(r: nat)
    | Send(r: nat)
    | Respond(id: nat)
    | ReadHandler(r: nat)
    | BeginCall(r: nat)
    | EndCall(r: nat)
    | ClearContext(r: nat)
    | Release(r: nat)
    | Cancel(r: nat)
    | CancelClears(r: nat)
    | CancelReturns(r: nat)
    | StartWait(r: nat)
    | WakeWait(r: nat)
    | StartCleanUp(r: nat)
    | Free(r: nat)

  const INITIAL := State(map[], map[])

  function NewRequest(id: nat, hasCallback: bool): Request {
    Request(id, hasCallback, Created, false, NoResponse, NoCancel, 0, 0, 0, false, false, false, NotCleaning, false)
  }

  function With(s: State, r: nat, q: Request): State { s.(requests := s.requests[r := q]) }

  /** `abus_req_untrack`: the outstanding request with an id, taken out of the table under its mutex. */
  function Untrack(s: State, id: nat): State { s.(table := s.table - {id}) }

  predicate IsOutstanding(s: State, r: nat)
    requires r in s.requests
  {
    s.requests[r].id in s.table && s.table[s.requests[r].id] == r
  }

  /** A responder or a canceller is between its lock and its unlock. */
  predicate MutexHeld(q: Request) { q.responder == Cleared || q.canceller == CancelCleared }

  /** A responder or a canceller has taken the request and is not done with it. */
  predicate InProgress(q: Request) {
    q.responder in {Found, Claimed, Calling, Called, Cleared} || q.canceller in {Taken, CancelCleared}
  }

  /**
    The client starts nothing on a request that it cleans up, and cleans up none in the
    middle of a call of its own.
   */
  predicate MayCancel(q: Request) { q.cleaning == NotCleaning }
  predicate MayCleanUp(q: Request) {
    q.cleaning == NotCleaning && !q.waiting && (q.phase == Created || q.phase == Sent)
  }

  predicate MayFree(q: Request) { q.cleaning == Missed || (q.cleaning == OwnCancel && q.canceller == Cancelled) }

  /** A use of the request's memory by the library. */
  function Touched(q: Request): Request { q.(touchedLate := q.touchedLate || q.cleaning.Freed?) }

  function Next(s: State, step: Step): State {
    match step
    case Create(r, id, hasCallback) => if r in s.requests then s else With(s, r, NewRequest(id, hasCallback))
    case Respond(id) =>
      if id !in s.table || s.table[id] !in s.requests then s
      else
        var r := s.table[id];
        With(Untrack(s, id), r, s.requests[r].(responder := Found))
    case _ =>
      if step.r !in s.requests then s
      else
        var q := s.requests[step.r];
        match step
        case Track(r) => TrackNext(s, r, q)
        case Cancel(r) => if MayCancel(q) then CancelNext(s, r, q, q) else s
        case StartCleanUp(r) =>
          if MayCleanUp(q) then CancelNext(s, r, q.(cleaning := Missed), q.(cleaning := OwnCancel)) else s
        case _ => With(s, step.r, Changed(q, step))
  }

  /** `abus_req_track`: an id that is in the table already stays with the request it has. */
  function TrackNext(s: State, r: nat, q: Request): State {
    if q.phase != HandlerSet then s
    else
      var t := With(s, r, q.(phase := Tracked));
      if q.id in s.table then t else t.(table := s.table[q.id := r])
  }

  /**
    The untracking of `abus_request_method_cancel_async`: what it finds leaves the
    table, but only if that is this request does the cancel go on.
   */
  function CancelNext(s: State, r: nat, missed: Request, taken: Request): State {
    if missed.id !in s.table then With(s, r, missed)
    else if s.table[missed.id] != r then With(Untrack(s, missed.id), r, missed)
    else With(Untrack(s, missed.id), r, taken.(canceller := Taken))
  }

  /** The steps that do not look at the table. */
  function Changed(q: Request, step: Step): Request {
    match step
    // invoke: cb_context is set before the request is tracked, and tracked before it is sent
    case SetHandler(_) =>
      if q.phase == Created && q.cleaning == NotCleaning then q.(phase := HandlerSet, context := true) else q
    case Send(_) => if q.phase == Tracked then q.(phase := Sent) else q
    // response: the handler is read, the callback runs if there is one, and under the
    // mutex cb_context is cleared, and then the wait signalled and the handler freed
    case ReadHandler(_) => if q.responder == Found then Touched(q).(responder := Claimed) else q
    case BeginCall(_) =>
      if q.responder == Claimed && q.hasCallback then q.(responder := Calling, callsBegun := q.callsBegun + 1) else q
    case EndCall(_) => if q.responder == Calling then q.(responder := Called, callsEnded := q.callsEnded + 1) else q
    case ClearContext(_) =>
      if !MutexHeld(q) && (q.responder == Called || (q.responder == Claimed && !q.hasCallback))
      then Touched(q).(responder := Cleared, context := false) else q
    case Release(_) =>
      if q.responder == Cleared then Touched(q).(responder := Finished, releases := q.releases + 1) else q
    // cancel: under the mutex the handler is freed and cb_context cleared, and then the wait signalled
    case CancelClears(_) =>
      if !MutexHeld(q) && q.canceller == Taken then
        Touched(q).(canceller := CancelCleared, context := false,
                    releases := if q.context then q.releases + 1 else q.releases)
      else q
    case CancelReturns(_) => if q.canceller == CancelCleared then Touched(q).(canceller := Cancelled) else q
    // wait: a test outside the mutex, and one under it whenever the mutex can be had
    case StartWait(_) =>
      if q.phase != Sent || q.cleaning != NotCleaning || q.waiting then q
      else if q.context then q.(waiting := true) else q.(overUnlocked := true)
    case WakeWait(_) =>
      if q.waiting && !MutexHeld(q) && !q.context then q.(waiting := false, overLocked := true) else q
    // clean-up frees the request without taking the mutex
    case Free(_) => if MayFree(q) then q.(cleaning := Freed(InProgress(q))) else q
    case _ => q
  }

  function Run(s: State, steps: seq<Step>): State {
    if steps == [] then s else Next(Run(s, steps[..|steps| - 1]), steps[|steps| - 1])
  }

  lemma RunSnoc(s: State, steps: seq<Step>, step: Step)
    ensures Run(s, steps + [step]) == Next(Run(s, steps), step)
  {
    hide Next;
    assert (steps + [step])[..|steps|] == steps;
  }

  lemma {:induction false} RunAppend(s: State, a: seq<Step>, b: seq<Step>)
    ensures Run(s, a + b) == Run(Run(s, a), b)
    decreases |b|
  {
    hide Next;
    if b == [] {
      assert a + b == a;
    } else {
      var n := |b| - 1;
      assert (a + b)[..|a + b| - 1] == a + b[..n];
      RunAppend(s, a, b[..n]);
    }
  }

  // ---------------------------------------------------------------- the invariant

  /** What always holds of a request, given whether it is in the table. */
  predicate Sound(q: Request, outstanding: bool) {
    // a request is in the table only while nobody has taken it
    && (outstanding ==>
          && (q.phase == Tracked || q.phase == Sent) && q.cleaning == NotCleaning
          && q.responder == NoResponse && q.canceller == NoCancel)
    && (q.phase == Created || q.phase == HandlerSet ==> q.responder == NoResponse && q.canceller == NoCancel)
    && (q.responder == NoResponse || q.canceller == NoCancel)
    // the callback runs once at most, for the response that claimed the request
    && (q.responder == Calling || q.responder == Called ==> q.hasCallback)
    && q.callsBegun == (if q.hasCallback && q.responder in {Calling, Called, Cleared, Finished} then 1 else 0)
    && q.callsEnded == (if q.hasCallback && q.responder in {Called, Cleared, Finished} then 1 else 0)
    // the handler lives from its setting to its one release
    && q.releases == (if q.responder == Finished || q.canceller in {CancelCleared, Cancelled} then 1 else 0)
    && (q.context <==>
          q.phase != Created && q.responder !in {Cleared, Finished} && q.canceller !in {CancelCleared, Cancelled})
    // waiting and cleaning up
    && (q.overUnlocked || q.overLocked ==> q.phase == Sent && !q.context)
    && (q.overLocked ==> !MutexHeld(q))
    && (q.waiting ==> q.cleaning == NotCleaning && q.phase == Sent)
    && (q.cleaning != NotCleaning ==> q.phase == Created || q.phase == Sent)
    && (q.cleaning == OwnCancel ==> q.canceller != NoCancel)
    // after it was freed, a thread that was in progress is still, or has touched the request
    && (q.cleaning.Freed? && q.cleaning.inProgress ==> q.touchedLate || InProgress(q))
    && (q.cleaning.Freed? && !q.cleaning.inProgress ==> !InProgress(q))
    && (q.touchedLate ==> q.cleaning.Freed? && q.cleaning.inProgress)
  }

  ghost predicate Inv(s: State) {
    && (forall id :: id in s.table ==> s.table[id] in s.requests && s.requests[s.table[id]].id == id)
    && (forall r :: r in s.requests ==> Sound(s.requests[r], IsOutstanding(s, r)))
  }

  lemma Knows(s: State, r: nat)
    requires Inv(s) && r in s.requests
    ensures Sound(s.requests[r], IsOutstanding(s, r))
  {
    hide Sound;
  }

  lemma Keys(s: State, id: nat)
    requires Inv(s) && id in s.table
    ensures s.table[id] in s.requests && s.requests[s.table[id]].id == id
  {
    hide Sound;
  }

  lemma OffTheTable(q: Request)
    requires Sound(q, true)
    ensures Sound(q, false)
  {
  }

  lemma NewIsSound(id: nat, hasCallback: bool)
    ensures Sound(NewRequest(id, hasCallback), false)
  {
  }

  /** A step that does not look at the table keeps a request sound. */
  lemma ChangedIsSound(q: Request, outstanding: bool, step: Step)
    requires Sound(q, outstanding)
    ensures Sound(Changed(q, step), outstanding) && Changed(q, step).id == q.id
  {
  }

  /** Taking an id out of the table, and changing one request that is not in it then. */
  lemma InvUntracked(s: State, id: nat, r: nat, q: Request)
    requires Inv(s) && r in s.requests && q.id == s.requests[r].id == id && Sound(q, false)
    ensures Inv(With(Untrack(s, id), r, q))
  {
    hide Sound;
    var t := With(Untrack(s, id), r, q);
    forall r' | r' in t.requests ensures Sound(t.requests[r'], IsOutstanding(t, r')) {
      if r' != r {
        Knows(s, r');
        if IsOutstanding(s, r') { OffTheTable(s.requests[r']); }
      }
    }
  }

  /** Changing one request, or adding one, and nothing in the table. */
  lemma InvChanged(s: State, r: nat, q: Request)
    requires Inv(s) && Sound(q, r in s.requests && IsOutstanding(s, r))
    requires r in s.requests ==> q.id == s.requests[r].id
    ensures Inv(With(s, r, q))
  {
    hide Sound;
    var t := With(s, r, q);
    forall r' | r' in t.requests ensures Sound(t.requests[r'], IsOutstanding(t, r')) {
      if r' != r { Knows(s, r'); } else if r !in s.requests && q.id in s.table { Keys(s, q.id); }
    }
  }

  lemma InvTracked(s: State, r: nat, q: Request)
    requires Inv(s) && r in s.requests && q.id == s.requests[r].id && q.id !in s.table && Sound(q, true)
    ensures Inv(With(s, r, q).(table := s.table[q.id := r]))
  {
    hide Sound;
    var t := With(s, r, q).(table := s.table[q.id := r]);
    forall r' | r' in t.requests ensures Sound(t.requests[r'], IsOutstanding(t, r')) {
      if r' != r { Knows(s, r'); }
    }
  }

  lemma StepKeeps(s: State, step: Step)
    requires Inv(s)
    ensures Inv(Next(s, step))
  {
    hide Inv, Changed, Sound;
    if step.Create? {
      if step.r !in s.requests {
        NewIsSound(step.id, step.hasCallback);
        InvChanged(s, step.r, NewRequest(step.id, step.hasCallback));
      }
    } else if step.Respond? {
      if step.id in s.table {
        Keys(s, step.id);
        var r := s.table[step.id];
        TakenIsSound(s, r, s.requests[r].(responder := Found));
        InvUntracked(s, step.id, r, s.requests[r].(responder := Found));
      }
    } else if step.r in s.requests {
      if step.Track? {
        TrackKeeps(s, step.r);
      } else if step.Cancel? || step.StartCleanUp? {
        CancelKeeps(s, step, step.r);
      } else {
        OtherKeeps(s, step, step.r);
      }
    }
  }

  /** The steps that look at the table. */
  predicate UsesTable(step: Step) {
    step.Create? || step.Respond? || step.Track? || step.Cancel? || step.StartCleanUp?
  }

  lemma OtherKeeps(s: State, step: Step, r: nat)
    requires Inv(s) && !UsesTable(step) && r == step.r && r in s.requests
    ensures Next(s, step) == With(s, r, Changed(s.requests[r], step)) && Inv(Next(s, step))
  {
    hide Inv, Changed, Sound;
    Knows(s, r);
    ChangedIsSound(s.requests[r], IsOutstanding(s, r), step);
    InvChanged(s, r, Changed(s.requests[r], step));
  }

  lemma TakenIsSound(s: State, r: nat, q: Request)
    requires Inv(s) && r in s.requests && IsOutstanding(s, r)
    requires var p := s.requests[r];
             || q == p.(responder := Found) || q == p.(canceller := Taken)
             || (MayCleanUp(p) && q == p.(cleaning := OwnCancel, canceller := Taken))
    ensures Sound(q, false)
  {
    hide Inv;
    Knows(s, r);
  }

  lemma TrackKeeps(s: State, r: nat)
    requires Inv(s) && r in s.requests
    ensures Inv(TrackNext(s, r, s.requests[r]))
  {
    hide Inv;
    Knows(s, r);
    var q := s.requests[r];
    if q.phase == HandlerSet {
      if q.id in s.table { InvChanged(s, r, q.(phase := Tracked)); } else { InvTracked(s, r, q.(phase := Tracked)); }
    }
  }

  lemma CancelKeeps(s: State, step: Step, r: nat)
    requires Inv(s) && (step.Cancel? || step.StartCleanUp?) && r == step.r && r in s.requests
    ensures Inv(Next(s, step))
  {
    hide Inv;
    Knows(s, r);
    var q := s.requests[r];
    var missed := if step.Cancel? then q else q.(cleaning := Missed);
    var taken := if step.Cancel? then q else q.(cleaning := OwnCancel);
    if if step.Cancel? then MayCancel(q) else MayCleanUp(q) {
      assert Next(s, step) == CancelNext(s, r, missed, taken);
      if q.id !in s.table {
        InvChanged(s, r, missed);
      } else if s.table[q.id] != r {
        InvUntracked(s, q.id, r, missed);
      } else {
        TakenIsSound(s, r, taken.(canceller := Taken));
        InvUntracked(s, q.id, r, taken.(canceller := Taken));
      }
    }
  }

  /** The invariant holds after every run, whatever the ids. */
  lemma {:induction false} RunKeeps(steps: seq<Step>)
    ensures Inv(Run(INITIAL, steps))
  {
    if steps == [] {
      assert Inv(INITIAL);
    } else {
      hide Inv, Next;
      RunKeeps(steps[..|steps| - 1]);
      StepKeeps(Run(INITIAL, steps[..|steps| - 1]), steps[|steps| - 1]);
    }
  }

  // ---------------------------------------------------------------- safety, on every run

  /**
    After any run, for every request: its callback has begun at most once, and never
    when a cancel has returned 0; no response and cancel have both taken it; its
    handler was released at most once and is there for as long as the responder can
    use it; and a wait is over only when the callback has returned or the cancel has
    taken effect.
   */
  lemma RequestsAreSafe(steps: seq<Step>, r: nat)
    requires r in Run(INITIAL, steps).requests
    ensures var q := Run(INITIAL, steps).requests[r];
            && q.callsEnded <= q.callsBegun <= 1 && q.releases <= 1
            && (q.canceller != NoCancel ==> q.responder == NoResponse && q.callsBegun == 0)
            && (q.responder in {Found, Claimed, Calling, Called} ==> q.context)
            && (q.context || q.responder == Cleared ==> q.releases == 0)
            && (q.overUnlocked || q.overLocked ==>
                  || q.canceller in {CancelCleared, Cancelled}
                  || (q.responder in {Cleared, Finished} && (q.hasCallback ==> q.callsEnded == 1)))
  {
    RunKeeps(steps);
    hide Inv, Run;
    Knows(Run(INITIAL, steps), r);
  }

  /** What its client has seen, or its own cancel, makes it safe to free the request. */
  predicate IsShielded(q: Request) {
    if q.cleaning.Freed? then !q.cleaning.inProgress
    else q.overLocked || q.canceller == Cancelled || q.cleaning == OwnCancel
  }

  lemma Stays(s: State, step: Step, r: nat)
    requires Inv(s) && r in s.requests
    ensures var t := Next(s, step);
            && r in t.requests && t.requests[r].id == s.requests[r].id
            && (s.requests[r].canceller == Cancelled ==> t.requests[r].canceller == Cancelled)
            && (s.requests[r].cleaning.Freed? ==> t.requests[r].cleaning == s.requests[r].cleaning)
            && (IsShielded(s.requests[r]) ==> IsShielded(t.requests[r]))
  {
    hide Inv;
    Knows(s, r);
    if step.Respond? && step.id in s.table { Keys(s, step.id); }
  }

  /** Once a cancel has returned 0, the callback has not run and never will. */
  lemma {:induction false} CancelIsFinal(before: seq<Step>, after: seq<Step>, r: nat)
    requires r in Run(INITIAL, before).requests && Run(INITIAL, before).requests[r].canceller == Cancelled
    ensures var s := Run(INITIAL, before + after);
            r in s.requests && s.requests[r].canceller == Cancelled && s.requests[r].callsBegun == 0
    decreases |after|
  {
    hide Next, Inv;
    if after == [] {
      assert before + after == before;
    } else {
      var n := |after| - 1;
      CancelIsFinal(before, after[..n], r);
      RunKeeps(before + after[..n]);
      Stays(Run(INITIAL, before + after[..n]), after[n], r);
      RunSnoc(INITIAL, before + after[..n], after[n]);
      assert before + after == before + after[..n] + [after[n]];
    }
    RequestsAreSafe(before + after, r);
  }

  // ---------------------------------------------------------------- where a request is

  /**
    A step after which a response to `r` is missed although nobody has taken it: it is
    tracked when its id is taken, or another request with its id is cancelled, or
    cleaned up, while it is outstanding.
   */
  predicate Loses(s: State, step: Step, r: nat) {
    && r in s.requests
    && (step.Track? ==> step.r == r && s.requests[r].phase == HandlerSet && s.requests[r].id in s.table)
    && (step.Cancel? || step.StartCleanUp? ==>
          && step.r != r && step.r in s.requests && s.requests[step.r].id == s.requests[r].id
          && (if step.Cancel? then MayCancel(s.requests[step.r]) else MayCleanUp(s.requests[step.r]))
          && IsOutstanding(s, r))
    && (step.Track? || step.Cancel? || step.StartCleanUp?)
  }

  /** Some step of the run lost `r`. */
  predicate IsLost(steps: seq<Step>, r: nat) {
    steps != []
    && (IsLost(steps[..|steps| - 1], r) || Loses(Run(INITIAL, steps[..|steps| - 1]), steps[|steps| - 1], r))
  }

  function Count(b: bool): nat { if b then 1 else 0 }

  /** A tracked request is in exactly one of four places; before it is tracked it cannot be lost. */
  predicate InOnePlace(s: State, r: nat, lost: bool)
    requires r in s.requests
  {
    var q := s.requests[r];
    if q.phase == Tracked || q.phase == Sent then
      Count(IsOutstanding(s, r)) + Count(q.responder != NoResponse) + Count(q.canceller != NoCancel) + Count(lost) == 1
    else !lost
  }

  lemma StepPlaces(s: State, step: Step, r: nat, lost: bool)
    requires Inv(s) && r in s.requests && InOnePlace(s, r, lost)
    ensures r in Next(s, step).requests && InOnePlace(Next(s, step), r, lost || Loses(s, step, r))
  {
    hide Inv, Sound;
    if step.Track? || step.Cancel? || step.StartCleanUp? {
      TableStepPlaces(s, step, r, lost);
    } else if step.Respond? {
      if step.id in s.table { Keys(s, step.id); }
    } else if !step.Create? {
      hide Changed, Next;
      if step.r in s.requests { ChangedNext(s, step, step.r); } else { NoSuchRequest(s, step); }
      if step.r == r { ChangedStaysPut(s.requests[r], step); }
    }
  }

  lemma ChangedNext(s: State, step: Step, r: nat)
    requires !UsesTable(step) && step.r == r && r in s.requests
    ensures Next(s, step) == With(s, r, Changed(s.requests[r], step))
  {
    hide Changed;
  }

  lemma NoSuchRequest(s: State, step: Step)
    requires !UsesTable(step) && step.r !in s.requests
    ensures Next(s, step) == s
  {
  }

  /** A step that does not look at the table moves no request. */
  lemma ChangedStaysPut(q: Request, step: Step)
    ensures var p := Changed(q, step);
            && p.id == q.id
            && (q.phase == Tracked || q.phase == Sent <==> p.phase == Tracked || p.phase == Sent)
            && (q.responder == NoResponse <==> p.responder == NoResponse)
            && (q.canceller == NoCancel <==> p.canceller == NoCancel)
  {
    match step
    case SetHandler(_) =>
    case Send(_) =>
    case ReadHandler(_) =>
    case BeginCall(_) =>
    case EndCall(_) =>
    case ClearContext(_) =>
    case Release(_) =>
    case CancelClears(_) =>
    case CancelReturns(_) =>
    case _ =>
  }

  lemma TableStepPlaces(s: State, step: Step, r: nat, lost: bool)
    requires Inv(s) && r in s.requests && InOnePlace(s, r, lost)
    requires step.Track? || step.Cancel? || step.StartCleanUp?
    ensures r in Next(s, step).requests && InOnePlace(Next(s, step), r, lost || Loses(s, step, r))
  {
    hide Inv, Changed;
    Knows(s, r);
    if step.r in s.requests {
      Knows(s, step.r);
      if s.requests[step.r].id in s.table { Keys(s, s.requests[step.r].id); }
    }
  }

  /**
    After any run, every request that was tracked is in exactly one place: it is
    outstanding, or a response has taken it, or a cancel has, or it was lost; and it
    was lost exactly when it was tracked under an id in use, or another request with
    its id was cancelled or cleaned up while it was outstanding.
   */
  lemma {:induction false} TrackedIsInOnePlace(steps: seq<Step>, r: nat)
    requires r in Run(INITIAL, steps).requests
    ensures InOnePlace(Run(INITIAL, steps), r, IsLost(steps, r))
  {
    var n := |steps| - 1;
    var s, step := Run(INITIAL, steps[..n]), steps[n];
    RunKeeps(steps[..n]);
    hide Inv, InOnePlace, Next, Loses;
    if r in s.requests {
      TrackedIsInOnePlace(steps[..n], r);
      StepPlaces(s, step, r, IsLost(steps[..n], r));
    } else {
      NotYetLost(steps[..n], r);
      JustCreated(s, step, r);
    }
  }

  lemma JustCreated(s: State, step: Step, r: nat)
    requires Inv(s) && r !in s.requests && r in Next(s, step).requests
    ensures InOnePlace(Next(s, step), r, Loses(s, step, r))
  {
  }

  lemma {:induction false} NotYetLost(steps: seq<Step>, r: nat)
    requires r !in Run(INITIAL, steps).requests
    ensures !IsLost(steps, r)
  {
    if steps != [] {
      var n := |steps| - 1;
      RunKeeps(steps[..n]);
      hide Inv;
      if r in Run(INITIAL, steps[..n]).requests { Stays(Run(INITIAL, steps[..n]), steps[n], r); }
      NotYetLost(steps[..n], r);
    }
  }

  /** No two requests are created with one id. */
  predicate DistinctIds(steps: seq<Step>) {
    forall i, j :: 0 <= i < j < |steps| && steps[i].Create? && steps[j].Create? ==> steps[i].id != steps[j].id
  }

  lemma {:induction false} CreatedBy(steps: seq<Step>, r: nat) returns (i: nat)
    requires r in Run(INITIAL, steps).requests
    ensures i < |steps| && steps[i].Create? && steps[i].r == r && steps[i].id == Run(INITIAL, steps).requests[r].id
  {
    var n := |steps| - 1;
    var s := Run(INITIAL, steps[..n]);
    if r in s.requests {
      RunKeeps(steps[..n]);
      hide Inv, Next;
      Stays(s, steps[n], r);
      i := CreatedBy(steps[..n], r);
    } else {
      i := n;
    }
  }

  /** A request whose id is its own is never lost. */
  lemma {:induction false} OwnIdIsNotLost(steps: seq<Step>, r: nat)
    requires DistinctIds(steps)
    ensures !IsLost(steps, r)
  {
    if steps != [] {
      var n := |steps| - 1;
      OwnIdIsNotLost(steps[..n], r);
      var s := Run(INITIAL, steps[..n]);
      RunKeeps(steps[..n]);
      hide Inv, Next, Sound;
      if r in s.requests {
        Knows(s, r);
        var id := s.requests[r].id;
        if id in s.table { Keys(s, id); OneRequestPerId(steps[..n], s.table[id], r); }
        if steps[n].Cancel? || steps[n].StartCleanUp? {
          if steps[n].r in s.requests { OneRequestPerId(steps[..n], steps[n].r, r); }
        }
        if steps[n].Track? && s.requests[r].phase == HandlerSet { NotOutstanding(s, r); }
      }
    }
  }

  lemma NotOutstanding(s: State, r: nat)
    requires Inv(s) && r in s.requests && s.requests[r].phase == HandlerSet
    ensures !IsOutstanding(s, r)
  {
    hide Inv;
    Knows(s, r);
  }

  lemma OneRequestPerId(steps: seq<Step>, r: nat, r': nat)
    requires DistinctIds(steps) && r in Run(INITIAL, steps).requests && r' in Run(INITIAL, steps).requests
    ensures Run(INITIAL, steps).requests[r].id == Run(INITIAL, steps).requests[r'].id ==> r == r'
  {
    hide Run;
    var i := CreatedBy(steps, r);
    var j := CreatedBy(steps, r');
  }

  /**
    Both ways to lose a request, in one run. Two requests have one id: the second is
    lost when it is tracked, and cancelling it fails but loses the first one.
   */
  lemma SharedIdLosesBoth()
    ensures var steps := [Create(0, 7, true), Create(1, 7, true), SetHandler(0), Track(0)]
                         + [Send(0), SetHandler(1), Track(1), Cancel(1)];
            var s := Run(INITIAL, steps);
            && 0 in s.requests && 1 in s.requests
            && s.requests[0].responder == s.requests[1].responder == NoResponse
            && s.requests[0].canceller == s.requests[1].canceller == NoCancel
            && IsLost(steps, 0) && IsLost(steps, 1)
  {
    var a := [Create(0, 7, true), Create(1, 7, true), SetHandler(0), Track(0)];
    var b := [Send(0), SetHandler(1), Track(1), Cancel(1)];
    hide Run, Next;
    RunAppend(INITIAL, a, b);
    OneTracked();
    BothLost(Run(INITIAL, a));
    TrackedIsInOnePlace(a + b, 0);
    TrackedIsInOnePlace(a + b, 1);
  }

  const FIRST := NewRequest(7, true).(phase := Tracked, context := true)
  const SECOND := NewRequest(7, true)

  lemma OneTracked()
    ensures Run(INITIAL, [Create(0, 7, true), Create(1, 7, true), SetHandler(0), Track(0)])
            == State(map[0 := FIRST, 1 := SECOND], map[7 := 0])
  {
    hide Run;
    RunFour(INITIAL, Create(0, 7, true), Create(1, 7, true), SetHandler(0), Track(0));
    var s1 := Next(INITIAL, Create(0, 7, true));
    assert s1 == State(map[0 := SECOND], map[]);
    var s2 := Next(s1, Create(1, 7, true));
    assert s2 == State(map[0 := SECOND, 1 := SECOND], map[]);
    var s3 := Next(s2, SetHandler(0));
    assert s3 == State(map[0 := SECOND.(phase := HandlerSet, context := true), 1 := SECOND], map[]);
  }

  lemma BothLost(s: State)
    requires s == State(map[0 := FIRST, 1 := SECOND], map[7 := 0])
    ensures Run(s, [Send(0), SetHandler(1), Track(1), Cancel(1)])
            == State(map[0 := FIRST.(phase := Sent), 1 := FIRST], map[])
  {
    hide Run;
    RunFour(s, Send(0), SetHandler(1), Track(1), Cancel(1));
    var s1 := Next(s, Send(0));
    assert s1 == State(map[0 := FIRST.(phase := Sent), 1 := SECOND], map[7 := 0]);
    var s2 := Next(s1, SetHandler(1));
    assert s2 == State(map[0 := FIRST.(phase := Sent), 1 := FIRST.(phase := HandlerSet)], map[7 := 0]);
    var s3 := Next(s2, Track(1));
    assert s3 == State(map[0 := FIRST.(phase := Sent), 1 := FIRST], map[7 := 0]);
  }

  /**
    What is left to do when a response has found the request: the steps of the
    responder, and then a wait.
   */
  function Answer(r: nat, hasCallback: bool): seq<Step> {
    [ReadHandler(r)] + (if hasCallback then [BeginCall(r), EndCall(r)] else [])
    + [ClearContext(r), Release(r), StartWait(r), WakeWait(r)]
  }

  /** The steps `a` occur in `b` in their order, with any others before, between and after. */
  predicate OccursIn(a: seq<Step>, b: seq<Step>) {
    a == [] || (b != [] && (OccursIn(a, b[..|b| - 1])
                            || (a[|a| - 1] == b[|b| - 1] && OccursIn(a[..|a| - 1], b[..|b| - 1]))))
  }

  /** How many of the steps of `Answer` a request has behind it; a clean-up makes a wait superfluous. */
  function Answered(q: Request): nat {
    var called := if q.hasCallback then 3 else 1;
    match q.responder
    case NoResponse | Found => 0
    case Claimed => 1
    case Calling => 2
    case Called => 3
    case Cleared => called + 1
    case Finished =>
      called + 2 + (if q.overUnlocked || q.overLocked || q.cleaning != NotCleaning then 2
                    else if q.waiting then 1 else 0)
  }

  /** A response has found the request, so no cancel takes it any more. */
  predicate IsFound(q: Request) {
    && q.responder != NoResponse && q.canceller == NoCancel && q.phase == Sent
    && (q.responder == Calling || q.responder == Called ==> q.hasCallback)
    && (q.context <==> q.responder != Cleared && q.responder != Finished)
  }

  lemma AnswerStays(q: Request, step: Step)
    requires IsFound(q)
    ensures var p := Changed(q, step);
            IsFound(p) && p.hasCallback == q.hasCallback && Answered(q) <= Answered(p)
  {
    match step
    case SetHandler(_) =>
    case Send(_) =>
    case ReadHandler(_) =>
    case BeginCall(_) =>
    case EndCall(_) =>
    case ClearContext(_) =>
    case Release(_) =>
    case CancelClears(_) =>
    case CancelReturns(_) =>
    case StartWait(_) =>
    case WakeWait(_) =>
    case Free(_) =>
    case _ =>
  }

  /** Whatever stands at a place of `Answer` takes effect once what is before it has. */
  lemma AnswerMoves(q: Request, r: nat, k: nat)
    requires IsFound(q) && k == Answered(q) && k < |Answer(r, q.hasCallback)|
    ensures var step := Answer(r, q.hasCallback)[k]; Answered(Changed(q, step)) > k
  {
    match q.responder
    case Found => assert Answer(r, q.hasCallback)[0] == ReadHandler(r);
    case Claimed => assert Answer(r, q.hasCallback)[1] == if q.hasCallback then BeginCall(r) else ClearContext(r);
    case Calling => assert Answer(r, q.hasCallback)[2] == EndCall(r);
    case Called => assert Answer(r, q.hasCallback)[3] == ClearContext(r);
    case Cleared => assert Answer(r, q.hasCallback)[if q.hasCallback then 4 else 2] == Release(r);
    case Finished =>
      assert Answer(r, q.hasCallback)[if q.hasCallback then 5 else 3] == StartWait(r);
      assert Answer(r, q.hasCallback)[if q.hasCallback then 6 else 4] == WakeWait(r);
  }

  lemma FoundStays(s: State, step: Step, r: nat)
    requires Inv(s) && r in s.requests && IsFound(s.requests[r])
    ensures var t := Next(s, step); var q := s.requests[r];
            && r in t.requests && IsFound(t.requests[r])
            && t.requests[r].hasCallback == q.hasCallback && Answered(q) <= Answered(t.requests[r])
  {
    hide Inv, Changed;
    Knows(s, r);
    if step.Respond? {
      if step.id in s.table { Keys(s, step.id); }
    } else if !UsesTable(step) {
      hide Next;
      if step.r in s.requests { ChangedNext(s, step, step.r); } else { NoSuchRequest(s, step); }
      if step.r == r { AnswerStays(s.requests[r], step); }
    }
  }

  lemma {:induction false} AnswerRuns(before: seq<Step>, after: seq<Step>, r: nat, k: nat)
    requires r in Run(INITIAL, before).requests && IsFound(Run(INITIAL, before).requests[r])
    requires var all := Answer(r, Run(INITIAL, before).requests[r].hasCallback);
             k <= |all| && OccursIn(all[..k], after)
    ensures var s := Run(INITIAL, before + after);
            && r in s.requests && IsFound(s.requests[r]) && k <= Answered(s.requests[r])
            && s.requests[r].hasCallback == Run(INITIAL, before).requests[r].hasCallback
    decreases |after|
  {
    hide Next, Inv, IsFound, Answered, Answer;
    var all := Answer(r, Run(INITIAL, before).requests[r].hasCallback);
    if after == [] {
      assert before + after == before;
    } else {
      var n := |after| - 1;
      var s := Run(INITIAL, before + after[..n]);
      RunKeeps(before + after[..n]);
      RunSnoc(INITIAL, before + after[..n], after[n]);
      assert before + after == before + after[..n] + [after[n]];
      if OccursIn(all[..k], after[..n]) {
        AnswerRuns(before, after[..n], r, k);
        FoundStays(s, after[n], r);
      } else {
        assert all[..k][..k - 1] == all[..k - 1];
        AnswerRuns(before, after[..n], r, k - 1);
        FoundStays(s, after[n], r);
        if Answered(s.requests[r]) == k - 1 { AnswerStep(s, r, k - 1); }
      }
    }
  }

  lemma AnswerStep(s: State, r: nat, k: nat)
    requires r in s.requests && IsFound(s.requests[r]) && k == Answered(s.requests[r])
    requires k < |Answer(r, s.requests[r].hasCallback)|
    ensures var t := Next(s, Answer(r, s.requests[r].hasCallback)[k]); r in t.requests && Answered(t.requests[r]) > k
  {
    hide Changed, IsFound, Answered, Next;
    AnswerMoves(s.requests[r], r, k);
    ChangedNext(s, Answer(r, s.requests[r].hasCallback)[k], r);
  }

  /** The responder is done: the callback has returned, and the handler is released. */
  predicate IsAnswered(s: State, r: nat) {
    && r in s.requests
    && var q := s.requests[r];
       && q.responder == Finished && !q.context && q.releases == 1
       && q.callsBegun == q.callsEnded == (if q.hasCallback then 1 else 0)
  }

  /** A wait has returned 0, or the client cleans up. */
  predicate IsWaitOver(s: State, r: nat) {
    && IsAnswered(s, r)
    && var q := s.requests[r]; q.overUnlocked || q.overLocked || q.cleaning != NotCleaning
  }

  lemma AnsweredIs(steps: seq<Step>, r: nat)
    requires var s := Run(INITIAL, steps); r in s.requests && IsFound(s.requests[r])
    ensures var s := Run(INITIAL, steps); var n := |Answer(r, s.requests[r].hasCallback)|;
            && (n - 2 <= Answered(s.requests[r]) ==> IsAnswered(s, r))
            && (n <= Answered(s.requests[r]) ==> IsWaitOver(s, r))
  {
    RunKeeps(steps);
    hide Run, Inv;
    Knows(Run(INITIAL, steps), r);
  }

  /**
    When a response is missed. A response to a request that is sent, and neither
    answered nor cancelled, finds it if and only if it was not lost. And then, whatever
    other steps come before, between and after: once the responder's steps have been
    taken the callback has run once and returned and the handler is released, and once
    a wait's steps have been taken too that wait is over, unless the client cleans up.
   */
  lemma ResponseIsTaken(steps: seq<Step>, r: nat)
    requires r in Run(INITIAL, steps).requests
    requires var q := Run(INITIAL, steps).requests[r];
             q.phase == Sent && q.responder == NoResponse && q.canceller == NoCancel
    ensures var s := Run(INITIAL, steps); var q := s.requests[r]; var t := Next(s, Respond(q.id));
            r in t.requests && (t.requests[r].responder == Found <==> !IsLost(steps, r))
    ensures var q := Run(INITIAL, steps).requests[r]; var all := Answer(r, q.hasCallback); var n := |all| - 2;
            !IsLost(steps, r) ==>
              && (forall after: seq<Step> :: OccursIn(all[..n], after) ==>
                    IsAnswered(Run(INITIAL, steps + [Respond(q.id)] + after), r))
              && (forall after: seq<Step> :: OccursIn(all, after) ==>
                    IsWaitOver(Run(INITIAL, steps + [Respond(q.id)] + after), r))
  {
    hide Run;
    TrackedIsInOnePlace(steps, r);
    RunKeeps(steps);
    var s := Run(INITIAL, steps);
    var q := s.requests[r];
    hide Inv, IsLost;
    Knows(s, r);
    if q.id in s.table { Keys(s, q.id); }
    if !IsLost(steps, r) {
      var begun := steps + [Respond(q.id)];
      RunSnoc(INITIAL, steps, Respond(q.id));
      assert Run(INITIAL, begun).requests[r] == q.(responder := Found);
      hide Next, OccursIn, IsAnswered, IsWaitOver;
      var all := Answer(r, q.hasCallback);
      forall after: seq<Step> | OccursIn(all[..|all| - 2], after) ensures IsAnswered(Run(INITIAL, begun + after), r) {
        AnswerRuns(begun, after, r, |all| - 2);
        AnsweredIs(begun + after, r);
      }
      forall after: seq<Step> | OccursIn(all, after) ensures IsWaitOver(Run(INITIAL, begun + after), r) {
        assert all[..|all|] == all;
        AnswerRuns(begun, after, r, |all|);
        AnsweredIs(begun + after, r);
      }
    }
  }

  lemma RunFour(s: State, a: Step, b: Step, c: Step, d: Step)
    ensures Run(s, [a, b, c, d]) == Next(Next(Next(Next(s, a), b), c), d)
  {
    hide Next;
    assert Run(s, []) == s;
    RunSnoc(s, [], a);
    RunSnoc(s, [a], b);
    RunSnoc(s, [a, b], c);
    RunSnoc(s, [a, b, c], d);
    assert [] + [a] == [a] && [a] + [b] == [a, b] && [a, b] + [c] == [a, b, c] && [a, b, c] + [d] == [a, b, c, d];
  }

  // ---------------------------------------------------------------- cancelling

  /** What is left to do when a cancel has taken the request: its own steps, and then a wait. */
  function CancelSteps(r: nat): seq<Step> { [CancelClears(r), CancelReturns(r), StartWait(r), WakeWait(r)] }

  /** How many of those steps a request has behind it. */
  function CancelDone(q: Request): nat {
    match q.canceller
    case NoCancel | Taken => 0
    case CancelCleared => 1
    case Cancelled =>
      if q.overUnlocked || q.overLocked || q.cleaning != NotCleaning then 4 else if q.waiting then 3 else 2
  }

  /** A cancel has taken the request, so no response finds it any more. */
  predicate IsTaken(q: Request) {
    && q.canceller != NoCancel && q.responder == NoResponse
    && (q.phase == Tracked || q.phase == Sent) && (q.waiting ==> q.phase == Sent)
    && (q.context <==> q.canceller == Taken)
  }

  lemma CancelStays(q: Request, step: Step)
    requires IsTaken(q)
    ensures var p := Changed(q, step);
            IsTaken(p) && CancelDone(q) <= CancelDone(p) && (q.phase == Sent ==> p.phase == Sent)
  {
    match step
    case SetHandler(_) =>
    case Send(_) =>
    case ReadHandler(_) =>
    case BeginCall(_) =>
    case EndCall(_) =>
    case ClearContext(_) =>
    case Release(_) =>
    case CancelClears(_) =>
    case CancelReturns(_) =>
    case StartWait(_) =>
    case WakeWait(_) =>
    case Free(_) =>
    case _ =>
  }

  lemma CancelMoves(q: Request, r: nat, k: nat)
    requires IsTaken(q) && k == CancelDone(q) && k < 4 && (k >= 2 ==> q.phase == Sent)
    ensures CancelDone(Changed(q, CancelSteps(r)[k])) > k
  {
    match q.canceller
    case Taken =>
    case CancelCleared =>
    case Cancelled =>
  }

  lemma TakenStays(s: State, step: Step, r: nat)
    requires Inv(s) && r in s.requests && IsTaken(s.requests[r])
    ensures var t := Next(s, step); var q := s.requests[r];
            && r in t.requests && IsTaken(t.requests[r])
            && CancelDone(q) <= CancelDone(t.requests[r]) && (q.phase == Sent ==> t.requests[r].phase == Sent)
  {
    hide Inv, Changed;
    Knows(s, r);
    if step.Respond? {
      if step.id in s.table { Keys(s, step.id); }
    } else if !UsesTable(step) {
      hide Next;
      if step.r in s.requests { ChangedNext(s, step, step.r); } else { NoSuchRequest(s, step); }
      if step.r == r { CancelStays(s.requests[r], step); }
    }
  }

  lemma CancelStep(s: State, r: nat, k: nat)
    requires r in s.requests && IsTaken(s.requests[r]) && k == CancelDone(s.requests[r]) && k < 4
    requires k >= 2 ==> s.requests[r].phase == Sent
    ensures var t := Next(s, CancelSteps(r)[k]); r in t.requests && CancelDone(t.requests[r]) > k
  {
    hide Changed, IsTaken, CancelDone, Next;
    CancelMoves(s.requests[r], r, k);
    ChangedNext(s, CancelSteps(r)[k], r);
  }

  lemma {:induction false} CancelRuns(before: seq<Step>, after: seq<Step>, r: nat, k: nat)
    requires r in Run(INITIAL, before).requests && IsTaken(Run(INITIAL, before).requests[r])
    requires k <= 4 && OccursIn(CancelSteps(r)[..k], after)
    requires k > 2 ==> Run(INITIAL, before).requests[r].phase == Sent
    ensures var s := Run(INITIAL, before + after);
            && r in s.requests && IsTaken(s.requests[r]) && k <= CancelDone(s.requests[r])
            && (Run(INITIAL, before).requests[r].phase == Sent ==> s.requests[r].phase == Sent)
    decreases |after|
  {
    hide Next, Inv, IsTaken, CancelDone;
    if after == [] {
      assert before + after == before;
    } else {
      var n := |after| - 1;
      var s := Run(INITIAL, before + after[..n]);
      RunKeeps(before + after[..n]);
      RunSnoc(INITIAL, before + after[..n], after[n]);
      assert before + after == before + after[..n] + [after[n]];
      if OccursIn(CancelSteps(r)[..k], after[..n]) {
        CancelRuns(before, after[..n], r, k);
        TakenStays(s, after[n], r);
      } else {
        assert CancelSteps(r)[..k][..k - 1] == CancelSteps(r)[..k - 1];
        CancelRuns(before, after[..n], r, k - 1);
        TakenStays(s, after[n], r);
        if CancelDone(s.requests[r]) == k - 1 { CancelStep(s, r, k - 1); }
      }
    }
  }

  /** The cancel has returned 0: nothing was called or ever will be, and the handler is released. */
  predicate HasCancelled(s: State, r: nat) {
    && r in s.requests
    && var q := s.requests[r];
       && q.canceller == Cancelled && !q.context && q.releases == 1
       && q.responder == NoResponse && q.callsBegun == 0
  }

  predicate HasCancelledAndWaited(s: State, r: nat) {
    && HasCancelled(s, r)
    && var q := s.requests[r]; q.overUnlocked || q.overLocked || q.cleaning != NotCleaning
  }

  lemma CancelledIs(steps: seq<Step>, r: nat)
    requires var s := Run(INITIAL, steps); r in s.requests && IsTaken(s.requests[r])
    ensures var s := Run(INITIAL, steps);
            && (2 <= CancelDone(s.requests[r]) ==> HasCancelled(s, r))
            && (4 <= CancelDone(s.requests[r]) ==> HasCancelledAndWaited(s, r))
  {
    RunKeeps(steps);
    hide Run, Inv;
    Knows(Run(INITIAL, steps), r);
  }

  /**
    A cancel of an outstanding request takes it: its id leaves the table at once. And
    then, whatever other steps come before, between and after, once the cancel's steps
    have been taken it has returned 0, with the context cleared, the handler released
    and no callback run; and once a wait's steps have been taken too that wait is over,
    unless the client cleans up.
   */
  lemma CancelTakes(steps: seq<Step>, r: nat)
    requires r in Run(INITIAL, steps).requests
    requires IsOutstanding(Run(INITIAL, steps), r) && MayCancel(Run(INITIAL, steps).requests[r])
    ensures var s := Run(INITIAL, steps); var t := Next(s, Cancel(r));
            && t.table == s.table - {s.requests[r].id}
            && t.requests == s.requests[r := s.requests[r].(canceller := Taken)]
    ensures forall after: seq<Step> :: OccursIn(CancelSteps(r)[..2], after) ==>
              HasCancelled(Run(INITIAL, steps + [Cancel(r)] + after), r)
    ensures Run(INITIAL, steps).requests[r].phase == Sent ==>
              forall after: seq<Step> :: OccursIn(CancelSteps(r), after) ==>
                HasCancelledAndWaited(Run(INITIAL, steps + [Cancel(r)] + after), r)
  {
    hide Run;
    RunKeeps(steps);
    var s := Run(INITIAL, steps);
    hide Inv;
    Knows(s, r);
    var begun := steps + [Cancel(r)];
    RunSnoc(INITIAL, steps, Cancel(r));
    assert Run(INITIAL, begun).requests[r] == s.requests[r].(canceller := Taken);
    hide Next, OccursIn, HasCancelled, HasCancelledAndWaited;
    forall after: seq<Step> | OccursIn(CancelSteps(r)[..2], after)
      ensures HasCancelled(Run(INITIAL, begun + after), r)
    {
      CancelRuns(begun, after, r, 2);
      CancelledIs(begun + after, r);
    }
    if s.requests[r].phase == Sent {
      forall after: seq<Step> | OccursIn(CancelSteps(r), after)
        ensures HasCancelledAndWaited(Run(INITIAL, begun + after), r)
      {
        assert CancelSteps(r)[..4] == CancelSteps(r);
        CancelRuns(begun, after, r, 4);
        CancelledIs(begun + after, r);
      }
    }
  }

  /**
    A cancel of a request that is not outstanding takes no request, this one or
    another: it only takes what has its id out of the table.
   */
  lemma CancelFails(s: State, r: nat)
    requires r in s.requests && MayCancel(s.requests[r]) && !IsOutstanding(s, r)
    ensures Next(s, Cancel(r)) == s.(table := s.table - {s.requests[r].id})
  {
    assert s.requests[r := s.requests[r]] == s.requests;
    if s.requests[r].id !in s.table { assert s.table - {s.requests[r].id} == s.table; }
  }

  /**
    A wait on a sent request begins to wait exactly while the context is set, and is
    over at once otherwise; and a wait that has begun ends only by finding, with nobody
    holding the mutex, that the context was cleared.
   */
  lemma WaitBegins(s: State, r: nat)
    requires r in s.requests && s.requests[r].phase == Sent && s.requests[r].cleaning == NotCleaning
    requires !s.requests[r].waiting
    ensures var q := s.requests[r]; var t := Next(s, StartWait(r));
            r in t.requests && t.requests[r] == if q.context then q.(waiting := true) else q.(overUnlocked := true)
  {
  }

  lemma WaitEnds(s: State, step: Step, r: nat)
    requires r in s.requests && s.requests[r].waiting && Inv(s)
    ensures var q := s.requests[r]; var t := Next(s, step);
            r in t.requests
            && (!t.requests[r].waiting <==> step == WakeWait(r) && !MutexHeld(q) && !q.context)
            && (!t.requests[r].waiting ==> t.requests[r].overLocked)
  {
    hide Inv;
    if step.Respond? && step.id in s.table { Keys(s, step.id); }
  }

  // ---------------------------------------------------------------- invoking

  function InvokeSteps(r: nat): seq<Step> { [SetHandler(r), Track(r), Send(r)] }

  function Invoked(q: Request): nat {
    match q.phase
    case Created => 0
    case HandlerSet => 1
    case Tracked => 2
    case Sent => 3
  }

  lemma InvokeStays(s: State, step: Step, r: nat)
    requires Inv(s) && r in s.requests
    ensures var t := Next(s, step); var q := s.requests[r];
            && r in t.requests && Invoked(q) <= Invoked(t.requests[r])
            && (q.cleaning != NotCleaning ==> t.requests[r].cleaning != NotCleaning)
            && (forall k: nat :: k < 3 && step == InvokeSteps(r)[k] && Invoked(q) == k ==>
                  Invoked(t.requests[r]) > k || t.requests[r].cleaning != NotCleaning)
  {
    hide Inv, Sound;
    if step.Respond? {
      if step.id in s.table { Keys(s, step.id); }
    } else if !UsesTable(step) {
      hide Next;
      if step.r in s.requests { ChangedNext(s, step, step.r); } else { NoSuchRequest(s, step); }
      if step.r == r { InvokeGoesOn(s.requests[r], step); }
    }
  }

  lemma InvokeGoesOn(q: Request, step: Step)
    ensures var p := Changed(q, step);
            && Invoked(q) <= Invoked(p) && (q.cleaning != NotCleaning ==> p.cleaning != NotCleaning)
            && (step.SetHandler? && q.phase == Created ==> p.phase == HandlerSet || q.cleaning != NotCleaning)
            && (step.Send? && q.phase == Tracked ==> p.phase == Sent)
  {
    match step
    case SetHandler(_) =>
    case Send(_) =>
    case ReadHandler(_) =>
    case BeginCall(_) =>
    case EndCall(_) =>
    case ClearContext(_) =>
    case Release(_) =>
    case CancelClears(_) =>
    case CancelReturns(_) =>
    case StartWait(_) =>
    case WakeWait(_) =>
    case Free(_) =>
    case _ =>
  }

  /**
    An invocation whose steps are all taken, whatever comes between them, has sent the
    request, unless the client began to clean up; so it is outstanding, answered,
    cancelled or lost (`TrackedIsInOnePlace`).
   */
  lemma {:induction false} InvokeSends(before: seq<Step>, after: seq<Step>, r: nat, k: nat)
    requires r in Run(INITIAL, before).requests && k <= 3 && OccursIn(InvokeSteps(r)[..k], after)
    ensures var s := Run(INITIAL, before + after);
            r in s.requests && (k <= Invoked(s.requests[r]) || s.requests[r].cleaning != NotCleaning)
    decreases |after|
  {
    hide Next, Inv, Invoked;
    if after == [] {
      assert before + after == before;
      assert Invoked(Run(INITIAL, before).requests[r]) >= 0;
    } else {
      var n := |after| - 1;
      var s := Run(INITIAL, before + after[..n]);
      RunKeeps(before + after[..n]);
      RunSnoc(INITIAL, before + after[..n], after[n]);
      assert before + after == before + after[..n] + [after[n]];
      if OccursIn(InvokeSteps(r)[..k], after[..n]) {
        InvokeSends(before, after[..n], r, k);
        InvokeStays(s, after[n], r);
      } else {
        assert InvokeSteps(r)[..k][..k - 1] == InvokeSteps(r)[..k - 1];
        InvokeSends(before, after[..n], r, k - 1);
        InvokeStays(s, after[n], r);
      }
    }
  }

  // ---------------------------------------------------------------- cleaning up

  lemma {:induction false} StaysOn(before: seq<Step>, after: seq<Step>, r: nat)
    requires r in Run(INITIAL, before).requests
    ensures var q := Run(INITIAL, before).requests[r]; var s := Run(INITIAL, before + after);
            && r in s.requests && Sound(s.requests[r], IsOutstanding(s, r))
            && (q.cleaning.Freed? ==> s.requests[r].cleaning == q.cleaning)
            && (IsShielded(q) ==> IsShielded(s.requests[r]))
    decreases |after|
  {
    hide Next, Inv, Sound, IsShielded;
    if after == [] {
      assert before + after == before;
    } else {
      var n := |after| - 1;
      StaysOn(before, after[..n], r);
      RunKeeps(before + after[..n]);
      Stays(Run(INITIAL, before + after[..n]), after[n], r);
      RunSnoc(INITIAL, before + after[..n], after[n]);
      assert before + after == before + after[..n] + [after[n]];
    }
    RunKeeps(before + after);
    Knows(Run(INITIAL, before + after), r);
  }

  /** After this run the library has used the request although it was freed. */
  predicate IsTouchedLate(steps: seq<Step>, r: nat) {
    var s := Run(INITIAL, steps); r in s.requests && s.requests[r].touchedLate
  }

  /**
    Freeing a request is exactly as safe as it can be: some later run has the library
    use it if and only if, when it was freed, a responder or a canceller was in
    progress with it; and then every run does in which that one comes to its end.
   */
  lemma FreeIsSafeIff(before: seq<Step>, r: nat)
    requires r in Run(INITIAL, before).requests && MayFree(Run(INITIAL, before).requests[r])
    ensures var q := Run(INITIAL, before).requests[r];
            InProgress(q) <==> exists after: seq<Step> :: IsTouchedLate(before + [Free(r)] + after, r)
    ensures var q := Run(INITIAL, before).requests[r];
            forall after: seq<Step> ::
              var s := Run(INITIAL, before + [Free(r)] + after);
              r in s.requests
              && (!InProgress(s.requests[r]) ==> (IsTouchedLate(before + [Free(r)] + after, r) <==> InProgress(q)))
  {
    hide Next, Sound;
    var s := Run(INITIAL, before);
    var q := s.requests[r];
    JustFreed(before, r);
    forall after: seq<Step>
      ensures var t := Run(INITIAL, before + [Free(r)] + after);
              && r in t.requests && (t.requests[r].touchedLate ==> InProgress(q))
              && (!InProgress(t.requests[r]) ==> (t.requests[r].touchedLate <==> InProgress(q)))
    {
      StaysOn(before + [Free(r)], after, r);
      FreedIsSound(before + [Free(r)] + after, r, InProgress(q));
    }
    if InProgress(q) {
      var after := Remaining(before + [Free(r)], r);
      assert IsTouchedLate(before + [Free(r)] + after, r);
    }
  }

  lemma JustFreed(before: seq<Step>, r: nat)
    requires r in Run(INITIAL, before).requests && MayFree(Run(INITIAL, before).requests[r])
    ensures var q := Run(INITIAL, before).requests[r]; var t := Run(INITIAL, before + [Free(r)]);
            r in t.requests && t.requests[r] == q.(cleaning := Freed(InProgress(q)))
  {
    hide Next, Changed;
    RunSnoc(INITIAL, before, Free(r));
    ChangedNext(Run(INITIAL, before), Free(r), r);
    FreeIs(Run(INITIAL, before).requests[r], r);
  }

  lemma FreeIs(q: Request, r: nat)
    requires MayFree(q)
    ensures Changed(q, Free(r)) == q.(cleaning := Freed(InProgress(q)))
  {
  }

  lemma FreedIsSound(steps: seq<Step>, r: nat, inProgress: bool)
    requires var s := Run(INITIAL, steps);
             r in s.requests && Sound(s.requests[r], IsOutstanding(s, r)) && s.requests[r].cleaning == Freed(inProgress)
    ensures var q := Run(INITIAL, steps).requests[r];
            && (q.touchedLate ==> inProgress)
            && (!InProgress(q) ==> (q.touchedLate <==> inProgress))
  {
    hide Run;
  }

  /** What is left to do for a responder or a canceller, up to its next use of the request. */
  lemma Remaining(steps: seq<Step>, r: nat) returns (after: seq<Step>)
    requires r in Run(INITIAL, steps).requests
    requires Run(INITIAL, steps).requests[r].cleaning.Freed? && InProgress(Run(INITIAL, steps).requests[r])
    ensures IsTouchedLate(steps + after, r)
  {
    var s := Run(INITIAL, steps);
    var q := s.requests[r];
    StaysOn(steps, [], r);
    assert steps + [] == steps;
    hide Run, Next, Changed;
    after := NextUse(q, r);
    ChangedRun(s, after, r);
    RunAppend(INITIAL, steps, after);
  }

  function ChangedAll(q: Request, steps: seq<Step>): Request {
    if steps == [] then q else Changed(ChangedAll(q, steps[..|steps| - 1]), steps[|steps| - 1])
  }

  lemma {:induction false} ChangedRun(s: State, steps: seq<Step>, r: nat)
    requires r in s.requests && forall i :: 0 <= i < |steps| ==> !UsesTable(steps[i]) && steps[i].r == r
    ensures var t := Run(s, steps); r in t.requests && t.requests[r] == ChangedAll(s.requests[r], steps)
  {
    hide Next, Changed;
    if steps != [] {
      var n := |steps| - 1;
      ChangedRun(s, steps[..n], r);
      ChangedNext(Run(s, steps[..n]), steps[n], r);
    }
  }

  lemma NextUse(q: Request, r: nat) returns (after: seq<Step>)
    requires Sound(q, false) || Sound(q, true)
    requires InProgress(q) && q.cleaning.Freed?
    ensures forall i :: 0 <= i < |after| ==> !UsesTable(after[i]) && after[i].r == r
    ensures ChangedAll(q, after).touchedLate
  {
    after :=
      if q.responder == Found then [ReadHandler(r)]
      else if q.responder == Claimed && q.hasCallback then [BeginCall(r), EndCall(r), ClearContext(r)]
      else if q.responder == Calling then [EndCall(r), ClearContext(r)]
      else if q.responder == Claimed || q.responder == Called then [ClearContext(r)]
      else if q.responder == Cleared then [Release(r)]
      else if q.canceller == Taken then [CancelClears(r)]
      else [CancelReturns(r)];
    AllOfThree(q, after);
  }

  lemma AllOfThree(q: Request, steps: seq<Step>)
    requires 1 <= |steps| <= 3
    ensures |steps| == 1 ==> ChangedAll(q, steps) == Changed(q, steps[0])
    ensures |steps| == 2 ==> ChangedAll(q, steps) == Changed(Changed(q, steps[0]), steps[1])
    ensures |steps| == 3 ==> ChangedAll(q, steps) == Changed(Changed(Changed(q, steps[0]), steps[1]), steps[2])
  {
    hide Changed;
    assert forall p: Request :: ChangedAll(p, []) == p;
  }

  /**
    What a client may conclude from what it has seen. After a wait that returned 0, or
    a cancel that did, a thread is in progress exactly while the mutex is held with
    `cb_context` already cleared; and after a wait that took the mutex, or its own
    cancel, none is.
   */
  lemma SeenComplete(steps: seq<Step>, r: nat)
    requires r in Run(INITIAL, steps).requests
    ensures var q := Run(INITIAL, steps).requests[r];
            && (q.overUnlocked || q.overLocked || q.canceller == Cancelled ==> (InProgress(q) <==> MutexHeld(q)))
            && (q.overLocked || q.canceller == Cancelled ==> !InProgress(q))
  {
    RunKeeps(steps);
    hide Inv, Run;
    Knows(Run(INITIAL, steps), r);
  }

  /**
    So a client that frees a request after a wait has returned 0 is safe, in every
    later run, if and only if it did not fall between the clearing of `cb_context` and
    the unlocking of the mutex.
   */
  lemma CompletedIsSafeIff(before: seq<Step>, r: nat)
    requires r in Run(INITIAL, before).requests && MayFree(Run(INITIAL, before).requests[r])
    requires var q := Run(INITIAL, before).requests[r]; q.overUnlocked || q.overLocked
    ensures MutexHeld(Run(INITIAL, before).requests[r])
            <==> exists after: seq<Step> :: IsTouchedLate(before + [Free(r)] + after, r)
  {
    SeenComplete(before, r);
    FreeIsSafeIff(before, r);
    hide Run, InProgress, MutexHeld;
  }

  /** Such a client, and one whose clean-up still finds the request outstanding, cleans up safely. */
  lemma ShieldedIsSafe(before: seq<Step>, after: seq<Step>, r: nat)
    requires r in Run(INITIAL, before).requests && IsShielded(Run(INITIAL, before).requests[r])
    ensures !IsTouchedLate(before + after, r)
  {
    StaysOn(before, after, r);
    hide Run;
  }

  /**
    A wait that returns 0 by its test outside the mutex is not enough: the responder
    has cleared `cb_context` but is not done, and touches the request after the
    clean-up.
   */
  lemma UnlockedWaitIsNotEnough()
    ensures var steps := [Create(0, 7, false), SetHandler(0), Track(0), Send(0)]
                         + [Respond(7), ReadHandler(0), ClearContext(0), StartWait(0)]
                         + [StartCleanUp(0), Free(0), Release(0)];
            var s := Run(INITIAL, steps);
            0 in s.requests && s.requests[0].overUnlocked && !s.requests[0].overLocked && IsTouchedLate(steps, 0)
  {
    var a := [Create(0, 7, false), SetHandler(0), Track(0), Send(0)];
    var b := [Respond(7), ReadHandler(0), ClearContext(0), StartWait(0)];
    var c := [StartCleanUp(0), Free(0), Release(0)];
    hide Run, Next;
    RunAppend(INITIAL, a, b);
    RunAppend(INITIAL, a + b, c);
    SentRun();
    WaitedRun(Run(INITIAL, a));
    FreedRun(Run(INITIAL, a + b));
  }

  const SENT := NewRequest(7, false).(phase := Sent, context := true)
  const WAITED := SENT.(responder := Cleared, context := false, overUnlocked := true)

  lemma SentRun()
    ensures Run(INITIAL, [Create(0, 7, false), SetHandler(0), Track(0), Send(0)]) == State(map[0 := SENT], map[7 := 0])
  {
    hide Run;
    RunFour(INITIAL, Create(0, 7, false), SetHandler(0), Track(0), Send(0));
    var q := NewRequest(7, false);
    var s1 := Next(INITIAL, Create(0, 7, false));
    assert s1 == State(map[0 := q], map[]);
    var s2 := Next(s1, SetHandler(0));
    assert s2 == State(map[0 := q.(phase := HandlerSet, context := true)], map[]);
    var s3 := Next(s2, Track(0));
    assert s3 == State(map[0 := q.(phase := Tracked, context := true)], map[7 := 0]);
  }

  lemma WaitedRun(s: State)
    requires s == State(map[0 := SENT], map[7 := 0])
    ensures Run(s, [Respond(7), ReadHandler(0), ClearContext(0), StartWait(0)]) == State(map[0 := WAITED], map[])
  {
    hide Run;
    RunFour(s, Respond(7), ReadHandler(0), ClearContext(0), StartWait(0));
    var s1 := Next(s, Respond(7));
    assert s1 == State(map[0 := SENT.(responder := Found)], map[]);
    var s2 := Next(s1, ReadHandler(0));
    assert s2 == State(map[0 := SENT.(responder := Claimed)], map[]);
    var s3 := Next(s2, ClearContext(0));
    assert s3 == State(map[0 := SENT.(responder := Cleared, context := false)], map[]);
  }

  lemma FreedRun(s: State)
    requires s == State(map[0 := WAITED], map[])
    ensures var t := Run(s, [StartCleanUp(0), Free(0), Release(0)]);
            0 in t.requests && t.requests[0].touchedLate && t.requests[0].overUnlocked && !t.requests[0].overLocked
  {
    var s1 := Next(s, StartCleanUp(0));
    assert s1 == State(map[0 := WAITED.(cleaning := Missed)], map[]);
    var s2 := Next(s1, Free(0));
    assert s2 == State(map[0 := WAITED.(cleaning := Freed(true))], map[]);
    var s3 := Next(s2, Release(0));
    hide Next;
    assert Run(s, []) == s;
    hide Run;
    RunSnoc(s, [], StartCleanUp(0));
    RunSnoc(s, [StartCleanUp(0)], Free(0));
    RunSnoc(s, [StartCleanUp(0), Free(0)], Release(0));
    assert [] + [StartCleanUp(0)] == [StartCleanUp(0)] && [StartCleanUp(0)] + [Free(0)] == [StartCleanUp(0), Free(0)];
    assert [StartCleanUp(0), Free(0)] + [Release(0)] == [StartCleanUp(0), Free(0), Release(0)];
  }

  /**
    Cleaning up before anything was seen. The cancel that it begins with takes the
    request exactly when it is still outstanding, and then the clean-up is safe
    whatever else runs. Otherwise nothing stops it, and freeing the request at once is
    safe if and only if no responder or canceller is in progress with it.
   */
  lemma CleanUpEarly(steps: seq<Step>, r: nat)
    requires r in Run(INITIAL, steps).requests && MayCleanUp(Run(INITIAL, steps).requests[r])
    ensures var s := Run(INITIAL, steps); var begun := steps + [StartCleanUp(r)];
            if IsOutstanding(s, r) then forall after: seq<Step> :: !IsTouchedLate(begun + after, r)
            else InProgress(s.requests[r]) <==> exists after: seq<Step> :: IsTouchedLate(begun + [Free(r)] + after, r)
  {
    var s := Run(INITIAL, steps);
    var begun := steps + [StartCleanUp(r)];
    RunSnoc(INITIAL, steps, StartCleanUp(r));
    StartIs(s, r);
    hide Next, Run;
    if IsOutstanding(s, r) {
      forall after: seq<Step> ensures !IsTouchedLate(begun + after, r) { ShieldedIsSafe(begun, after, r); }
    } else {
      FreeIsSafeIff(begun, r);
    }
  }

  lemma StartIs(s: State, r: nat)
    requires r in s.requests && MayCleanUp(s.requests[r])
    ensures var t := Next(s, StartCleanUp(r)); var q := s.requests[r];
            r in t.requests
            && t.requests[r] == if IsOutstanding(s, r) then q.(cleaning := OwnCancel, canceller := Taken)
                                else q.(cleaning := Missed)
  {
  }
}
