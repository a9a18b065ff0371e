/**
 The session lifecycle: the state machine behind every session, and the race between a
 handshake and `close()`.

 The race is a step machine. One task runs a handshake, any number of tasks run `close()`,
 and every lock-protected section or flag access is one atomic step. A run is any list of
 actions; an action that is not enabled where it appears leaves the world as it is, so
 every interleaving is a run.
 */
module Lifecycle {
  import opened Words

  datatype State = Idle | Handshaking | Active | Paused | Closing | Closed | Error | Reconnecting

  datatype Event =
    | StartConnect | StartAccept | HandshakeOk | HandshakeTimeout | Pause | Resume
    | Close | PeerClosed | PeerTimeout | FatalError | Reconnect | ReconnectOk

  function Next(s: State, e: Event): Option<State> {
    match (s, e)
    case (Idle, StartConnect) => Some(Handshaking)
    case (Idle, StartAccept) => Some(Handshaking)
    case (Handshaking, HandshakeOk) => Some(Active)
    case (Handshaking, HandshakeTimeout) => Some(Closed)
    case (Handshaking, Close) => Some(Closed)
    case (Handshaking, FatalError) => Some(Error)
    case (Active, Pause) => Some(Paused)
    case (Active, Close) => Some(Closing)
    case (Active, PeerClosed) => Some(Closing)
    case (Active, PeerTimeout) => Some(Closing)
    case (Active, FatalError) => Some(Error)
    case (Paused, Resume) => Some(Active)
    case (Paused, Close) => Some(Closing)
    case (Paused, PeerClosed) => Some(Closing)
    case (Paused, PeerTimeout) => Some(Closing)
    case (Paused, FatalError) => Some(Error)
    case (Closing, PeerClosed) => Some(Closed)
    case (Closing, Close) => Some(Closed)
    case (Error, Reconnect) => Some(Reconnecting)
    case (Closed, Reconnect) => Some(Reconnecting)
    case (Reconnecting, StartConnect) => Some(Handshaking)
    case (Reconnecting, StartAccept) => Some(Handshaking)
    case (Reconnecting, ReconnectOk) => Some(Handshaking)
    case (Reconnecting, HandshakeTimeout) => Some(Error)
    case (Reconnecting, FatalError) => Some(Error)
    case (_, _) => None
  }

  /** The state after an event whose refusal is ignored. */
  function After(s: State, e: Event): State {
    match Next(s, e)
    case Some(t) => t
    case None => s
  }

  function AfterAll(s: State, es: seq<Event>): State {
    if es == [] then s else After(AfterAll(s, es[..|es| - 1]), es[|es| - 1])
  }

  datatype TransitionError = TransitionError(from: State, event: Event)

  class SessionStateMachine {
    var state: State

    constructor ()
      ensures state == Idle
    {
      state := Idle;
    }

    method Transition(event: Event) returns (r: Result<State, TransitionError>)
      modifies this
      ensures state == After(old(state), event)
      ensures r == match Next(old(state), event)
                   case Some(t) => Result.Ok(t)
                   case None => Result.Err(TransitionError(old(state), event))
    {
      var next := Next(state, event);
      match next {
        case None =>
          return Result.Err(TransitionError(state, event));
        case Some(t) =>
          state := t;
          return Result.Ok(t);
      }
    }

    /** The end of `close()`, under one lock: whatever has started ends Closed in one go, and
        the other states stay as they are. */
    method CloseTwice()
      modifies this
      ensures state == CloseOutcome(old(state))
    {
      var _ := Transition(Close);
      var _ := Transition(Close);
    }

    /** What a failed attempt of `handshake_open` does, under one lock: back to Handshaking, also
        from a session that close() has closed meanwhile; an established session is left alone. */
    method Restart()
      modifies this
      ensures state == RestartOutcome(old(state))
    {
      var _ := Transition(HandshakeTimeout);
      var _ := Transition(Reconnect);
      var _ := Transition(StartAccept);
    }
  }

  // ---- Runs of the state machine -----------------------------------------------

  predicate Operational(s: State) {
    s == Active || s == Paused
  }

  predicate WasBegun(es: seq<Event>) {
    exists i :: 0 <= i < |es| && (es[i] == StartConnect || es[i] == StartAccept)
  }

  lemma BegunEarlier(es: seq<Event>, e: Event)
    ensures WasBegun(es + [e]) <==> WasBegun(es) || e == StartConnect || e == StartAccept
  {
    if WasBegun(es) {
      var i :| 0 <= i < |es| && (es[i] == StartConnect || es[i] == StartAccept);
      assert (es + [e])[i] == es[i];
    }
    assert (es + [e])[|es|] == e;
    if WasBegun(es + [e]) {
      var i :| 0 <= i < |es + [e]| && ((es + [e])[i] == StartConnect || (es + [e])[i] == StartAccept);
      assert i < |es| ==> es[i] == (es + [e])[i];
    }
  }

  /** What each event does, whatever the state: the table read by columns. */
  lemma NextByEvent(s: State, e: Event)
    ensures Next(s, e) ==
            match e
            case StartConnect | StartAccept => if s == Idle || s == Reconnecting then Some(Handshaking) else None
            case HandshakeOk => if s == Handshaking then Some(Active) else None
            case HandshakeTimeout =>
              if s == Handshaking then Some(Closed) else if s == Reconnecting then Some(Error) else None
            case Pause => if s == Active then Some(Paused) else None
            case Resume => if s == Paused then Some(Active) else None
            case Close =>
              if Operational(s) then Some(Closing) else if s == Handshaking || s == Closing then Some(Closed) else None
            case PeerClosed => if Operational(s) then Some(Closing) else if s == Closing then Some(Closed) else None
            case PeerTimeout => if Operational(s) then Some(Closing) else None
            case FatalError =>
              if Operational(s) || s == Handshaking || s == Reconnecting then Some(Error) else None
            case Reconnect => if s == Error || s == Closed then Some(Reconnecting) else None
            case ReconnectOk => if s == Reconnecting then Some(Handshaking) else None
  {
  }

  /** The events that end an established session. */
  predicate Ends(e: Event) {
    e == Close || e == PeerClosed || e == PeerTimeout || e == FatalError
  }

  /** A handshake succeeded at event `k` and nothing has ended the session since. */
  predicate Established(es: seq<Event>, k: nat) {
    && k < |es|
    && es[k] == HandshakeOk
    && AfterAll(Idle, es[..k]) == Handshaking
    && (forall j :: k < j < |es| ==> !Ends(es[j]))
  }

  /** After event `k` a Pause was not followed by a Resume. */
  predicate PausedSince(es: seq<Event>, k: nat) {
    exists j :: k < j < |es| && es[j] == Pause && forall i :: j < i < |es| ==> es[i] != Resume
  }

  lemma AfterOneMore(s: State, es: seq<Event>, e: Event)
    ensures AfterAll(s, es + [e]) == After(AfterAll(s, es), e)
  {
    assert (es + [e])[..|es + [e]| - 1] == es;
  }

  lemma EstablishedBefore(es: seq<Event>, e: Event, k: nat)
    ensures k < |es| ==> (Established(es + [e], k) <==> Established(es, k) && !Ends(e))
    ensures k == |es| ==> (Established(es + [e], k) <==> e == HandshakeOk && AfterAll(Idle, es) == Handshaking)
  {
    var all := es + [e];
    if k <= |es| {
      assert all[..k] == if k < |es| then es[..k] else es;
    }
    if k < |es| {
      if Established(all, k) {
        assert !Ends(all[|es|]);
        forall j | k < j < |es| ensures !Ends(es[j]) {
          assert all[j] == es[j];
        }
      }
    }
  }

  lemma PausedOneMore(es: seq<Event>, e: Event, k: nat)
    requires k < |es|
    ensures PausedSince(es + [e], k) <==> e == Pause || (e != Resume && PausedSince(es, k))
  {
    var all := es + [e];
    if e == Pause {
      assert all[|es|] == Pause;
    } else if e != Resume && PausedSince(es, k) {
      var j :| k < j < |es| && es[j] == Pause && forall i :: j < i < |es| ==> es[i] != Resume;
      assert all[j] == Pause && forall i :: j < i < |all| ==> all[i] != Resume;
    }
    if PausedSince(all, k) && e != Pause {
      var j :| k < j < |all| && all[j] == Pause && forall i :: j < i < |all| ==> all[i] != Resume;
      assert j < |es| && all[|es|] == e;
      assert es[j] == Pause && forall i :: j < i < |es| ==> es[i] == all[i];
    }
  }

  /** An established session is Paused exactly when its last Pause was not resumed, else Active. */
  lemma {:induction false} EstablishedState(es: seq<Event>, k: nat)
    requires Established(es, k)
    ensures AfterAll(Idle, es) == if PausedSince(es, k) then Paused else Active
  {
    var before, e := es[..|es| - 1], es[|es| - 1];
    assert es == before + [e];
    AfterOneMore(Idle, before, e);
    EstablishedBefore(before, e, k);
    if k < |before| {
      EstablishedState(before, k);
      PausedOneMore(before, e, k);
    }
  }

  lemma BecomesOperational(s: State, e: Event)
    ensures Operational(After(s, e)) ==> (Operational(s) && !Ends(e)) || (s == Handshaking && e == HandshakeOk)
    ensures After(s, e) != Idle ==> s != Idle || e == StartConnect || e == StartAccept
  {
  }

  lemma {:induction false} OperationalIsEstablished(es: seq<Event>) returns (k: nat)
    requires Operational(AfterAll(Idle, es))
    ensures Established(es, k)
  {
    var before, e := es[..|es| - 1], es[|es| - 1];
    assert es == before + [e];
    AfterOneMore(Idle, before, e);
    BecomesOperational(AfterAll(Idle, before), e);
    if Operational(AfterAll(Idle, before)) && !Ends(e) {
      k := OperationalIsEstablished(before);
    } else {
      k := |before|;
    }
    EstablishedBefore(before, e, k);
  }

  /** Over every list of events: audio can flow if and only if a handshake succeeded and nothing has
      ended the session since. */
  lemma OperationalIff(es: seq<Event>)
    ensures Operational(AfterAll(Idle, es)) <==> exists k: nat :: Established(es, k)
  {
    if Operational(AfterAll(Idle, es)) {
      var k := OperationalIsEstablished(es);
    }
    if k: nat :| Established(es, k) {
      EstablishedState(es, k);
    }
  }

  /** A session leaves Idle only through a start. */
  lemma {:induction false} LeavesIdleByStart(es: seq<Event>)
    ensures AfterAll(Idle, es) != Idle <==> WasBegun(es)
  {
    if es != [] {
      var before, e := es[..|es| - 1], es[|es| - 1];
      assert es == before + [e];
      LeavesIdleByStart(before);
      BegunEarlier(before, e);
      AfterOneMore(Idle, before, e);
      NextByEvent(AfterAll(Idle, before), e);
    }
  }

  // ---- A handshake racing with close() -----------------------------------------

  /** Where `close()` leaves the session. */
  function CloseOutcome(s: State): State {
    match s
    case Handshaking | Active | Paused | Closing => Closed
    case Idle | Closed | Error | Reconnecting => s
  }

  /** Where a failed attempt leaves the session. */
  function RestartOutcome(s: State): State {
    match s
    case Active | Paused | Closing => s
    case Idle | Handshaking | Closed | Error | Reconnecting => Handshaking
  }

  /** `handshake_open`, which retries and looks at the cancel flag before each attempt, or
      `handshake` in the client role, which makes one attempt and never looks at it. */
  datatype Opener = Retrying | Once

  datatype Outcome = Succeeded | Cancelled | Failed

  /** Where the handshake task stands. */
  datatype Stage =
    | NotStarted
    | LoopHead
    | SawCancel
    | Attempting
    | Attempted(outcome: Outcome)
    | Returned(ok: bool)

  datatype World = World(
    state: State,
    cancel: bool,       // the `closed` flag
    stage: Stage,
    keys: bool,         // whether the session keys are set
    flagged: nat,       // close() calls that have set the flag
    erased: nat,        // close() calls that have erased the keys and not yet taken the lock
    closedBefore: nat,  // close() calls that returned before the handshake started
    closedAfter: nat)   // close() calls that returned after it started

  datatype Action =
    | Opening(outcome: Outcome)  // the handshake task's next step, with what the network answers
    | CloseBegins
    | CloseErases
    | CloseEnds

  const INITIAL := World(Idle, false, NotStarted, false, 0, 0, 0, 0)

  /** The next step of the handshake task. A successful attempt stores its keys as its last act;
      `handshake_server_any` reports cancellation only after reading the flag as set; an answer
      it cannot give changes nothing. */
  function OpenerStep(o: Opener, w: World, outcome: Outcome): World {
    match w.stage
    case NotStarted =>
      var event := if o == Retrying then StartAccept else StartConnect;
      (match Next(w.state, event)
       case None => w.(stage := Returned(false))
       case Some(s) => w.(state := s, stage := if o == Retrying then LoopHead else Attempting))
    case LoopHead =>
      w.(stage := if w.cancel then SawCancel else Attempting)
    case SawCancel =>
      w.(state := After(w.state, Close), stage := Returned(false))
    case Attempting =>
      if outcome == Cancelled && (o == Once || !w.cancel) then w
      else w.(stage := Attempted(outcome), keys := w.keys || outcome == Succeeded)
    case Attempted(Succeeded) =>
      w.(state := After(w.state, HandshakeOk), stage := Returned(Next(w.state, HandshakeOk).Some?))
    case Attempted(Cancelled) =>
      w.(state := After(w.state, Close), stage := Returned(false))
    case Attempted(Failed) =>
      if o == Retrying then w.(state := RestartOutcome(w.state), stage := LoopHead)
      else w.(state := After(w.state, HandshakeTimeout), stage := Returned(false))
    case Returned(_) => w
  }

  function Step(o: Opener, w: World, a: Action): World {
    match a
    case Opening(outcome) => OpenerStep(o, w, outcome)
    case CloseBegins => w.(cancel := true, flagged := w.flagged + 1)
    case CloseErases =>
      if w.flagged == 0 then w
      else
        w.(flagged := w.flagged - 1, erased := w.erased + 1, keys := false)
    case CloseEnds =>
      if w.erased == 0 then w
      else
        var w' := w.(state := CloseOutcome(w.state), erased := w.erased - 1);
        if w.stage == NotStarted then w'.(closedBefore := w.closedBefore + 1)
        else w'.(closedAfter := w.closedAfter + 1)
  }

  function Run(o: Opener, actions: seq<Action>): World {
    if actions == [] then INITIAL else Step(o, Run(o, actions[..|actions| - 1]), actions[|actions| - 1])
  }

  /** close() calls so far, returned or not. */
  function Closers(w: World): nat {
    w.flagged + w.erased + w.closedBefore + w.closedAfter
  }

  /** Between start and return the session is Handshaking, or Closed by a close() that ran
      in between. Only at the loop head and just after it can a finished close() have been
      undone, and there the flag still says so. */
  predicate Inv(o: Opener, w: World) {
    && (w.cancel <==> Closers(w) > 0)
    && (o == Once ==> w.stage != LoopHead && w.stage != SawCancel && w.stage != Attempted(Cancelled))
    && StageOk(o, w)
  }

  predicate StageOk(o: Opener, w: World) {
    match w.stage
    case NotStarted => w.state == Idle && w.closedAfter == 0
    case LoopHead => (w.state == Handshaking || (w.state == Closed && w.closedAfter > 0))
    case SawCancel =>
      w.cancel && (w.state == Handshaking || (w.state == Closed && w.closedAfter > 0))
    case Attempting =>
      && w.state == (if w.closedAfter > 0 then Closed else Handshaking)
      && (o == Retrying ==> w.closedBefore == 0)
    case Attempted(outcome) =>
      && w.state == (if w.closedAfter > 0 then Closed else Handshaking)
      && (o == Retrying ==> w.closedBefore == 0)
      && (outcome == Cancelled ==> w.cancel)
    case Returned(ok) =>
      && w.state == (if ok && w.closedAfter == 0 then Active else Closed)
      && (o == Retrying && ok ==> w.closedBefore == 0)
      && (!ok && o == Retrying ==> w.cancel)
  }

  lemma AttemptedKeeps(o: Opener, w: World, outcome: Outcome)
    requires Inv(o, w) && w.stage.Attempted?
    ensures Inv(o, OpenerStep(o, w, outcome))
  {
  }

  lemma OpenerKeeps(o: Opener, w: World, outcome: Outcome)
    requires Inv(o, w)
    ensures Inv(o, OpenerStep(o, w, outcome))
  {
    if w.stage.Attempted? {
      AttemptedKeeps(o, w, outcome);
    }
  }

  lemma CloserKeeps(o: Opener, w: World, a: Action)
    requires Inv(o, w) && !a.Opening?
    ensures Inv(o, Step(o, w, a))
  {
  }

  lemma StepKeeps(o: Opener, w: World, a: Action)
    requires Inv(o, w)
    ensures Inv(o, Step(o, w, a))
  {
    if a.Opening? {
      OpenerKeeps(o, w, a.outcome);
    } else {
      CloserKeeps(o, w, a);
    }
  }

  lemma {:induction false} RunKeeps(o: Opener, actions: seq<Action>)
    ensures Inv(o, Run(o, actions))
  {
    if actions != [] {
      RunKeeps(o, actions[..|actions| - 1]);
      StepKeeps(o, Run(o, actions[..|actions| - 1]), actions[|actions| - 1]);
    }
  }

  /** Every close() has returned, and there was at least one. */
  predicate CloseReturned(w: World) {
    w.flagged == 0 && w.erased == 0 && w.closedBefore + w.closedAfter > 0
  }

  /** However `handshake_open` and any number of `close()` calls interleave, and however many
      attempts fail, the session is Closed once all of them have returned. */
  lemma OpenAndCloseEndClosed(actions: seq<Action>)
    ensures var w := Run(Retrying, actions);
            w.stage.Returned? && CloseReturned(w) ==> w.state == Closed
  {
    RunKeeps(Retrying, actions);
  }

  /** At each loop head, and through each attempt, the session is Handshaking, or it is Closed
      and the cancel flag is already set. A cancelled or failed return never happens unasked. */
  lemma OpenLoopInvariant(actions: seq<Action>)
    ensures var w := Run(Retrying, actions);
            && (w.stage.LoopHead? || w.stage.Attempting? || w.stage.Attempted? ==>
                  w.state == Handshaking || (w.state == Closed && w.cancel))
            && (w.stage == Returned(false) ==> w.cancel && w.state == Closed)
            && (w.stage == Returned(true) && !w.cancel ==> w.state == Active)
  {
    RunKeeps(Retrying, actions);
  }

  /** A single client handshake does not look at the flag: after it and every close() have
      returned, the session is Closed exactly when the handshake failed or some close()
      returned after the handshake had started. */
  lemma OnceEndsClosedIff(actions: seq<Action>)
    ensures var w := Run(Once, actions);
            w.stage.Returned? && CloseReturned(w) ==>
              (w.state == Closed <==> w.stage == Returned(false) || w.closedAfter > 0)
  {
    RunKeeps(Once, actions);
  }

  // ---- Concrete runs -----------------------------------------------------------

  lemma Then(o: Opener, actions: seq<Action>, a: Action, w: World) returns (more: seq<Action>)
    requires w == Step(o, Run(o, actions), a)
    ensures more == actions + [a] && Run(o, more) == w
  {
    more := actions + [a];
    assert more[..|more| - 1] == actions;
  }

  /** A whole close() from a session that has not started. */
  lemma CloseWhileIdle(o: Opener) returns (actions: seq<Action>)
    ensures Run(o, actions) == World(Idle, true, NotStarted, false, 0, 0, 1, 0)
  {
    actions := [];
    assert Run(o, actions) == INITIAL;
    actions := Then(o, actions, CloseBegins, World(Idle, true, NotStarted, false, 1, 0, 0, 0));
    actions := Then(o, actions, CloseErases, World(Idle, true, NotStarted, false, 0, 1, 0, 0));
    actions := Then(o, actions, CloseEnds, World(Idle, true, NotStarted, false, 0, 0, 1, 0));
  }

  /** A run that shows the condition is needed: close() returns, then a client handshake
      starts and succeeds, and the session stays Active. */
  lemma OnceAfterCloseStaysActive() returns (actions: seq<Action>)
    ensures var w := Run(Once, actions);
            w.stage == Returned(true) && CloseReturned(w) && w.closedAfter == 0 && w.state == Active
  {
    actions := CloseWhileIdle(Once);
    actions := Then(Once, actions, Opening(Failed), World(Handshaking, true, Attempting, false, 0, 0, 1, 0));
    actions := Then(Once, actions, Opening(Succeeded), World(Handshaking, true, Attempted(Succeeded), true, 0, 0, 1, 0));
    actions := Then(Once, actions, Opening(Failed), World(Active, true, Returned(true), true, 0, 0, 1, 0));
  }

  // ---- Erasing the keys --------------------------------------------------------

  /** No attempt is under way, and none can start without looking at the flag first. */
  predicate NoAttempt(o: Opener, stage: Stage) {
    stage != Attempting && (o == Once ==> stage != NotStarted)
  }

  /** From here on keys can be set only as long as some close() has yet to erase them. */
  predicate KeysDoomed(o: Opener, w: World) {
    w.cancel && NoAttempt(o, w.stage) && (w.keys ==> w.flagged > 0)
  }

  lemma DoomedStays(o: Opener, w: World, a: Action)
    requires KeysDoomed(o, w)
    ensures KeysDoomed(o, Step(o, w, a))
  {
  }

  lemma {:induction false} DoomedRun(o: Opener, before: seq<Action>, after: seq<Action>)
    requires NoAttempt(o, Run(o, before).stage)
    ensures KeysDoomed(o, Run(o, before + [CloseBegins] + after))
  {
    if after == [] {
      assert before + [CloseBegins] + after == before + [CloseBegins];
      var _ := Then(o, before, CloseBegins, Step(o, Run(o, before), CloseBegins));
    } else {
      var n := |after| - 1;
      var all := before + [CloseBegins] + after;
      DoomedRun(o, before, after[..n]);
      assert all[..|all| - 1] == before + [CloseBegins] + after[..n];
      DoomedStays(o, Run(o, before + [CloseBegins] + after[..n]), after[n]);
    }
  }

  /** Every call has returned. */
  predicate AllReturned(w: World) {
    w.stage.Returned? && CloseReturned(w)
  }

  /** However the run goes on after a close() begins here, the keys are gone once all have returned. */
  ghost predicate CloseErasesKeys(o: Opener, before: seq<Action>) {
    forall after :: AllReturned(Run(o, before + [CloseBegins] + after)) ==>
                      !Run(o, before + [CloseBegins] + after).keys
  }

  /** A close() guarantees erased keys, whatever the interleaving, if and only if no attempt is
      under way as it begins; a plain client handshake must not be about to start either. */
  lemma CloseErasesKeysIff(o: Opener, before: seq<Action>)
    ensures CloseErasesKeys(o, before) <==> NoAttempt(o, Run(o, before).stage)
  {
    if NoAttempt(o, Run(o, before).stage) {
      forall after | AllReturned(Run(o, before + [CloseBegins] + after))
        ensures !Run(o, before + [CloseBegins] + after).keys
      {
        DoomedRun(o, before, after);
      }
    } else {
      var all := KeysOutlive(o, before);
      var start := before + [CloseBegins];
      assert all == start + all[|start|..];
    }
  }

  /** A close() that begins after the handshake has returned always erases the keys. */
  lemma CloseAfterReturnErases(o: Opener, before: seq<Action>)
    requires Run(o, before).stage.Returned?
    ensures CloseErasesKeys(o, before)
  {
    CloseErasesKeysIff(o, before);
  }

  /** All close() calls that have set the flag go on to erase the keys. */
  lemma {:induction false} EraseAll(o: Opener, actions: seq<Action>) returns (more: seq<Action>)
    ensures actions <= more
    ensures var w := Run(o, actions);
            Run(o, more) == w.(flagged := 0, erased := w.erased + w.flagged, keys := w.keys && w.flagged == 0)
    decreases Run(o, actions).flagged
  {
    var w := Run(o, actions);
    if w.flagged == 0 {
      more := actions;
    } else {
      var next := Then(o, actions, CloseErases, w.(flagged := w.flagged - 1, erased := w.erased + 1, keys := false));
      more := EraseAll(o, next);
    }
  }

  /** All close() calls that have erased the keys return. */
  lemma {:induction false} EndAll(o: Opener, actions: seq<Action>) returns (more: seq<Action>)
    requires Run(o, actions).stage.Returned?
    ensures actions <= more
    ensures var w, w' := Run(o, actions), Run(o, more);
            && w'.stage == w.stage && w'.keys == w.keys && w'.flagged == w.flagged && w'.erased == 0
            && w'.closedAfter == w.closedAfter + w.erased
    decreases Run(o, actions).erased
  {
    var w := Run(o, actions);
    if w.erased == 0 {
      more := actions;
    } else {
      var next := Then(o, actions, CloseEnds, Step(o, w, CloseEnds));
      more := EndAll(o, next);
    }
  }

  lemma BeginAndErase(o: Opener, before: seq<Action>) returns (all: seq<Action>)
    ensures before + [CloseBegins] <= all
    ensures var w := Run(o, before);
            Run(o, all) == w.(cancel := true, flagged := 0, erased := w.erased + w.flagged + 1, keys := false)
  {
    var w := Run(o, before);
    var begun := Then(o, before, CloseBegins, w.(cancel := true, flagged := w.flagged + 1));
    all := EraseAll(o, begun);
  }

  lemma StoreAndFinish(o: Opener, actions: seq<Action>) returns (all: seq<Action>)
    requires var w := Run(o, actions); w.stage == Attempting && w.flagged == 0 && w.erased > 0
    ensures actions <= all && AllReturned(Run(o, all)) && Run(o, all).keys
  {
    var stored := StoreAndReturn(o, actions);
    all := EndAll(o, stored);
  }

  /** Any close() that begins while an attempt is under way can be outlived by the keys: it erases
      them, the attempt stores its own, and everything returns. */
  lemma KeysOutlive(o: Opener, before: seq<Action>) returns (all: seq<Action>)
    requires !NoAttempt(o, Run(o, before).stage)
    ensures before + [CloseBegins] <= all
    ensures AllReturned(Run(o, all)) && Run(o, all).keys
  {
    var erased := BeginAndErase(o, before);
    if Run(o, before).stage == NotStarted {
      erased := StartOnce(erased);
    }
    all := StoreAndFinish(o, erased);
  }

  lemma IdleBeforeStart(o: Opener, actions: seq<Action>)
    requires Run(o, actions).stage == NotStarted
    ensures Run(o, actions).state == Idle
  {
    RunKeeps(o, actions);
  }

  lemma StartStep(w: World)
    requires w.stage == NotStarted && w.state == Idle
    ensures Step(Once, w, Opening(Failed)) == w.(state := Handshaking, stage := Attempting)
  {
  }

  lemma StartOnce(actions: seq<Action>) returns (more: seq<Action>)
    requires Run(Once, actions).stage == NotStarted
    ensures actions <= more
    ensures Run(Once, more) == Run(Once, actions).(state := Handshaking, stage := Attempting)
  {
    var w := Run(Once, actions);
    IdleBeforeStart(Once, actions);
    StartStep(w);
    more := Then(Once, actions, Opening(Failed), w.(state := Handshaking, stage := Attempting));
  }

  lemma StoreAndReturn(o: Opener, actions: seq<Action>) returns (more: seq<Action>)
    requires Run(o, actions).stage == Attempting
    ensures actions <= more
    ensures var w, w' := Run(o, actions), Run(o, more);
            && w'.stage.Returned? && w'.keys && w'.flagged == w.flagged && w'.erased == w.erased
            && w'.closedAfter == w.closedAfter
  {
    var w := Run(o, actions);
    var stored := w.(stage := Attempted(Succeeded), keys := true);
    more := Then(o, actions, Opening(Succeeded), stored);
    more := Then(o, more, Opening(Failed), OpenerStep(o, stored, Failed));
  }

  /** A concrete run that ends Closed with keys set. */
  lemma ClosedWithKeys() returns (actions: seq<Action>)
    ensures var w := Run(Retrying, actions);
            AllReturned(w) && w.state == Closed && w.keys
  {
    actions := [];
    assert Run(Retrying, actions) == INITIAL;
    actions := Then(Retrying, actions, Opening(Failed), World(Handshaking, false, LoopHead, false, 0, 0, 0, 0));
    actions := Then(Retrying, actions, Opening(Failed), World(Handshaking, false, Attempting, false, 0, 0, 0, 0));
    actions := KeysOutlive(Retrying, actions);
    OpenAndCloseEndClosed(actions);
  }

  // ---- Cancellation is prompt --------------------------------------------------

  /** How many more steps `handshake_open` can take once the flag is set. */
  function Remaining(stage: Stage): nat {
    match stage
    case NotStarted => 3
    case LoopHead => 2
    case SawCancel => 1
    case Attempting => 4
    case Attempted(outcome) => if outcome == Failed then 3 else 1
    case Returned(_) => 0
  }

  function OpenerSteps(actions: seq<Action>): nat {
    if actions == [] then 0
    else OpenerSteps(actions[..|actions| - 1]) + if actions[|actions| - 1].Opening? then 1 else 0
  }

  lemma CancelledStep(w: World, a: Action)
    requires Inv(Retrying, w) && w.cancel
    ensures var w' := Step(Retrying, w, a);
            && w'.cancel
            && Remaining(w'.stage) <= Remaining(w.stage)
            && (a.Opening? && !w.stage.Returned? ==> Remaining(w'.stage) < Remaining(w.stage))
  {
  }

  /** Once any close() has set the flag, `handshake_open` returns within four more steps of its
      own, whatever else runs in between. */
  lemma {:induction false} CancellationIsPrompt(before: seq<Action>, after: seq<Action>)
    requires Run(Retrying, before).cancel
    ensures var w := Run(Retrying, before + after);
            w.cancel && Remaining(w.stage) + OpenerSteps(after) <= 4 + (if w.stage.Returned? then OpenerSteps(after) else 0)
    ensures OpenerSteps(after) >= 4 ==> Run(Retrying, before + after).stage.Returned?
  {
    if after == [] {
      assert before + after == before;
    } else {
      var n := |after| - 1;
      CancellationIsPrompt(before, after[..n]);
      assert (before + after)[..|before + after| - 1] == before + after[..n];
      RunKeeps(Retrying, before + after[..n]);
      CancelledStep(Run(Retrying, before + after[..n]), after[n]);
    }
  }
}
