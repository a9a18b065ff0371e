/**
 Whole runs of the relay: what the UDP loop, the WebSocket side and the garbage collector do to
 the routing table in any interleaving, with a clock that never goes back.
 */
module RelayRuns {
  import opened Words
  import opened Relay

  datatype Kind = FloorRequestMsg | FloorReleaseMsg | OtherMsg

  datatype Event =
    | Malformed
    | FromUdp(sid: u32, from: Addr, kind: Kind)
    | FromWs(sid: u32, channel: Channel)
    | Gc(closed: set<Channel>)

  datatype Timed = Timed(at: nat, event: Event)

  datatype Message = FloorGrant | FloorDeny | FloorTaken | FloorReleased | Forwarded

  datatype Send = Send(sid: u32, to: Endpoint, message: Message)

  function ToAll(sid: u32, targets: seq<Endpoint>, message: Message): seq<Send> {
    seq(|targets|, i requires 0 <= i < |targets| => Send(sid, targets[i], message))
  }

  function ForwardSends(sid: u32, d: RouteDecision): seq<Send> {
    if d.Broadcast? then ToAll(sid, d.targets, Forwarded) else []
  }

  /** What the loop sends for a floor request. */
  function RequestSends(sid: u32, from: Addr, d: FloorDecision): seq<Send> {
    match d
    case Granted(others) => [Send(sid, Udp(from), FloorGrant)] + ToAll(sid, others, FloorTaken)
    case Denied => [Send(sid, Udp(from), FloorDeny)]
    case _ => []
  }

  /** One step of the relay: the new table and the messages sent. Floor messages are consumed,
      never forwarded. `ttl` is the configured session lifetime. */
  function Step(t: Table, ttl: nat, e: Timed): (Table, seq<Send>) {
    match e.event
    case Malformed => (t, [])
    case FromUdp(sid, from, FloorRequestMsg) =>
      var routed := t.Route(sid, Udp(from), e.at).0;
      var (after, d) := routed.FloorRequest(sid, from, e.at);
      (after, RequestSends(sid, from, d))
    case FromUdp(sid, from, FloorReleaseMsg) =>
      var (after, d) := t.FloorRelease(sid, from, e.at);
      (after, if d.Released? then ToAll(sid, d.others, FloorReleased) else [])
    case FromUdp(sid, from, OtherMsg) =>
      var (after, d) := t.Route(sid, Udp(from), e.at);
      (after, ForwardSends(sid, d))
    case FromWs(sid, channel) =>
      var (after, d) := t.Route(sid, WebSocket(channel), e.at);
      (after, ForwardSends(sid, d))
    case Gc(closed) => (t.EvictIdle(ttl, closed, e.at), [])
  }

  /** The table before event `i` of a run. */
  function TableAt(start: Table, ttl: nat, run: seq<Timed>, i: nat): Table
    requires i <= |run|
  {
    if i == 0 then start else Step(TableAt(start, ttl, run, i - 1), ttl, run[i - 1]).0
  }

  function SendsAt(start: Table, ttl: nat, run: seq<Timed>, i: nat): seq<Send>
    requires i < |run|
  {
    Step(TableAt(start, ttl, run, i), ttl, run[i]).1
  }

  ghost predicate ClockForward(run: seq<Timed>) {
    forall i, j :: 0 <= i <= j < |run| ==> run[i].at <= run[j].at
  }

  ghost predicate StartsEmpty(t: Table) {
    t.routes == map[]
  }

  // ---- The invariant over every run --------------------------------------------

  lemma StepKeeps(t: Table, ttl: nat, e: Timed, before: nat)
    requires TableOk(t, before) && before <= e.at
    ensures TableOk(Step(t, ttl, e).0, e.at)
  {
    match e.event
    case Malformed => TimePasses(t, before, e.at);
    case FromUdp(sid, from, FloorRequestMsg) =>
      RouteKeeps(t, sid, Udp(from), before, e.at);
      FloorRequestKeeps(t.Route(sid, Udp(from), e.at).0, sid, from, e.at);
    case FromUdp(sid, from, FloorReleaseMsg) => FloorReleaseKeeps(t, sid, from, before, e.at);
    case FromUdp(sid, from, OtherMsg) => RouteKeeps(t, sid, Udp(from), before, e.at);
    case FromWs(sid, channel) => RouteKeeps(t, sid, WebSocket(channel), before, e.at);
    case Gc(closed) => EvictKeeps(t, ttl, closed, before, e.at);
  }

  /** Router invariant in every reachable state of every run. */
  lemma {:induction false} RunKeeps(start: Table, ttl: nat, run: seq<Timed>, i: nat)
    requires StartsEmpty(start) && ClockForward(run) && i <= |run|
    ensures TableOk(TableAt(start, ttl, run, i), if i == 0 then 0 else run[i - 1].at)
  {
    if i > 0 {
      RunKeeps(start, ttl, run, i - 1);
      StepKeeps(TableAt(start, ttl, run, i - 1), ttl, run[i - 1], if i == 1 then 0 else run[i - 2].at);
    }
  }

  // ---- Floor exclusion ---------------------------------------------------------

  /** Address `a` was granted the floor of session `sid` at time `g` and still holds it. */
  ghost predicate HeldBy(t: Table, sid: u32, a: Addr, g: nat) {
    && sid in t.routes
    && t.routes[sid].holder == Some(a) && t.routes[sid].grantedAt == Some(g)
    && Udp(a) in t.routes[sid].peers && g <= t.routes[sid].lastActivity
  }

  predicate IsReleaseBy(e: Event, sid: u32, a: Addr) {
    e == FromUdp(sid, a, FloorReleaseMsg)
  }

  /** Step sends a grant of session `sid` to `a`. */
  predicate Grants(sends: seq<Send>, sid: u32, a: Addr) {
    Send(sid, Udp(a), FloorGrant) in sends
  }

  lemma RouteKeepsHold(t: Table, sid: u32, from: Endpoint, now: nat, held: u32, a: Addr, g: nat)
    requires HeldBy(t, held, a, g) && g <= now
    ensures HeldBy(t.Route(sid, from, now).0, held, a, g)
  {
  }

  lemma {:induction false} LiveKeepsUdp(peers: seq<Endpoint>, closed: set<Channel>, a: Addr)
    requires Udp(a) in peers
    ensures Udp(a) in Live(peers, closed)
  {
    var n := |peers| - 1;
    if peers[n] != Udp(a) {
      LiveKeepsUdp(peers[..n], closed, a);
    }
  }

  lemma EvictKeepsHold(t: Table, ttl: nat, closed: set<Channel>, now: nat, held: u32, a: Addr, g: nat)
    requires HeldBy(t, held, a, g) && now - g <= FLOOR_MAX_HOLD < ttl
    ensures HeldBy(t.EvictIdle(ttl, closed, now), held, a, g)
  {
    LiveKeepsUdp(t.routes[held].peers, closed, a);
  }

  /** Within the time limit only the holder's own release ends a hold, whatever the event. */
  lemma HoldPersists(t: Table, ttl: nat, e: Timed, sid: u32, a: Addr, g: nat)
    requires HeldBy(t, sid, a, g) && g <= e.at <= g + FLOOR_MAX_HOLD < g + ttl
    requires !IsReleaseBy(e.event, sid, a)
    ensures HeldBy(Step(t, ttl, e).0, sid, a, g)
    ensures forall b :: !Grants(Step(t, ttl, e).1, sid, b)
  {
    match e.event
    case Malformed =>
    case FromUdp(s, from, FloorRequestMsg) =>
      RouteKeepsHold(t, s, Udp(from), e.at, sid, a, g);
    case FromUdp(s, from, FloorReleaseMsg) =>
    case FromUdp(s, from, OtherMsg) => RouteKeepsHold(t, s, Udp(from), e.at, sid, a, g);
    case FromWs(s, channel) => RouteKeepsHold(t, s, WebSocket(channel), e.at, sid, a, g);
    case Gc(closed) => EvictKeepsHold(t, ttl, closed, e.at, sid, a, g);
  }

  lemma GrantHolds(t: Table, ttl: nat, e: Timed, sid: u32, a: Addr)
    requires 0 !in t.routes && Grants(Step(t, ttl, e).1, sid, a)
    ensures HeldBy(Step(t, ttl, e).0, sid, a, e.at)
  {
  }

  lemma {:induction false} HoldLasts(start: Table, ttl: nat, run: seq<Timed>, i: nat, j: nat, sid: u32, a: Addr)
    requires StartsEmpty(start) && ClockForward(run) && i < j < |run| && FLOOR_MAX_HOLD < ttl
    requires Grants(SendsAt(start, ttl, run, i), sid, a)
    requires forall k :: i < k < j ==> !IsReleaseBy(run[k].event, sid, a)
    requires run[j].at <= run[i].at + FLOOR_MAX_HOLD
    ensures HeldBy(TableAt(start, ttl, run, j), sid, a, run[i].at)
  {
    if j == i + 1 {
      RunKeeps(start, ttl, run, i);
      GrantHolds(TableAt(start, ttl, run, i), ttl, run[i], sid, a);
    } else {
      HoldLasts(start, ttl, run, i, j - 1, sid, a);
      HoldPersists(TableAt(start, ttl, run, j - 1), ttl, run[j - 1], sid, a, run[i].at);
    }
  }

  /** Between two grants of one session the first holder released, or the time limit passed. */
  ghost predicate Exclusive(start: Table, ttl: nat, run: seq<Timed>) {
    forall i, j, sid, a, b ::
      && 0 <= i < j < |run|
      && Grants(SendsAt(start, ttl, run, i), sid, a)
      && Grants(SendsAt(start, ttl, run, j), sid, b)
      ==> run[j].at - run[i].at > 30_000_000_000 || ReleasedBetween(run, i, j, sid, a)
  }

  ghost predicate ReleasedBetween(run: seq<Timed>, i: int, j: int, sid: u32, a: Addr)
    requires 0 <= i < j < |run|
  {
    exists k :: i < k < j && IsReleaseBy(run[k].event, sid, a)
  }

  /** Floor mutual exclusion over every run whose session lifetime exceeds the hold limit. */
  lemma FloorIsExclusive(start: Table, ttl: nat, run: seq<Timed>)
    requires StartsEmpty(start) && ClockForward(run) && ttl > FLOOR_MAX_HOLD
    ensures Exclusive(start, ttl, run)
  {
    forall i, j, sid, a, b |
      && 0 <= i < j < |run|
      && Grants(SendsAt(start, ttl, run, i), sid, a)
      && Grants(SendsAt(start, ttl, run, j), sid, b)
      ensures run[j].at - run[i].at > FLOOR_MAX_HOLD || ReleasedBetween(run, i, j, sid, a)
    {
      if run[j].at - run[i].at <= FLOOR_MAX_HOLD && !ReleasedBetween(run, i, j, sid, a) {
        HoldLasts(start, ttl, run, i, j, sid, a);
        GrantImpossible(TableAt(start, ttl, run, j), ttl, run[j], sid, a, run[i].at, b);
      }
    }
  }

  lemma GrantImpossible(t: Table, ttl: nat, e: Timed, sid: u32, a: Addr, g: nat, b: Addr)
    requires HeldBy(t, sid, a, g) && g <= e.at <= g + FLOOR_MAX_HOLD
    ensures !Grants(Step(t, ttl, e).1, sid, b)
  {
    if e.event.FromUdp? && e.event.kind == FloorRequestMsg {
      RouteKeepsHold(t, e.event.sid, Udp(e.event.from), e.at, sid, a, g);
    }
  }

  // ---- The lifetime condition is exact -----------------------------------------

  /** Two grants of session 1 with a collection in between, `ttl` after the first. */
  function QuickSuccession(ttl: nat): seq<Timed> {
    [Timed(0, FromUdp(1, 10, FloorRequestMsg)),
     Timed(ttl, Gc({})),
     Timed(ttl, FromUdp(1, 20, FloorRequestMsg))]
  }

  lemma QuickSuccessionGrantsTwice(start: Table, ttl: nat)
    requires StartsEmpty(start) && start.maxSessions >= 1
    ensures Grants(SendsAt(start, ttl, QuickSuccession(ttl), 0), 1, 10)
    ensures Grants(SendsAt(start, ttl, QuickSuccession(ttl), 2), 1, 20)
  {
    var run := QuickSuccession(ttl);
    var first := Entry([Udp(10)], 0, Some(10), Some(0));
    var t1 := TableAt(start, ttl, run, 1);
    assert TableAt(start, ttl, run, 0) == start;
    assert t1 == start.(routes := map[1 := first]) by {
      var routed := start.Route(1, Udp(10), 0).0;
      assert routed.routes == map[1 := Entry([Udp(10)], 0, None, None)];
    }
    var t2 := TableAt(start, ttl, run, 2);
    assert t2.routes == map[] by {
      assert t2 == t1.EvictIdle(ttl, {}, ttl);
    }
    var routed := t2.Route(1, Udp(20), ttl).0;
    assert routed.routes == map[1 := Entry([Udp(20)], ttl, None, None)];
  }

  /** Exclusion holds over every run exactly when sessions outlive the hold limit. */
  lemma ExclusiveIffLongLifetime(start: Table, ttl: nat)
    requires StartsEmpty(start) && start.maxSessions >= 1
    ensures (forall run :: ClockForward(run) ==> Exclusive(start, ttl, run)) <==> ttl > 30_000_000_000
  {
    if ttl > FLOOR_MAX_HOLD {
      forall run | ClockForward(run) ensures Exclusive(start, ttl, run) {
        FloorIsExclusive(start, ttl, run);
      }
    } else {
      var run := QuickSuccession(ttl);
      QuickSuccessionGrantsTwice(start, ttl);
      assert ClockForward(run);
      assert !ReleasedBetween(run, 0, 2, 1, 10);
      assert !Exclusive(start, ttl, run);
    }
  }

  // ---- Denials are justified ---------------------------------------------------

  /** Event `i` granted the floor to `a`, who has not released it before event `n`. */
  ghost predicate LiveGrant(start: Table, ttl: nat, run: seq<Timed>, i: int, n: int, sid: u32, a: Addr)
    requires 0 <= i < n <= |run|
  {
    && Grants(SendsAt(start, ttl, run, i), sid, a)
    && forall k :: i < k < n ==> !IsReleaseBy(run[k].event, sid, a)
  }

  /** A hold found after a step was granted by it, or was there before and not released by it. */
  lemma HoldComesFrom(t: Table, ttl: nat, e: Timed, sid: u32, a: Addr, g: nat)
    requires var t' := Step(t, ttl, e).0;
             sid in t'.routes && t'.routes[sid].holder == Some(a) && t'.routes[sid].grantedAt == Some(g)
    ensures || (Grants(Step(t, ttl, e).1, sid, a) && g == e.at)
            || (sid in t.routes && t.routes[sid].holder == Some(a) && t.routes[sid].grantedAt == Some(g)
                && !IsReleaseBy(e.event, sid, a))
  {
    match e.event
    case FromUdp(s, from, FloorRequestMsg) =>
      if s == sid && t.Route(s, Udp(from), e.at).0.FloorRequest(s, from, e.at).1.Granted? {
        assert Step(t, ttl, e).1[0] == Send(sid, Udp(a), FloorGrant);
      }
    case _ =>
  }

  lemma {:induction false} HoldHasGrant(start: Table, ttl: nat, run: seq<Timed>, n: nat, sid: u32, a: Addr, g: nat)
    returns (i: nat)
    requires StartsEmpty(start) && n <= |run|
    requires var t := TableAt(start, ttl, run, n);
             sid in t.routes && t.routes[sid].holder == Some(a) && t.routes[sid].grantedAt == Some(g)
    ensures i < n && run[i].at == g && LiveGrant(start, ttl, run, i, n, sid, a)
  {
    HoldComesFrom(TableAt(start, ttl, run, n - 1), ttl, run[n - 1], sid, a, g);
    if Grants(SendsAt(start, ttl, run, n - 1), sid, a) && g == run[n - 1].at {
      i := n - 1;
    } else {
      i := HoldHasGrant(start, ttl, run, n - 1, sid, a, g);
    }
  }

  /** Some address was granted this session's floor at most 30 s earlier and has not given it
      back. */
  ghost predicate Occupied(start: Table, ttl: nat, run: seq<Timed>, j: int, sid: u32)
    requires 0 <= j < |run|
  {
    exists i, a :: 0 <= i < j && run[j].at - run[i].at <= 30_000_000_000 && LiveGrant(start, ttl, run, i, j, sid, a)
  }

  /** A floor request is refused service only when routing drops its sender, and denied only
      when someone holds the floor; otherwise it is granted. */
  lemma RequestAnswered(start: Table, ttl: nat, run: seq<Timed>, j: nat, sid: u32, from: Addr)
    requires StartsEmpty(start) && ClockForward(run) && j < |run| && run[j].event == FromUdp(sid, from, FloorRequestMsg)
    ensures var t, sends := TableAt(start, ttl, run, j), SendsAt(start, ttl, run, j);
            || (sends == [] && t.Route(sid, Udp(from), run[j].at).1.Dropped?)
            || (sends == [Send(sid, Udp(from), FloorDeny)] && Occupied(start, ttl, run, j, sid))
            || Grants(sends, sid, from)
  {
    RunKeeps(start, ttl, run, j);
    var t, now := TableAt(start, ttl, run, j), run[j].at;
    var before := if j == 0 then 0 else run[j - 1].at;
    var routed := t.Route(sid, Udp(from), now).0;
    if sid in routed.routes && Udp(from) in routed.routes[sid].peers {
      if !routed.routes[sid].FloorIsFree(now) {
        assert sid in t.routes && EntryOk(t.routes[sid], t.maxPeers, before);
        var a, g := t.routes[sid].holder.value, t.routes[sid].grantedAt.value;
        var i := HoldHasGrant(start, ttl, run, j, sid, a, g);
        assert Occupied(start, ttl, run, j, sid);
      } else {
        assert SendsAt(start, ttl, run, j)[0] == Send(sid, Udp(from), FloorGrant);
      }
    }
  }

  // ---- What each floor decision tells the peers --------------------------------

  lemma TakenSends(sid: u32, others: seq<Endpoint>, p: Endpoint)
    requires p in others
    ensures Send(sid, p, FloorTaken) in ToAll(sid, others, FloorTaken)
  {
    var i :| 0 <= i < |others| && others[i] == p;
    assert ToAll(sid, others, FloorTaken)[i] == Send(sid, p, FloorTaken);
  }

  /** The messages for a grant: one per peer, the grant to the requester and "taken" to the rest. */
  lemma GrantTellsEveryone(peers: seq<Endpoint>, sid: u32, from: Addr)
    requires Distinct(peers) && Udp(from) in peers
    ensures var sends := RequestSends(sid, from, Granted(Others(peers, Udp(from))));
            && |sends| == |peers|
            && forall p :: p in peers ==> Send(sid, p, if p == Udp(from) then FloorGrant else FloorTaken) in sends
  {
    var others := Others(peers, Udp(from));
    OthersAre(peers, Udp(from));
    OthersCount(peers, Udp(from));
    forall p | p in peers && p != Udp(from) ensures Send(sid, p, FloorTaken) in ToAll(sid, others, FloorTaken) {
      TakenSends(sid, others, p);
    }
  }

  /** A request that is granted leaves the requester holding the floor and notifies each peer of
      the session once; otherwise it answers at most a denial to the requester. */
  lemma RequestNotifies(t: Table, ttl: nat, e: Timed, before: nat, sid: u32, from: Addr)
    requires TableOk(t, before) && before <= e.at && e.event == FromUdp(sid, from, FloorRequestMsg)
    ensures var (t', sends) := Step(t, ttl, e);
            if Grants(sends, sid, from) then
              && sid in t'.routes && t'.routes[sid].holder == Some(from) && t'.routes[sid].grantedAt == Some(e.at)
              && Distinct(t'.routes[sid].peers) && Udp(from) in t'.routes[sid].peers
              && sends == RequestSends(sid, from, Granted(Others(t'.routes[sid].peers, Udp(from))))
            else sends == [] || sends == [Send(sid, Udp(from), FloorDeny)]
  {
    RouteKeeps(t, sid, Udp(from), before, e.at);
    var routed := t.Route(sid, Udp(from), e.at).0;
    if sid in routed.routes {
      assert EntryOk(routed.routes[sid], routed.maxPeers, e.at);
    }
  }

  // ---- What is forwarded -------------------------------------------------------

  /** The sender of a message that is to be forwarded. */
  function Forwarder(e: Event): Option<(u32, Endpoint)> {
    match e
    case FromUdp(sid, from, OtherMsg) => Some((sid, Udp(from)))
    case FromWs(sid, channel) => Some((sid, WebSocket(channel)))
    case _ => None
  }

  lemma ToAllSends(sid: u32, targets: seq<Endpoint>, message: Message, p: Endpoint)
    ensures Send(sid, p, message) in ToAll(sid, targets, message) <==> p in targets
  {
    if p in targets {
      var i :| 0 <= i < |targets| && targets[i] == p;
      assert ToAll(sid, targets, message)[i] == Send(sid, p, message);
    }
  }

  /** These sends bring `message` to every peer but `from`, once each, and nothing else to anyone. */
  ghost predicate ReachesOthers(sends: seq<Send>, sid: u32, peers: seq<Endpoint>, from: Endpoint, message: Message) {
    && (forall p :: Send(sid, p, message) in sends <==> p in peers && p != from)
    && (forall x :: x in sends ==> x.sid == sid && x.message == message)
    && |sends| == if from in peers then |peers| - 1 else |peers|
  }

  lemma ToOthersReaches(sid: u32, targets: seq<Endpoint>, peers: seq<Endpoint>, from: Endpoint, message: Message)
    requires Distinct(peers) && targets == Others(peers, from)
    ensures ReachesOthers(ToAll(sid, targets, message), sid, peers, from, message)
  {
    OthersAre(peers, from);
    OthersCount(peers, from);
    forall p ensures Send(sid, p, message) in ToAll(sid, targets, message) <==> p in peers && p != from {
      ToAllSends(sid, targets, message, p);
    }
  }

  lemma {:induction false} OthersOfStranger(peers: seq<Endpoint>, from: Endpoint)
    requires from !in peers
    ensures Others(peers, from) == peers
  {
    if peers != [] {
      var n := |peers| - 1;
      OthersOfStranger(peers[..n], from);
      assert peers == peers[..n] + [peers[n]];
    }
  }

  lemma OthersOfJoined(peers: seq<Endpoint>, from: Endpoint)
    requires from !in peers
    ensures Others(peers + [from], from) == peers
  {
    OthersOfStranger(peers, from);
    var all := peers + [from];
    assert all[..|all| - 1] == peers && all[|all| - 1] == from;
  }

  lemma RouteSends(t: Table, sid: u32, from: Endpoint, before: nat, now: nat)
    requires TableOk(t, before) && before <= now
    ensures var (t', d) := t.Route(sid, from, now);
            if sid in t'.routes && from in t'.routes[sid].peers then
              ReachesOthers(ForwardSends(sid, d), sid, t'.routes[sid].peers, from, Forwarded)
            else ForwardSends(sid, d) == []
  {
    RouteKeeps(t, sid, from, before, now);
    var (t', d) := t.Route(sid, from, now);
    if sid in t'.routes && from in t'.routes[sid].peers {
      var peers := t'.routes[sid].peers;
      assert EntryOk(t'.routes[sid], t'.maxPeers, now);
      RouteTargets(t, sid, from, now);
      ToOthersReaches(sid, Others(peers, from), peers, from, Forwarded);
    }
  }

  lemma RouteTargets(t: Table, sid: u32, from: Endpoint, now: nat)
    requires var t' := t.Route(sid, from, now).0; sid in t'.routes && from in t'.routes[sid].peers && 0 !in t.routes
    ensures var (t', d) := t.Route(sid, from, now);
            ForwardSends(sid, d) == ToAll(sid, Others(t'.routes[sid].peers, from), Forwarded)
  {
    if sid in t.routes && from !in t.routes[sid].peers {
      OthersOfJoined(t.routes[sid].peers, from);
    } else if sid !in t.routes {
      OthersOfJoined([], from);
      assert [] + [from] == [from];
    }
  }

  /** Over every run, a datagram that is not a floor message, or a WebSocket message, goes to every other
      peer of its session, once each, and to nobody else; if its sender is no peer it goes nowhere. */
  lemma ForwardsToOthers(start: Table, ttl: nat, run: seq<Timed>, i: nat, sid: u32, from: Endpoint)
    requires StartsEmpty(start) && ClockForward(run) && i < |run| && Forwarder(run[i].event) == Some((sid, from))
    ensures var t', sends := TableAt(start, ttl, run, i + 1), SendsAt(start, ttl, run, i);
            if sid in t'.routes && from in t'.routes[sid].peers then
              ReachesOthers(sends, sid, t'.routes[sid].peers, from, Forwarded)
            else sends == []
  {
    RunKeeps(start, ttl, run, i);
    RouteSends(TableAt(start, ttl, run, i), sid, from, if i == 0 then 0 else run[i - 1].at, run[i].at);
  }

  /** A release that takes effect tells every other peer once; any other is answered by silence. */
  lemma ReleaseTellsOthers(start: Table, ttl: nat, run: seq<Timed>, i: nat, sid: u32, from: Addr)
    requires StartsEmpty(start) && ClockForward(run) && i < |run|
    requires run[i].event == FromUdp(sid, from, FloorReleaseMsg)
    ensures var t, sends := TableAt(start, ttl, run, i), SendsAt(start, ttl, run, i);
            if sid in t.routes && MayRelease(t.routes[sid], from, run[i].at) then
              ReachesOthers(sends, sid, t.routes[sid].peers, Udp(from), FloorReleased)
            else sends == []
  {
    RunKeeps(start, ttl, run, i);
    var t := TableAt(start, ttl, run, i);
    var before := if i == 0 then 0 else run[i - 1].at;
    if sid in t.routes {
      assert EntryOk(t.routes[sid], t.maxPeers, before);
      ReleaseExactly(t, sid, from, before, run[i].at);
      ToOthersReaches(sid, Others(t.routes[sid].peers, Udp(from)), t.routes[sid].peers, Udp(from), FloorReleased);
    }
  }

  lemma {:induction false} OthersCount(peers: seq<Endpoint>, from: Endpoint)
    requires Distinct(peers)
    ensures |Others(peers, from)| == if from in peers then |peers| - 1 else |peers|
  {
    if peers != [] {
      var n := |peers| - 1;
      OthersCount(peers[..n], from);
      assert peers == peers[..n] + [peers[n]];
      assert peers[n] !in peers[..n];
    }
  }

  // ---- The UDP loop body -------------------------------------------------------

  /** The loop's `for other in others { send }`. */
  method SendToEach(sid: u32, targets: seq<Endpoint>, message: Message) returns (sends: seq<Send>)
    ensures sends == ToAll(sid, targets, message)
  {
    sends := [];
    for i := 0 to |targets|
      invariant sends == ToAll(sid, targets[..i], message)
    {
      sends := sends + [Send(sid, targets[i], message)];
    }
    assert targets[..|targets|] == targets;
  }

  /** One iteration of the UDP receive loop on a well-formed datagram. */
  method OnDatagram(router: Router, ghost ttl: nat, now: nat, sid: u32, from: Addr, kind: Kind) returns (sends: seq<Send>)
    modifies router
    ensures (router.View(), sends) == Step(old(router.View()), ttl, Timed(now, FromUdp(sid, from, kind)))
  {
    match kind
    case FloorRequestMsg =>
      var routed := router.Route(sid, Udp(from), now);
      var d := router.FloorRequest(sid, from, now);
      match d {
        case Granted(others) =>
          var taken := SendToEach(sid, others, FloorTaken);
          sends := [Send(sid, Udp(from), FloorGrant)] + taken;
        case Denied => sends := [Send(sid, Udp(from), FloorDeny)];
        case _ => sends := [];
      }
    case FloorReleaseMsg =>
      var d := router.FloorRelease(sid, from, now);
      if d.Released? {
        sends := SendToEach(sid, d.others, FloorReleased);
      } else {
        sends := [];
      }
    case OtherMsg =>
      var d := router.Route(sid, Udp(from), now);
      if d.Broadcast? {
        sends := SendToEach(sid, d.targets, Forwarded);
      } else {
        sends := [];
      }
  }
}
