/**
 The relay: routing table, floor arbiter and garbage collection, and the UDP loop that drives
 them. Each loop step reads the clock once, in nanoseconds.
 */
module Relay {
  import opened Words

  type Addr = nat
  type Channel = nat

  const SECOND: nat := 1_000_000_000
  const FLOOR_MAX_HOLD: nat := 30_000_000_000

  datatype Endpoint = Udp(addr: Addr) | WebSocket(channel: Channel)

  datatype Entry = Entry(
    peers: seq<Endpoint>,
    lastActivity: nat,
    holder: Option<Addr>,
    grantedAt: Option<nat>)
  {
    /** Nobody holds the floor, or the holder is past the time limit. */
    predicate FloorIsFree(now: nat) {
      match (holder, grantedAt)
      case (None, _) => true
      case (Some(_), Some(granted)) => now - granted > FLOOR_MAX_HOLD
      case (Some(_), None) => false
    }
  }

  datatype RouteDecision = Broadcast(targets: seq<Endpoint>) | Registered | Dropped

  datatype FloorDecision = Granted(others: seq<Endpoint>) | Denied | Released(others: seq<Endpoint>) | Unknown

  /** The peers other than `from`. */
  function Others(peers: seq<Endpoint>, from: Endpoint): seq<Endpoint> {
    if peers == [] then []
    else
      var n := |peers| - 1;
      Others(peers[..n], from) + if peers[n] == from then [] else [peers[n]]
  }

  /** The peers whose channel is not closed. */
  function Live(peers: seq<Endpoint>, closed: set<Channel>): seq<Endpoint> {
    if peers == [] then []
    else
      var n := |peers| - 1;
      Live(peers[..n], closed) + if peers[n].WebSocket? && peers[n].channel in closed then [] else [peers[n]]
  }

  // ---- The routing table as a value --------------------------------------------

  datatype Table = Table(routes: map<u32, Entry>, maxSessions: nat, maxPeers: nat) {

    function Route(sid: u32, from: Endpoint, now: nat): (Table, RouteDecision) {
      if sid == 0 then (this, Dropped)
      else if sid in routes then
        var e := routes[sid].(lastActivity := now);
        if from in e.peers then
          var targets := Others(e.peers, from);
          (this.(routes := routes[sid := e]), if targets == [] then Registered else Broadcast(targets))
        else if |e.peers| >= maxPeers then (this.(routes := routes[sid := e]), Dropped)
        else
          (this.(routes := routes[sid := e.(peers := e.peers + [from])]),
           if e.peers == [] then Registered else Broadcast(e.peers))
      else if |routes| >= maxSessions then (this, Dropped)
      else (this.(routes := routes[sid := Entry([from], now, None, None)]), Registered)
    }

    function FloorRequest(sid: u32, from: Addr, now: nat): (Table, FloorDecision) {
      if sid !in routes || Udp(from) !in routes[sid].peers then (this, Unknown)
      else
        var e := routes[sid];
        if !e.FloorIsFree(now) then (this, Denied)
        else
          (this.(routes := routes[sid := e.(holder := Some(from), grantedAt := Some(now))]),
           Granted(Others(e.peers, Udp(from))))
    }

    function FloorRelease(sid: u32, from: Addr, now: nat): (Table, FloorDecision) {
      if sid !in routes then (this, Unknown)
      else
        var e := routes[sid];
        if e.holder != Some(from) && !e.FloorIsFree(now) then (this, Denied)
        else
          (this.(routes := routes[sid := e.(holder := None, grantedAt := None)]),
           Released(Others(e.peers, Udp(from))))
    }

    predicate Kept(sid: u32, maxAge: nat, closed: set<Channel>, now: nat) {
      && sid in routes
      && Live(routes[sid].peers, closed) != []
      && (if now >= routes[sid].lastActivity then now - routes[sid].lastActivity else 0) < maxAge
    }

    function Trimmed(sid: u32, closed: set<Channel>): Entry
      requires sid in routes
    {
      routes[sid].(peers := Live(routes[sid].peers, closed))
    }

    function EvictIdle(maxAge: nat, closed: set<Channel>, now: nat): Table {
      this.(routes := map sid | sid in routes && Kept(sid, maxAge, closed, now) :: Trimmed(sid, closed))
    }

    /** The sweep in progress: sessions in `left` are still untouched. */
    ghost function Swept(left: set<u32>, maxAge: nat, closed: set<Channel>, now: nat): map<u32, Entry> {
      map sid | sid in routes && (sid in left || Kept(sid, maxAge, closed, now)) ::
        if sid in left then routes[sid] else Trimmed(sid, closed)
    }
  }

  // ---- Filters -----------------------------------------------------------------

  ghost predicate Distinct(peers: seq<Endpoint>) {
    forall i, j :: 0 <= i < j < |peers| ==> peers[i] != peers[j]
  }

  lemma {:induction false} OthersAre(peers: seq<Endpoint>, from: Endpoint)
    requires Distinct(peers)
    ensures Distinct(Others(peers, from))
    ensures forall e :: e in Others(peers, from) <==> e in peers && e != from
  {
    if peers != [] {
      var n := |peers| - 1;
      OthersAre(peers[..n], from);
      assert peers == peers[..n] + [peers[n]];
      assert peers[n] !in peers[..n];
    }
  }

  lemma {:induction false} LiveAre(peers: seq<Endpoint>, closed: set<Channel>)
    requires Distinct(peers)
    ensures Distinct(Live(peers, closed)) && |Live(peers, closed)| <= |peers|
    ensures forall e :: e in Live(peers, closed) <==> e in peers && !(e.WebSocket? && e.channel in closed)
  {
    if peers != [] {
      var n := |peers| - 1;
      LiveAre(peers[..n], closed);
      assert peers == peers[..n] + [peers[n]];
      assert peers[n] !in peers[..n];
    }
  }

  // ---- Invariant ---------------------------------------------------------------

  ghost predicate EntryOk(e: Entry, maxPeers: nat, now: nat) {
    && 1 <= |e.peers| && (|e.peers| <= 1 || |e.peers| <= maxPeers)
    && Distinct(e.peers)
    && e.lastActivity <= now
    && (e.holder.Some? <==> e.grantedAt.Some?)
    && (e.holder.Some? ==> Udp(e.holder.value) in e.peers && e.grantedAt.value <= e.lastActivity)
  }

  /** Router invariant: no session 0, bounded sessions and peers, distinct peers, and a floor
      holder exactly when there is a grant time, always one of the session's UDP peers. */
  ghost predicate TableOk(t: Table, now: nat) {
    && 0 !in t.routes
    && |t.routes| <= t.maxSessions
    && forall sid :: sid in t.routes ==> EntryOk(t.routes[sid], t.maxPeers, now)
  }

  lemma EntryStaysOk(e: Entry, maxPeers: nat, before: nat, now: nat)
    requires EntryOk(e, maxPeers, before) && before <= now
    ensures EntryOk(e, maxPeers, now)
  {
  }

  lemma TimePasses(t: Table, before: nat, now: nat)
    requires TableOk(t, before) && before <= now
    ensures TableOk(t, now)
  {
    forall s | s in t.routes ensures EntryOk(t.routes[s], t.maxPeers, now) {
      EntryStaysOk(t.routes[s], t.maxPeers, before, now);
    }
  }

  lemma PutKeeps(t: Table, sid: u32, e: Entry, now: nat)
    requires TableOk(t, now) && sid != 0 && EntryOk(e, t.maxPeers, now)
    requires sid in t.routes || |t.routes| < t.maxSessions
    ensures TableOk(t.(routes := t.routes[sid := e]), now)
  {
    assert t.routes[sid := e].Keys == t.routes.Keys + {sid};
  }

  lemma JoinedOk(e: Entry, from: Endpoint, maxPeers: nat, now: nat)
    requires EntryOk(e, maxPeers, now) && from !in e.peers && |e.peers| < maxPeers
    ensures EntryOk(e.(peers := e.peers + [from]), maxPeers, now)
  {
  }

  lemma RouteKeeps(t: Table, sid: u32, from: Endpoint, before: nat, now: nat)
    requires TableOk(t, before) && before <= now
    ensures TableOk(t.Route(sid, from, now).0, now)
  {
    TimePasses(t, before, now);
    if sid in t.routes {
      assert EntryOk(t.routes[sid], t.maxPeers, now);
      var e := t.routes[sid].(lastActivity := now);
      PutKeeps(t, sid, e, now);
      if from !in e.peers && |e.peers| < t.maxPeers {
        JoinedOk(e, from, t.maxPeers, now);
        PutKeeps(t, sid, e.(peers := e.peers + [from]), now);
      }
    } else if sid != 0 && |t.routes| < t.maxSessions {
      PutKeeps(t, sid, Entry([from], now, None, None), now);
    }
  }

  /** A broadcast lists every other peer of the session exactly once and never the sender. */
  lemma BroadcastReachesOthers(t: Table, sid: u32, from: Endpoint, before: nat, now: nat)
    requires TableOk(t, before)
    ensures var (t', d) := t.Route(sid, from, now);
            d.Broadcast? ==>
              && sid in t'.routes && from in t'.routes[sid].peers && from !in d.targets
              && Distinct(d.targets)
              && forall e :: e in d.targets <==> e in t'.routes[sid].peers && e != from
  {
    if sid in t.routes {
      assert EntryOk(t.routes[sid], t.maxPeers, before);
      OthersAre(t.routes[sid].peers, from);
    }
  }

  lemma OnlyPeer(peers: seq<Endpoint>, from: Endpoint)
    requires Distinct(peers) && from in peers && forall e :: e in peers ==> e == from
    ensures peers == [from]
  {
    var k :| 0 <= k < |peers| && peers[k] == from;
    forall i | 0 <= i < |peers| ensures i == k && peers[i] == from {
      assert peers[i] in peers;
    }
    assert peers[0] == from && peers[|peers| - 1] == from;
  }

  /** A registered sender is the only peer; a dropped one has not joined. */
  lemma RegisteredOrDropped(t: Table, sid: u32, from: Endpoint, before: nat, now: nat)
    requires TableOk(t, before)
    ensures var (t', d) := t.Route(sid, from, now);
            && (d.Registered? ==> sid in t'.routes && t'.routes[sid].peers == [from])
            && (d.Dropped? <==> sid == 0 || (sid in t.routes && from !in t.routes[sid].peers && |t.routes[sid].peers| >= t.maxPeers)
                                || (sid !in t.routes && |t.routes| >= t.maxSessions))
  {
    if sid in t.routes {
      var peers := t.routes[sid].peers;
      assert EntryOk(t.routes[sid], t.maxPeers, before);
      OthersAre(peers, from);
      if from in peers && Others(peers, from) == [] {
        OnlyPeer(peers, from);
      }
    }
  }

  /** Routing leaves every other session alone, and in its own session keeps every peer and the floor;
      it notes the time and, unless it drops the sender, has it among the peers. */
  lemma RouteLeavesRest(t: Table, sid: u32, from: Endpoint, now: nat)
    ensures var (t', d) := t.Route(sid, from, now);
            && t'.maxSessions == t.maxSessions && t'.maxPeers == t.maxPeers
            && (forall s :: s != sid ==> (s in t'.routes <==> s in t.routes) && (s in t.routes ==> t'.routes[s] == t.routes[s]))
            && (sid in t.routes && sid != 0 ==>
                  && sid in t'.routes && t'.routes[sid].lastActivity == now
                  && t'.routes[sid].holder == t.routes[sid].holder && t'.routes[sid].grantedAt == t.routes[sid].grantedAt
                  && (forall p :: p in t'.routes[sid].peers <==>
                        p in t.routes[sid].peers || (p == from && !d.Dropped?)))
            && (sid !in t.routes && sid in t'.routes ==> t'.routes[sid] == Entry([from], now, None, None))
            && (!d.Dropped? ==> sid in t'.routes && from in t'.routes[sid].peers)
  {
  }

  /** A peer is gone once its WebSocket channel is closed. */
  predicate Gone(p: Endpoint, closed: set<Channel>) {
    p.WebSocket? && p.channel in closed
  }

  /** A collection keeps a session if and only if some peer is left in it and it was active less than
      the lifetime ago; what it keeps loses its gone peers and nothing else. */
  lemma EvictKeepsExactly(t: Table, sid: u32, maxAge: nat, closed: set<Channel>, before: nat, now: nat)
    requires TableOk(t, before) && before <= now
    ensures var t' := t.EvictIdle(maxAge, closed, now);
            && (sid in t'.routes <==>
                  && sid in t.routes && now - t.routes[sid].lastActivity < maxAge
                  && exists p :: p in t.routes[sid].peers && !Gone(p, closed))
            && (sid in t'.routes ==>
                  && (forall p :: p in t'.routes[sid].peers <==> p in t.routes[sid].peers && !Gone(p, closed))
                  && t'.routes[sid] == t.routes[sid].(peers := t'.routes[sid].peers))
  {
    if sid in t.routes {
      var peers := t.routes[sid].peers;
      assert EntryOk(t.routes[sid], t.maxPeers, before);
      LiveAre(peers, closed);
      if Live(peers, closed) != [] {
        assert Live(peers, closed)[0] in Live(peers, closed);
      }
    }
  }

  /** The holder may release, and so may anyone once nobody holds the floor or the hold is too old. */
  predicate MayRelease(e: Entry, from: Addr, now: nat) {
    || e.holder == Some(from)
    || e.holder == None
    || (e.grantedAt.Some? && now - e.grantedAt.value > 30_000_000_000)
  }

  /** A release takes effect for the holder, or for anyone once nobody holds the floor or the hold is
      more than 30 s old; otherwise it changes nothing. */
  lemma ReleaseExactly(t: Table, sid: u32, from: Addr, before: nat, now: nat)
    requires TableOk(t, before) && before <= now && sid in t.routes
    ensures var (t', d), e := t.FloorRelease(sid, from, now), t.routes[sid];
            if MayRelease(e, from, now) then
              && t' == t.(routes := t.routes[sid := e.(holder := None, grantedAt := None)])
              && d.Released? && Distinct(d.others) && forall p :: p in d.others <==> p in e.peers && p != Udp(from)
            else t' == t && d == Denied
  {
    assert EntryOk(t.routes[sid], t.maxPeers, before);
    OthersAre(t.routes[sid].peers, Udp(from));
  }

  /** The UDP loop's floor request: route first, which refreshes the session, then arbitrate. */
  lemma FloorRequestKeeps(t: Table, sid: u32, from: Addr, now: nat)
    requires TableOk(t, now) && (sid in t.routes ==> t.routes[sid].lastActivity == now)
    ensures TableOk(t.FloorRequest(sid, from, now).0, now)
  {
    if t.FloorRequest(sid, from, now).1.Granted? {
      PutKeeps(t, sid, t.routes[sid].(holder := Some(from), grantedAt := Some(now)), now);
    }
  }

  lemma FloorReleaseKeeps(t: Table, sid: u32, from: Addr, before: nat, now: nat)
    requires TableOk(t, before) && before <= now
    ensures TableOk(t.FloorRelease(sid, from, now).0, now)
  {
    TimePasses(t, before, now);
    if sid in t.routes {
      PutKeeps(t, sid, t.routes[sid].(holder := None, grantedAt := None), now);
    }
  }

  lemma EvictKeeps(t: Table, maxAge: nat, closed: set<Channel>, before: nat, now: nat)
    requires TableOk(t, before) && before <= now
    ensures TableOk(t.EvictIdle(maxAge, closed, now), now)
  {
    var t' := t.EvictIdle(maxAge, closed, now);
    SubsetSize(t'.routes.Keys, t.routes.Keys);
    forall s | s in t'.routes ensures EntryOk(t'.routes[s], t.maxPeers, now) {
      assert EntryOk(t.routes[s], t.maxPeers, before);
      LiveAre(t.routes[s].peers, closed);
    }
  }

  lemma SubsetSize(a: set<u32>, b: set<u32>)
    requires a <= b
    ensures |a| <= |b|
  {
    assert b == a + (b - a);
  }

  // ---- The router object -------------------------------------------------------

  class Router {
    var routes: map<u32, Entry>
    const maxSessions: nat
    const maxPeers: nat

    ghost function View(): Table
      reads this
    {
      Table(routes, maxSessions, maxPeers)
    }

    constructor (maxSessions: nat, maxPeers: nat)
      ensures View() == Table(map[], maxSessions, maxPeers)
    {
      routes := map[];
      this.maxSessions := maxSessions;
      this.maxPeers := maxPeers;
    }

    /** `route`. */
    method Route(sid: u32, from: Endpoint, now: nat) returns (d: RouteDecision)
      modifies this
      ensures (View(), d) == old(View()).Route(sid, from, now)
    {
      if sid == 0 {
        return Dropped;
      }
      if sid in routes {
        var e := routes[sid].(lastActivity := now);
        routes := routes[sid := e];
        if from in e.peers {
          var targets := Others(e.peers, from);
          return if targets == [] then Registered else Broadcast(targets);
        }
        if |e.peers| >= maxPeers {
          return Dropped;
        }
        var existing := e.peers;
        routes := routes[sid := e.(peers := e.peers + [from])];
        assert routes == old(routes)[sid := e.(peers := e.peers + [from])];
        return if existing == [] then Registered else Broadcast(existing);
      }
      if |routes| >= maxSessions {
        return Dropped;
      }
      routes := routes[sid := Entry([from], now, None, None)];
      d := Registered;
    }

    /** `floor_request`, with the source's auto-release step before the decision. */
    method FloorRequest(sid: u32, from: Addr, now: nat) returns (d: FloorDecision)
      modifies this
      ensures (View(), d) == old(View()).FloorRequest(sid, from, now)
    {
      if sid !in routes {
        return Unknown;
      }
      var e := routes[sid];
      if Udp(from) !in e.peers {
        return Unknown;
      }
      if !e.FloorIsFree(now) {
        if e.holder.Some? && e.grantedAt.Some? && now - e.grantedAt.value > FLOOR_MAX_HOLD {
          e := e.(holder := None, grantedAt := None);
        }
      }
      if !e.FloorIsFree(now) {
        return Denied;
      }
      e := e.(holder := Some(from), grantedAt := Some(now));
      routes := routes[sid := e];
      d := Granted(Others(e.peers, Udp(from)));
    }

    /** `floor_release`. */
    method FloorRelease(sid: u32, from: Addr, now: nat) returns (d: FloorDecision)
      modifies this
      ensures (View(), d) == old(View()).FloorRelease(sid, from, now)
    {
      if sid !in routes {
        return Unknown;
      }
      var e := routes[sid];
      var isHolder := e.holder == Some(from) || e.FloorIsFree(now);
      if !isHolder {
        return Denied;
      }
      routes := routes[sid := e.(holder := None, grantedAt := None)];
      d := Released(Others(e.peers, Udp(from)));
    }

    /** `evict_idle`: visit every session once, keeping or dropping it. */
    method EvictIdle(maxAgeSecs: nat, closed: set<Channel>, now: nat) returns (removed: nat)
      modifies this
      ensures View() == old(View()).EvictIdle(maxAgeSecs * 1_000_000_000, closed, now)
      ensures removed == old(|routes|) - |routes|
    {
      ghost var before := View();
      var maxAge := maxAgeSecs * SECOND;
      var left := routes.Keys;
      removed := 0;
      assert before.Swept(left, maxAge, closed, now) == routes;
      while left != {}
        invariant left <= before.routes.Keys
        invariant routes == before.Swept(left, maxAge, closed, now)
        invariant removed == |before.routes| - |routes|
        decreases |left|
      {
        var s :| s in left;
        SweepOne(before, left, s, maxAge, closed, now);
        left := left - {s};
        var e := routes[s].(peers := Live(routes[s].peers, closed));
        var idle := if now >= e.lastActivity then now - e.lastActivity else 0;
        if e.peers != [] && idle < maxAge {
          SameSize(routes, s, e);
          routes := routes[s := e];
        } else {
          OneLess(routes, s);
          routes := routes - {s};
          removed := removed + 1;
        }
      }
      assert routes == before.EvictIdle(maxAge, closed, now).routes;
    }
  }

  lemma SweepOne(t: Table, left: set<u32>, s: u32, maxAge: nat, closed: set<Channel>, now: nat)
    requires left <= t.routes.Keys && s in left
    ensures var m := t.Swept(left, maxAge, closed, now);
            && s in m && m[s] == t.routes[s]
            && t.Swept(left - {s}, maxAge, closed, now) ==
               if t.Kept(s, maxAge, closed, now) then m[s := t.Trimmed(s, closed)] else m - {s}
  {
  }

  lemma SameSize(m: map<u32, Entry>, sid: u32, e: Entry)
    requires sid in m
    ensures |m[sid := e]| == |m|
  {
    assert m[sid := e].Keys == m.Keys;
  }

  lemma OneLess(m: map<u32, Entry>, sid: u32)
    requires sid in m
    ensures |m - {sid}| == |m| - 1
  {
    assert (m - {sid}).Keys == m.Keys - {sid};
  }
}
