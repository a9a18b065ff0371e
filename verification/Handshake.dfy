/**
 The four-message handshake over a network that loses, duplicates and reorders packets, with
 any number of clients and servers and any number of server retries.

 X25519, HKDF and the authentication tags are free symbols: Diffie-Hellman commutes, and keys
 and tags are equal only when built from equal parts. Every handshake attempt draws a fresh
 secret and nonce, named by its run number; session identifiers may collide.
 */
module Handshake {
  import opened Words
  import opened Folds

  type Addr = nat
  type Run = nat
  type Codec = nat

  const VERSION_MIN: nat := 1
  const VERSION_MAX: nat := 1

  // ---- Symbolic cryptography ---------------------------------------------------

  datatype PublicKey = PublicKey(secretOf: Run)

  datatype Shared = Shared(lo: Run, hi: Run)

  /** X25519: the secret of one run against the public key of another. */
  function Dh(secret: Run, key: PublicKey): Shared {
    if secret <= key.secretOf then Shared(secret, key.secretOf) else Shared(key.secretOf, secret)
  }

  lemma DhCommutes(a: Run, b: Run)
    ensures Dh(a, PublicKey(b)) == Dh(b, PublicKey(a))
  {
  }

  /** client nonce || server nonce || session id, all of fixed width. */
  datatype Transcript = Transcript(clientNonce: Run, serverNonce: Run, sessionId: u32)

  datatype Info = EncryptInfo | DecryptInfo

  /** HKDF output: salt = transcript, input = shared secret. */
  datatype Key = Key(info: Info, shared: Shared, salt: Transcript)

  datatype Fin = ClientFin | ServerFin

  datatype Tag = Tag(key: Key, fin: Fin, transcript: Transcript)

  // ---- Messages ----------------------------------------------------------------

  datatype Message =
    | ClientHello(key: PublicKey, nonce: Run, version: nat, codec: Codec)
    | ServerHello(key: PublicKey, nonce: Run, sessionId: u32, version: nat, codec: Codec)
    | KeyExchange(sessionId: u32, tag: Tag)
    | SessionConfirm(sessionId: u32, tag: Tag)

  datatype Packet = Packet(from: Addr, to: Addr, message: Message)

  // ---- Parties -----------------------------------------------------------------

  /** What one side holds once it has derived keys. */
  datatype Agreed = Agreed(transcript: Transcript, enc: Key, dec: Key, codec: Codec, version: nat)

  datatype ClientPhase = AwaitHello | AwaitConfirm | ClientDone | ClientFailed

  datatype Client = Client(
    addr: Addr,
    peer: Addr,
    preferred: Codec,
    supported: seq<Codec>,
    phase: ClientPhase,
    derived: Option<Agreed>)

  datatype ServerPhase = AwaitClient | AwaitKey(run: Run, peer: Addr) | ServerDone(run: Run) | ServerFailed

  /** A server session and the fields it stores as the handshake proceeds. `expected` is the
      only peer it accepts; without one (`handshake_open`) it accepts any and retries. */
  datatype Server = Server(
    addr: Addr,
    expected: Option<Addr>,
    supported: seq<Codec>,
    phase: ServerPhase,
    sessionId: u32,
    codec: Codec,
    enc: Option<Key>,
    dec: Option<Key>)

  /** A server attempt that answered a ClientHello. */
  datatype Attempt = Attempt(
    server: nat,
    clientKey: PublicKey,
    clientNonce: Run,
    sessionId: u32,
    codec: Codec,
    version: nat,
    completed: bool)

  /** The system: parties, every attempt made so far, every packet ever sent. */
  datatype World = World(
    clients: map<Run, Client>,
    servers: map<nat, Server>,
    attempts: map<Run, Attempt>,
    net: set<Packet>,
    nextRun: Run)

  const EMPTY := World(map[], map[], map[], {}, 0)

  // ---- Key schedule ------------------------------------------------------------

  /** The client derives (encrypt, decrypt) from its secret and the server's hello. */
  function ClientAgrees(run: Run, key: PublicKey, nonce: Run, sessionId: u32, codec: Codec, version: nat): Agreed {
    var t := Transcript(run, nonce, sessionId);
    var shared := Dh(run, key);
    Agreed(t, Key(EncryptInfo, shared, t), Key(DecryptInfo, shared, t), codec, version)
  }

  /** The server derives the same pair with the roles swapped. */
  function ServerAgrees(run: Run, a: Attempt): Agreed {
    var t := Transcript(a.clientNonce, run, a.sessionId);
    var shared := Dh(run, a.clientKey);
    Agreed(t, Key(DecryptInfo, shared, t), Key(EncryptInfo, shared, t), a.codec, a.version)
  }

  function HelloOf(run: Run, a: Attempt): Message {
    ServerHello(PublicKey(run), run, a.sessionId, a.version, a.codec)
  }

  function ClientTag(d: Agreed): Tag {
    Tag(d.enc, ClientFin, d.transcript)
  }

  function ServerTag(d: Agreed): Tag {
    Tag(d.enc, ServerFin, d.transcript)
  }

  // ---- Steps -------------------------------------------------------------------

  datatype Action =
    | StartClient(addr: Addr, peer: Addr, preferred: Codec, supported: seq<Codec>)
    | StartServer(server: nat, addr: Addr, expected: Option<Addr>, supported: seq<Codec>)
    | ClientReceives(client: Run, packet: Packet)
    | ServerReceives(server: nat, packet: Packet, randomId: u32)
    | ClientTimesOut(client: Run)
    | ServerTimesOut(server: nat)

  function PutClient(w: World, run: Run, c: Client, used: Run): World {
    w.(clients := w.clients[run := c], nextRun := used)
  }

  function PutAttempt(w: World, run: Run, a: Attempt, used: Run): World {
    w.(attempts := w.attempts[run := a], nextRun := used)
  }

  function PutServer(w: World, id: nat, s: Server, used: Run): World {
    w.(servers := w.servers[id := s], nextRun := used)
  }

  function Transmit(w: World, p: Packet): World {
    w.(net := w.net + {p})
  }

  function OnStartClient(w: World, addr: Addr, peer: Addr, preferred: Codec, supported: seq<Codec>): World {
    var run := w.nextRun;
    Transmit(PutClient(w, run, Client(addr, peer, preferred, supported, AwaitHello, None), run + 1),
             Packet(addr, peer, ClientHello(PublicKey(run), run, VERSION_MAX, preferred)))
  }

  function OnStartServer(w: World, id: nat, addr: Addr, expected: Option<Addr>, supported: seq<Codec>): World {
    if id in w.servers then w
    else w.(servers := w.servers[id := Server(addr, expected, supported, AwaitClient, 0, 0, None, None)])
  }

  /** A failed attempt ends `handshake`; `handshake_open` starts over. */
  function Retry(s: Server): Server {
    s.(phase := if s.expected.None? then AwaitClient else ServerFailed)
  }

  /** The client on a ServerHello: check version and codec, derive keys, send its tag. */
  function ClientOnHello(w: World, run: Run, m: Message): World
    requires run in w.clients && m.ServerHello?
  {
    var c := w.clients[run];
    if m.version < VERSION_MIN || m.version > VERSION_MAX || m.codec !in c.supported then
      w.(clients := w.clients[run := c.(phase := ClientFailed)])
    else
      var d := ClientAgrees(run, m.key, m.nonce, m.sessionId, m.codec, m.version);
      w.(clients := w.clients[run := c.(phase := AwaitConfirm, derived := Some(d))],
         net := w.net + {Packet(c.addr, c.peer, KeyExchange(m.sessionId, ClientTag(d)))})
  }

  /** The client on a SessionConfirm: check session id and the server's tag. */
  function ClientOnConfirm(w: World, run: Run, m: Message): World
    requires run in w.clients && w.clients[run].derived.Some? && m.SessionConfirm?
  {
    var c := w.clients[run];
    var d := c.derived.value;
    var ok := m.sessionId == d.transcript.sessionId && m.tag == Tag(d.dec, ServerFin, d.transcript);
    w.(clients := w.clients[run := c.(phase := if ok then ClientDone else ClientFailed)])
  }

  function OnClientReceives(w: World, run: Run, p: Packet): World {
    if run !in w.clients || p !in w.net then w
    else
      var c := w.clients[run];
      if p.to != c.addr || p.from != c.peer then w
      else if c.phase == AwaitHello && p.message.ServerHello? then ClientOnHello(w, run, p.message)
      else if c.phase == AwaitConfirm && c.derived.Some? && p.message.SessionConfirm? then
        ClientOnConfirm(w, run, p.message)
      else w
  }

  function Min(a: nat, b: nat): nat {
    if a < b then a else b
  }

  /** The server takes the client's preferred codec if it can, else its own first one. */
  function ChosenCodec(supported: seq<Codec>, preferred: Codec): (r: Option<Codec>)
    ensures r.Some? ==> r.value in supported
  {
    if preferred in supported then Some(preferred)
    else if supported == [] then None
    else Some(supported[0])
  }

  /** The attempt is recorded under a fresh run and its hello sent from `from`. */
  function Recorded(w: World, from: Addr, peer: Addr, a: Attempt): World {
    Transmit(PutAttempt(w, w.nextRun, a, w.nextRun + 1), Packet(from, peer, HelloOf(w.nextRun, a)))
  }

  /** The attempt is recorded, its session id and codec stored, and the ServerHello sent. */
  function Answered(w: World, id: nat, peer: Addr, a: Attempt): World
    requires id in w.servers
  {
    var s, run := w.servers[id], w.nextRun;
    PutServer(Recorded(w, s.addr, peer, a), id,
              s.(phase := AwaitKey(run, peer), sessionId := a.sessionId, codec := a.codec), run + 1)
  }

  /** The server on a ClientHello: negotiate version and codec, draw a session id, answer. */
  function ServerOnHello(w: World, id: nat, p: Packet, randomId: u32): World
    requires id in w.servers && p.message.ClientHello?
  {
    var s := w.servers[id];
    var m := p.message;
    if m.version < VERSION_MIN then w.(servers := w.servers[id := Retry(s)])
    else
      var version := Min(m.version, VERSION_MAX);
      var run := w.nextRun;
      var codec := ChosenCodec(s.supported, m.codec);
      if codec.None? then
        w.(servers := w.servers[id := Retry(s.(sessionId := randomId))], nextRun := run + 1)
      else
        Answered(w, id, p.from, Attempt(id, m.key, m.nonce, randomId, codec.value, version, false))
  }

  /** Attempt `run` of server `id` is complete, its keys `d` stored and confirmed. */
  function Confirmed(w: World, id: nat, run: Run, d: Agreed): World
    requires id in w.servers && w.servers[id].phase.AwaitKey? && run in w.attempts
  {
    var s, a := w.servers[id], w.attempts[run];
    w.(servers := w.servers[id := s.(phase := ServerDone(run), enc := Some(d.enc), dec := Some(d.dec))],
       attempts := w.attempts[run := a.(completed := true)],
       net := w.net + {Packet(s.addr, s.phase.peer, SessionConfirm(a.sessionId, ServerTag(d)))})
  }

  /** The server on a KeyExchange: check session id and the client's tag, confirm, store keys. */
  function ServerOnKey(w: World, id: nat, m: Message): World
    requires id in w.servers && w.servers[id].phase.AwaitKey? && w.servers[id].phase.run in w.attempts
    requires m.KeyExchange?
  {
    var s := w.servers[id];
    var run := s.phase.run;
    var a := w.attempts[run];
    var d := ServerAgrees(run, a);
    if m.sessionId != a.sessionId || m.tag != Tag(d.dec, ClientFin, d.transcript) then
      w.(servers := w.servers[id := Retry(s)])
    else
      Confirmed(w, id, run, d)
  }

  function OnServerReceives(w: World, id: nat, p: Packet, randomId: u32): World {
    if id !in w.servers || p !in w.net then w
    else
      var s := w.servers[id];
      if p.to != s.addr then w
      else if s.phase == AwaitClient && p.message.ClientHello? && (s.expected.None? || s.expected.value == p.from) then
        ServerOnHello(w, id, p, randomId)
      else if s.phase.AwaitKey? && s.phase.run in w.attempts && p.from == s.phase.peer && p.message.KeyExchange? then
        ServerOnKey(w, id, p.message)
      else if s.phase.AwaitKey? && s.phase.run in w.attempts && p.from == s.phase.peer && p.message.ClientHello? then
        w.(net := w.net + {Packet(s.addr, s.phase.peer, HelloOf(s.phase.run, w.attempts[s.phase.run]))})
      else w
  }

  function Step(w: World, action: Action): World {
    match action
    case StartClient(addr, peer, preferred, supported) => OnStartClient(w, addr, peer, preferred, supported)
    case StartServer(id, addr, expected, supported) => OnStartServer(w, id, addr, expected, supported)
    case ClientReceives(run, p) => OnClientReceives(w, run, p)
    case ServerReceives(id, p, randomId) => OnServerReceives(w, id, p, randomId)
    case ClientTimesOut(run) =>
      if run in w.clients && !w.clients[run].phase.ClientDone? then
        w.(clients := w.clients[run := w.clients[run].(phase := ClientFailed)])
      else w
    case ServerTimesOut(id) =>
      if id in w.servers && !w.servers[id].phase.ServerDone? then
        w.(servers := w.servers[id := Retry(w.servers[id])])
      else w
  }

  // ---- The invariant -----------------------------------------------------------

  /** A client's derived keys come from a hello that some attempt really sent. */
  ghost predicate ClientOk(w: World, run: Run) requires run in w.clients {
    var c := w.clients[run];
    && (c.phase == AwaitHello ==> c.derived.None?)
    && (c.phase == AwaitConfirm || c.phase == ClientDone ==> c.derived.Some?)
    && (c.derived.Some? ==>
          var d := c.derived.value;
          var a := d.transcript.serverNonce;
          && a in w.attempts
          && d == ClientAgrees(run, PublicKey(a), a, w.attempts[a].sessionId, w.attempts[a].codec, w.attempts[a].version)
          && d.codec in c.supported && VERSION_MIN <= d.version <= VERSION_MAX)
    && (c.phase == ClientDone ==>
          var d := c.derived.value;
          w.attempts[d.transcript.serverNonce].completed
          && Matches(d, ServerAgrees(d.transcript.serverNonce, w.attempts[d.transcript.serverNonce])))
  }

  /** The two sides agree: same transcript (hence session id), codec and version, crossed keys. */
  ghost predicate Matches(c: Agreed, s: Agreed) {
    && c.transcript == s.transcript && c.codec == s.codec && c.version == s.version
    && c.enc == s.dec && c.dec == s.enc
  }

  /** A completed attempt was completed by the client whose nonce it carries. */
  ghost predicate AttemptOk(w: World, run: Run) requires run in w.attempts {
    var a := w.attempts[run];
    && a.server in w.servers && a.clientNonce in w.clients
    && ChosenCodec(w.servers[a.server].supported, w.clients[a.clientNonce].preferred) == Some(a.codec)
    && VERSION_MIN <= a.version <= VERSION_MAX
    && (a.completed ==>
          && w.servers[a.server].phase == ServerDone(run)
          && w.clients[a.clientNonce].derived.Some?
          && Matches(w.clients[a.clientNonce].derived.value, ServerAgrees(run, a)))
  }

  ghost predicate ServerOk(w: World, id: nat) requires id in w.servers {
    var s := w.servers[id];
    && (s.phase.AwaitKey? || s.phase.ServerDone? ==>
          && s.phase.run in w.attempts && w.attempts[s.phase.run].server == id
          && s.sessionId == w.attempts[s.phase.run].sessionId && s.codec == w.attempts[s.phase.run].codec)
    && (s.phase.ServerDone? ==>
          var d := ServerAgrees(s.phase.run, w.attempts[s.phase.run]);
          w.attempts[s.phase.run].completed && s.enc == Some(d.enc) && s.dec == Some(d.dec))
  }

  /** Every packet on the network was sent by the party its contents name. */
  ghost predicate PacketOk(w: World, m: Message) {
    match m
    case ClientHello(key, nonce, version, codec) =>
      nonce in w.clients && key == PublicKey(nonce) && codec == w.clients[nonce].preferred
    case ServerHello(key, nonce, sessionId, version, codec) => nonce in w.attempts && m == HelloOf(nonce, w.attempts[nonce])
    case KeyExchange(sessionId, tag) =>
      var c := tag.transcript.clientNonce;
      c in w.clients && w.clients[c].derived.Some? && tag == ClientTag(w.clients[c].derived.value)
    case SessionConfirm(sessionId, tag) =>
      var a := tag.transcript.serverNonce;
      a in w.attempts && w.attempts[a].completed && tag == ServerTag(ServerAgrees(a, w.attempts[a]))
  }

  ghost predicate Fresh(w: World) {
    && (forall r :: r in w.clients ==> r < w.nextRun)
    && (forall r :: r in w.attempts ==> r < w.nextRun)
  }

  /** The parts of the invariant: one per kind of thing in the world, plus fresh run numbers. */
  datatype Part = Runs | Clients | Attempts | Servers | Net

  ghost predicate PartOk(w: World, part: Part) {
    match part
    case Runs => Fresh(w)
    case Clients => forall r :: r in w.clients ==> ClientOk(w, r)
    case Attempts => forall r :: r in w.attempts ==> AttemptOk(w, r)
    case Servers => forall id :: id in w.servers ==> ServerOk(w, id)
    case Net => forall p :: p in w.net ==> PacketOk(w, p.message)
  }

  ghost predicate Inv(w: World) {
    forall part: Part :: PartOk(w, part)
  }

  lemma Parts(w: World)
    requires Inv(w)
    ensures Fresh(w)
    ensures forall r :: r in w.clients ==> ClientOk(w, r)
    ensures forall r :: r in w.attempts ==> AttemptOk(w, r)
    ensures forall id :: id in w.servers ==> ServerOk(w, id)
    ensures forall p :: p in w.net ==> PacketOk(w, p.message)
  {
    assert PartOk(w, Runs) && PartOk(w, Clients) && PartOk(w, Attempts) && PartOk(w, Servers) && PartOk(w, Net);
  }

  lemma FreshOf(w: World)
    requires Inv(w)
    ensures Fresh(w)
  {
    assert PartOk(w, Runs);
  }

  lemma ClientOf(w: World, run: Run)
    requires Inv(w) && run in w.clients
    ensures ClientOk(w, run) && run < w.nextRun
  {
    assert PartOk(w, Clients) && PartOk(w, Runs);
  }

  lemma AttemptOf(w: World, run: Run)
    requires Inv(w) && run in w.attempts
    ensures AttemptOk(w, run) && run < w.nextRun
  {
    assert PartOk(w, Attempts) && PartOk(w, Runs);
  }

  lemma ServerOf(w: World, id: nat)
    requires Inv(w) && id in w.servers
    ensures ServerOk(w, id)
  {
    assert PartOk(w, Servers);
  }

  lemma PacketOf(w: World, p: Packet)
    requires Inv(w) && p in w.net
    ensures PacketOk(w, p.message)
  {
    assert PartOk(w, Net);
  }

  // ---- Frame lemmas: adding to the world keeps what was true -------------------

  /** `v` knows at least what `w` knew: attempts only gain completion, clients only gain keys. */
  ghost predicate Extends(w: World, v: World) {
    && (forall r :: r in w.clients ==>
          && r in v.clients && v.clients[r].supported == w.clients[r].supported
          && v.clients[r].preferred == w.clients[r].preferred
          && (w.clients[r].derived.Some? ==> v.clients[r].derived == w.clients[r].derived))
    && (forall r :: r in w.attempts ==>
          && r in v.attempts && v.attempts[r].(completed := w.attempts[r].completed) == w.attempts[r]
          && (w.attempts[r].completed ==> v.attempts[r].completed))
    && (forall id :: id in w.servers ==>
          && id in v.servers && v.servers[id].supported == w.servers[id].supported
          && (w.servers[id].phase.ServerDone? ==> v.servers[id].phase == w.servers[id].phase))
  }

  lemma PacketStays(w: World, v: World, m: Message)
    requires Extends(w, v) && PacketOk(w, m)
    ensures PacketOk(v, m)
  {
  }

  lemma ClientStays(w: World, v: World, run: Run)
    requires Extends(w, v) && run in w.clients && run in v.clients && ClientOk(w, run)
    requires v.clients[run] == w.clients[run]
    ensures ClientOk(v, run)
  {
  }

  lemma AttemptStays(w: World, v: World, run: Run)
    requires Extends(w, v) && run in w.attempts && run in v.attempts && AttemptOk(w, run)
    requires v.attempts[run] == w.attempts[run]
    ensures AttemptOk(v, run)
  {
  }

  lemma ServerStays(w: World, v: World, id: nat)
    requires Extends(w, v) && id in w.servers && id in v.servers && ServerOk(w, id)
    requires v.servers[id] == w.servers[id]
    ensures ServerOk(v, id)
  {
  }

  /** `v` extends `w` and differs from it at most in these clients, attempts, servers and messages. */
  ghost predicate OnlyAt(w: World, v: World, cs: set<Run>, ats: set<Run>, ids: set<nat>, ms: set<Message>) {
    && Extends(w, v)
    && (forall r :: r in v.clients && r !in cs ==> r in w.clients && v.clients[r] == w.clients[r])
    && (forall r :: r in v.attempts && r !in ats ==> r in w.attempts && v.attempts[r] == w.attempts[r])
    && (forall id :: id in v.servers && id !in ids ==> id in w.servers && v.servers[id] == w.servers[id])
    && (forall p :: p in v.net && p !in w.net ==> p.message in ms)
  }

  ghost predicate TouchedOk(v: World, cs: set<Run>, ats: set<Run>, ids: set<nat>, ms: set<Message>) {
    && (forall r :: r in cs && r in v.clients ==> ClientOk(v, r))
    && (forall r :: r in ats && r in v.attempts ==> AttemptOk(v, r))
    && (forall id :: id in ids && id in v.servers ==> ServerOk(v, id))
    && (forall m :: m in ms ==> PacketOk(v, m))
  }

  /** Everything the step did not touch stays fine; what it touched is given as fine. */
  lemma InvStays(w: World, v: World, cs: set<Run>, ats: set<Run>, ids: set<nat>, ms: set<Message>)
    requires Inv(w) && Fresh(v) && OnlyAt(w, v, cs, ats, ids, ms) && TouchedOk(v, cs, ats, ids, ms)
    ensures Inv(v)
  {
    Parts(w);
    forall r | r in v.clients ensures ClientOk(v, r) {
      if r !in cs { ClientStays(w, v, r); }
    }
    forall r | r in v.attempts ensures AttemptOk(v, r) {
      if r !in ats { AttemptStays(w, v, r); }
    }
    forall id | id in v.servers ensures ServerOk(v, id) {
      if id !in ids { ServerStays(w, v, id); }
    }
    forall p | p in v.net ensures PacketOk(v, p.message) {
      if p in w.net { PacketStays(w, v, p.message); }
    }
    forall part: Part ensures PartOk(v, part) {
    }
  }

  // ---- One change at a time ----------------------------------------------------

  /** A server session may change to `s`: same configuration, and done means done. */
  predicate Replaces(before: Server, s: Server) {
    s.supported == before.supported && (before.phase.ServerDone? ==> s.phase == before.phase)
  }

  lemma ClientPut(w: World, run: Run, c: Client, used: Run)
    requires Fresh(w) && used >= w.nextRun && run < used
    requires run in w.clients ==>
               c.supported == w.clients[run].supported && c.preferred == w.clients[run].preferred
               && (w.clients[run].derived.Some? ==> c.derived == w.clients[run].derived)
    requires ClientOk(PutClient(w, run, c, used), run)
    ensures var v := PutClient(w, run, c, used);
            Fresh(v) && OnlyAt(w, v, {run}, {}, {}, {}) && TouchedOk(v, {run}, {}, {}, {})
  {
  }

  lemma AttemptPut(w: World, run: Run, a: Attempt, used: Run)
    requires Fresh(w) && used >= w.nextRun && run < used
    requires run in w.attempts ==> w.attempts[run] == a.(completed := w.attempts[run].completed) && a.completed
    requires AttemptOk(PutAttempt(w, run, a, used), run)
    ensures var v := PutAttempt(w, run, a, used);
            Fresh(v) && OnlyAt(w, v, {}, {run}, {}, {}) && TouchedOk(v, {}, {run}, {}, {})
  {
  }

  lemma ServerPut(w: World, id: nat, s: Server, used: Run)
    requires Fresh(w) && used >= w.nextRun && (id in w.servers ==> Replaces(w.servers[id], s))
    requires ServerOk(PutServer(w, id, s, used), id)
    ensures var v := PutServer(w, id, s, used);
            Fresh(v) && OnlyAt(w, v, {}, {}, {id}, {}) && TouchedOk(v, {}, {}, {id}, {})
  {
  }

  lemma PacketPut(w: World, p: Packet)
    requires Fresh(w) && PacketOk(w, p.message)
    ensures var v := Transmit(w, p);
            Fresh(v) && OnlyAt(w, v, {}, {}, {}, {p.message}) && TouchedOk(v, {}, {}, {}, {p.message})
  {
    PacketStays(w, Transmit(w, p), p.message);
  }

  lemma ClientPutKeeps(w: World, run: Run, c: Client, used: Run)
    requires Inv(w) && used >= w.nextRun && run < used
    requires run in w.clients ==>
               c.supported == w.clients[run].supported && c.preferred == w.clients[run].preferred
               && (w.clients[run].derived.Some? ==> c.derived == w.clients[run].derived)
    requires ClientOk(PutClient(w, run, c, used), run)
    ensures Inv(PutClient(w, run, c, used))
  {
    FreshOf(w);
    ClientPut(w, run, c, used);
    InvStays(w, PutClient(w, run, c, used), {run}, {}, {}, {});
  }

  lemma AttemptPutKeeps(w: World, run: Run, a: Attempt, used: Run)
    requires Inv(w) && used >= w.nextRun && run < used
    requires run in w.attempts ==> w.attempts[run] == a.(completed := w.attempts[run].completed) && a.completed
    requires AttemptOk(PutAttempt(w, run, a, used), run)
    ensures Inv(PutAttempt(w, run, a, used))
  {
    FreshOf(w);
    AttemptPut(w, run, a, used);
    InvStays(w, PutAttempt(w, run, a, used), {}, {run}, {}, {});
  }

  lemma ServerPutKeeps(w: World, id: nat, s: Server, used: Run)
    requires Inv(w) && used >= w.nextRun && (id in w.servers ==> Replaces(w.servers[id], s))
    requires ServerOk(PutServer(w, id, s, used), id)
    ensures Inv(PutServer(w, id, s, used))
  {
    FreshOf(w);
    ServerPut(w, id, s, used);
    InvStays(w, PutServer(w, id, s, used), {}, {}, {id}, {});
  }

  lemma PacketPutKeeps(w: World, p: Packet)
    requires Inv(w) && PacketOk(w, p.message)
    ensures Inv(Transmit(w, p))
  {
    FreshOf(w);
    PacketPut(w, p);
    InvStays(w, Transmit(w, p), {}, {}, {}, {p.message});
  }

  // ---- Every step keeps the invariant ------------------------------------------

  lemma StartClientKeeps(w: World, addr: Addr, peer: Addr, preferred: Codec, supported: seq<Codec>)
    requires Inv(w)
    ensures Inv(OnStartClient(w, addr, peer, preferred, supported))
  {
    var run, c := w.nextRun, Client(addr, peer, preferred, supported, AwaitHello, None);
    FreshOf(w);
    ClientPutKeeps(w, run, c, run + 1);
    PacketPutKeeps(PutClient(w, run, c, run + 1), Packet(addr, peer, ClientHello(PublicKey(run), run, VERSION_MAX, preferred)));
  }

  lemma StartServerKeeps(w: World, id: nat, addr: Addr, expected: Option<Addr>, supported: seq<Codec>)
    requires Inv(w)
    ensures Inv(OnStartServer(w, id, addr, expected, supported))
  {
    if id !in w.servers {
      ServerPutKeeps(w, id, Server(addr, expected, supported, AwaitClient, 0, 0, None, None), w.nextRun);
    }
  }

  lemma ClientOnHelloKeeps(w: World, run: Run, m: Message)
    requires Inv(w) && run in w.clients && m.ServerHello? && PacketOk(w, m) && w.clients[run].phase == AwaitHello
    ensures Inv(ClientOnHello(w, run, m))
  {
    var c := w.clients[run];
    ClientOf(w, run);
    if m.version < VERSION_MIN || m.version > VERSION_MAX || m.codec !in c.supported {
      ClientPutKeeps(w, run, c.(phase := ClientFailed), w.nextRun);
    } else {
      var d := ClientAgrees(run, m.key, m.nonce, m.sessionId, m.codec, m.version);
      var c' := c.(phase := AwaitConfirm, derived := Some(d));
      ClientPutKeeps(w, run, c', w.nextRun);
      PacketPutKeeps(w.(clients := w.clients[run := c']), Packet(c.addr, c.peer, KeyExchange(m.sessionId, ClientTag(d))));
    }
  }

  lemma ClientOnConfirmKeeps(w: World, run: Run, m: Message)
    requires Inv(w) && run in w.clients && w.clients[run].phase == AwaitConfirm && w.clients[run].derived.Some?
    requires m.SessionConfirm? && PacketOk(w, m)
    ensures Inv(ClientOnConfirm(w, run, m))
  {
    ClientOf(w, run);
    ClientPutKeeps(w, run, ClientOnConfirm(w, run, m).clients[run], w.nextRun);
  }

  lemma ServerOnHelloKeeps(w: World, id: nat, p: Packet, randomId: u32)
    requires Inv(w) && id in w.servers && w.servers[id].phase == AwaitClient
    requires p.message.ClientHello? && PacketOk(w, p.message)
    ensures Inv(ServerOnHello(w, id, p, randomId))
  {
    var s, m := w.servers[id], p.message;
    var codec := ChosenCodec(s.supported, m.codec);
    if m.version < VERSION_MIN {
      RetryKeeps(w, id, s.sessionId, w.nextRun);
    } else if codec.None? {
      RetryKeeps(w, id, randomId, w.nextRun + 1);
    } else {
      AnswerKeeps(w, id, p.from, Attempt(id, m.key, m.nonce, randomId, codec.value, Min(m.version, VERSION_MAX), false));
    }
  }

  lemma RetryKeeps(w: World, id: nat, sessionId: u32, used: Run)
    requires Inv(w) && id in w.servers && !w.servers[id].phase.ServerDone? && used >= w.nextRun
    ensures Inv(w.(servers := w.servers[id := Retry(w.servers[id].(sessionId := sessionId))], nextRun := used))
  {
    ServerPutKeeps(w, id, Retry(w.servers[id].(sessionId := sessionId)), used);
  }

  lemma NewAttemptOk(w: World, run: Run, a: Attempt, used: Run)
    requires a.server in w.servers && a.clientNonce in w.clients && !a.completed
    requires ChosenCodec(w.servers[a.server].supported, w.clients[a.clientNonce].preferred) == Some(a.codec)
    requires VERSION_MIN <= a.version <= VERSION_MAX
    ensures AttemptOk(PutAttempt(w, run, a, used), run)
    ensures PacketOk(PutAttempt(w, run, a, used), HelloOf(run, a))
  {
  }

  lemma NewAttemptKeeps(w: World, a: Attempt)
    requires Inv(w) && AttemptOk(PutAttempt(w, w.nextRun, a, w.nextRun + 1), w.nextRun)
    ensures Inv(PutAttempt(w, w.nextRun, a, w.nextRun + 1))
  {
    FreshOf(w);
    AttemptPutKeeps(w, w.nextRun, a, w.nextRun + 1);
  }

  lemma RecordedKeeps(w: World, from: Addr, peer: Addr, a: Attempt)
    requires Inv(w) && a.server in w.servers && a.clientNonce in w.clients && !a.completed
    requires ChosenCodec(w.servers[a.server].supported, w.clients[a.clientNonce].preferred) == Some(a.codec)
    requires VERSION_MIN <= a.version <= VERSION_MAX
    ensures Inv(Recorded(w, from, peer, a))
  {
    var run := w.nextRun;
    NewAttemptOk(w, run, a, run + 1);
    NewAttemptKeeps(w, a);
    PacketPutKeeps(PutAttempt(w, run, a, run + 1), Packet(from, peer, HelloOf(run, a)));
  }

  lemma AwaitingKeyOk(w: World, id: nat, s: Server, run: Run, used: Run)
    requires s.phase.AwaitKey? && s.phase.run == run && run in w.attempts && w.attempts[run].server == id
    requires s.sessionId == w.attempts[run].sessionId && s.codec == w.attempts[run].codec
    ensures ServerOk(PutServer(w, id, s, used), id)
  {
  }

  lemma AnswerKeeps(w: World, id: nat, peer: Addr, a: Attempt)
    requires Inv(w) && id in w.servers && w.servers[id].phase == AwaitClient
    requires a.server == id && a.clientNonce in w.clients && !a.completed
    requires ChosenCodec(w.servers[id].supported, w.clients[a.clientNonce].preferred) == Some(a.codec)
    requires VERSION_MIN <= a.version <= VERSION_MAX
    ensures Inv(Answered(w, id, peer, a))
  {
    var s, run := w.servers[id], w.nextRun;
    var w1 := Recorded(w, s.addr, peer, a);
    var s' := s.(phase := AwaitKey(run, peer), sessionId := a.sessionId, codec := a.codec);
    RecordedKeeps(w, s.addr, peer, a);
    AwaitingKeyOk(w1, id, s', run, run + 1);
    ServerPutKeeps(w1, id, s', run + 1);
  }

  lemma ServerOnKeyKeeps(w: World, id: nat, m: Message)
    requires Inv(w) && id in w.servers && w.servers[id].phase.AwaitKey? && w.servers[id].phase.run in w.attempts
    requires m.KeyExchange? && PacketOk(w, m)
    ensures Inv(ServerOnKey(w, id, m))
  {
    var s := w.servers[id];
    var run := s.phase.run;
    var a := w.attempts[run];
    var d := ServerAgrees(run, a);
    if m.sessionId != a.sessionId || m.tag != Tag(d.dec, ClientFin, d.transcript) {
      ServerPutKeeps(w, id, Retry(s), w.nextRun);
    } else {
      VerifiedTagMatches(w, run, m);
      ConfirmKeeps(w, id, run, d);
    }
  }

  /** A client tag that verifies on the server was made by the client the attempt answered,
      with the same transcript, codec, version and crossed keys. */
  lemma VerifiedTagMatches(w: World, run: Run, m: Message)
    requires Inv(w) && run in w.attempts && m.KeyExchange? && PacketOk(w, m)
    requires var d := ServerAgrees(run, w.attempts[run]); m.tag == Tag(d.dec, ClientFin, d.transcript)
    ensures var c := w.attempts[run].clientNonce;
            && c in w.clients && w.clients[c].derived.Some?
            && Matches(w.clients[c].derived.value, ServerAgrees(run, w.attempts[run]))
  {
    ClientOf(w, w.attempts[run].clientNonce);
  }

  /** The server session and its attempt change together. */
  lemma ConfirmOnly(w: World, id: nat, run: Run, d: Agreed, m: Message)
    requires Fresh(w) && id in w.servers && w.servers[id].phase.AwaitKey? && run in w.attempts
    requires m == SessionConfirm(w.attempts[run].sessionId, ServerTag(d))
    ensures var v := Confirmed(w, id, run, d);
            Fresh(v) && OnlyAt(w, v, {}, {run}, {id}, {m})
  {
  }

  lemma ConfirmTouches(w: World, id: nat, run: Run, d: Agreed, m: Message)
    requires id in w.servers && w.servers[id].phase.AwaitKey? && run == w.servers[id].phase.run
    requires run in w.attempts && d == ServerAgrees(run, w.attempts[run]) && AttemptOk(w, run) && ServerOk(w, id)
    requires m == SessionConfirm(w.attempts[run].sessionId, ServerTag(d))
    requires var c := w.attempts[run].clientNonce;
             c in w.clients && w.clients[c].derived.Some? && Matches(w.clients[c].derived.value, d)
    ensures TouchedOk(Confirmed(w, id, run, d), {}, {run}, {id}, {m})
  {
    var v := Confirmed(w, id, run, d);
    assert ServerAgrees(run, v.attempts[run]) == d;
  }

  lemma ConfirmKeeps(w: World, id: nat, run: Run, d: Agreed)
    requires Inv(w) && id in w.servers && w.servers[id].phase.AwaitKey? && run == w.servers[id].phase.run
    requires run in w.attempts && d == ServerAgrees(run, w.attempts[run])
    requires var c := w.attempts[run].clientNonce;
             c in w.clients && w.clients[c].derived.Some? && Matches(w.clients[c].derived.value, d)
    ensures Inv(Confirmed(w, id, run, d))
  {
    FreshOf(w);
    AttemptOf(w, run);
    ServerOf(w, id);
    var m := SessionConfirm(w.attempts[run].sessionId, ServerTag(d));
    ConfirmOnly(w, id, run, d, m);
    ConfirmTouches(w, id, run, d, m);
    InvStays(w, Confirmed(w, id, run, d), {}, {run}, {id}, {m});
  }

  lemma ClientReceivesKeeps(w: World, run: Run, p: Packet)
    requires Inv(w)
    ensures Inv(OnClientReceives(w, run, p))
  {
    if run in w.clients && p in w.net {
      PacketOf(w, p);
      var c := w.clients[run];
      if p.to == c.addr && p.from == c.peer {
        if c.phase == AwaitHello && p.message.ServerHello? {
          ClientOnHelloKeeps(w, run, p.message);
        } else if c.phase == AwaitConfirm && c.derived.Some? && p.message.SessionConfirm? {
          ClientOnConfirmKeeps(w, run, p.message);
        }
      }
    }
  }

  lemma ServerReceivesKeeps(w: World, id: nat, p: Packet, randomId: u32)
    requires Inv(w)
    ensures Inv(OnServerReceives(w, id, p, randomId))
  {
    if id in w.servers && p in w.net {
      PacketOf(w, p);
      var s := w.servers[id];
      if p.to == s.addr {
        if s.phase == AwaitClient && p.message.ClientHello? {
          ServerOnHelloKeeps(w, id, p, randomId);
        } else if s.phase.AwaitKey? && s.phase.run in w.attempts {
          if p.message.KeyExchange? {
            ServerOnKeyKeeps(w, id, p.message);
          } else {
            PacketPutKeeps(w, Packet(s.addr, s.phase.peer, HelloOf(s.phase.run, w.attempts[s.phase.run])));
          }
        }
      }
    }
  }

  lemma StepKeeps(w: World, action: Action)
    requires Inv(w)
    ensures Inv(Step(w, action))
  {
    match action
    case StartClient(addr, peer, preferred, supported) => StartClientKeeps(w, addr, peer, preferred, supported);
    case StartServer(id, addr, expected, supported) => StartServerKeeps(w, id, addr, expected, supported);
    case ClientReceives(run, p) => ClientReceivesKeeps(w, run, p);
    case ServerReceives(id, p, randomId) => ServerReceivesKeeps(w, id, p, randomId);
    case ClientTimesOut(run) =>
      if run in w.clients {
        ClientOf(w, run);
        ClientPutKeeps(w, run, w.clients[run].(phase := ClientFailed), w.nextRun);
      }
    case ServerTimesOut(id) =>
      if id in w.servers && !w.servers[id].phase.ServerDone? {
        ServerPutKeeps(w, id, Retry(w.servers[id]), w.nextRun);
      }
  }

  // ---- Agreement ---------------------------------------------------------------

  /** The world after any run from nothing. */
  function Reached(actions: seq<Action>): World {
    Fold(Step, EMPTY, actions)
  }

  lemma ReachedInv(actions: seq<Action>)
    ensures Inv(Reached(actions))
  {
    var inv := (w: World, n: nat) => Inv(w);
    forall w: World, n: nat | n < |actions| && inv(w, n) ensures inv(Step(w, actions[n]), n + 1) {
      StepKeeps(w, actions[n]);
    }
    FoldInvariant(Step, EMPTY, actions, inv);
  }

  /** Whenever a client completes, some server attempt completed with it: it answered this very
      client and both derived the same transcript, codec, version and crossed keys; the codec is
      the one the server's choice gives, supported by both, and the version is in range. */
  lemma ClientAgreement(actions: seq<Action>, c: Run)
    requires var w := Reached(actions); c in w.clients && w.clients[c].phase == ClientDone
    ensures var w := Reached(actions);
            && w.clients[c].derived.Some?
            && var d := w.clients[c].derived.value;
               var a := d.transcript.serverNonce;
               && a in w.attempts && w.attempts[a].completed && w.attempts[a].clientNonce == c
               && Matches(d, ServerAgrees(a, w.attempts[a]))
               && d.codec in w.clients[c].supported
               && w.attempts[a].server in w.servers
               && ChosenCodec(w.servers[w.attempts[a].server].supported, w.clients[c].preferred) == Some(d.codec)
               && d.codec in w.servers[w.attempts[a].server].supported
               && VERSION_MIN <= d.version <= VERSION_MAX
  {
    ReachedInv(actions);
    var w := Reached(actions);
    ClientOf(w, c);
    AttemptOf(w, w.clients[c].derived.value.transcript.serverNonce);
  }

  /** Whenever a server completes, the client it answered has derived exactly what the server
      stores: session id, codec, and the two keys crossed. */
  lemma ServerAgreement(actions: seq<Action>, id: nat)
    requires var w := Reached(actions); id in w.servers && w.servers[id].phase.ServerDone?
    ensures var w := Reached(actions);
            var s := w.servers[id];
            && s.phase.run in w.attempts
            && var c := w.attempts[s.phase.run].clientNonce;
               && c in w.clients && w.clients[c].derived.Some?
               && Holds(s, w.clients[c].derived.value)
               && w.clients[c].derived.value.transcript.serverNonce == s.phase.run
               && s.codec in s.supported && s.codec in w.clients[c].supported
  {
    ReachedInv(actions);
    var w := Reached(actions);
    var s := w.servers[id];
    ServerOf(w, id);
    AttemptOf(w, s.phase.run);
    ClientOf(w, w.attempts[s.phase.run].clientNonce);
  }

  /** The server session stores the mirror image of what the client derived. */
  ghost predicate Holds(s: Server, d: Agreed) {
    && s.sessionId == d.transcript.sessionId && s.codec == d.codec
    && s.enc == Some(d.dec) && s.dec == Some(d.enc)
  }

  /** At most one attempt, over all servers and retries, ever completes with a given client. */
  lemma OneCompletionPerClient(actions: seq<Action>, a: Run, b: Run)
    requires var w := Reached(actions);
             && a in w.attempts && b in w.attempts && w.attempts[a].completed && w.attempts[b].completed
             && w.attempts[a].clientNonce == w.attempts[b].clientNonce
    ensures a == b
  {
    ReachedInv(actions);
    var w := Reached(actions);
    AttemptOf(w, a);
    AttemptOf(w, b);
  }

  /** Agreement, among any number of clients, servers and retries: when a client has completed, the
      server session that answered it has completed with that very attempt and stays so, and the
      two hold the same session id, transcript and codec, each encrypting with the key the other
      decrypts with, a different one in each direction. */
  lemma Agreement(actions: seq<Action>, c: Run)
    requires var w := Reached(actions); c in w.clients && w.clients[c].phase == ClientDone
    ensures var w := Reached(actions);
            && w.clients[c].derived.Some?
            && var d := w.clients[c].derived.value;
               var run := d.transcript.serverNonce;
               && run in w.attempts && w.attempts[run].clientNonce == c
               && var id := w.attempts[run].server;
                  && id in w.servers && w.servers[id].phase == ServerDone(run)
                  && Holds(w.servers[id], d) && d.enc != d.dec
                  && Matches(d, ServerAgrees(run, w.attempts[run]))
                  && w.servers[id].codec in w.servers[id].supported && w.servers[id].codec in w.clients[c].supported
                  && VERSION_MIN <= d.version <= VERSION_MAX
  {
    ClientAgreement(actions, c);
    ReachedInv(actions);
    var w := Reached(actions);
    var run := w.clients[c].derived.value.transcript.serverNonce;
    AttemptOf(w, run);
    ServerOf(w, w.attempts[run].server);
  }

  // ---- When a handshake can complete -------------------------------------------

  /** Client `c` and server `id`, configured as given, have completed with each other. */
  ghost predicate CompletedBetween(
    w: World, c: Run, id: nat, ca: Addr, sa: Addr, preferred: Codec, cs: seq<Codec>, ss: seq<Codec>)
  {
    && c in w.clients && w.clients[c].addr == ca && w.clients[c].peer == sa
    && w.clients[c].preferred == preferred && w.clients[c].supported == cs
    && w.clients[c].phase == ClientDone && w.clients[c].derived.Some?
    && id in w.servers && w.servers[id].addr == sa && w.servers[id].supported == ss
    && w.servers[id].phase == ServerDone(w.clients[c].derived.value.transcript.serverNonce)
  }

  /** The codec the server picks is one the client supports. */
  predicate Compatible(preferred: Codec, cs: seq<Codec>, ss: seq<Codec>) {
    ChosenCodec(ss, preferred).Some? && ChosenCodec(ss, preferred).value in cs
  }

  lemma CompletionNeedsCompatible(
    actions: seq<Action>, c: Run, id: nat, ca: Addr, sa: Addr, preferred: Codec, cs: seq<Codec>, ss: seq<Codec>)
    requires CompletedBetween(Reached(actions), c, id, ca, sa, preferred, cs, ss)
    ensures Compatible(preferred, cs, ss)
  {
    ClientAgreement(actions, c);
    ReachedInv(actions);
    ServerOf(Reached(actions), id);
  }

  /** A client and a server can complete with each other, over some run of the network, if and only
      if the codec the server picks is one the client supports. */
  lemma ExchangeCompletesIff(ca: Addr, sa: Addr, preferred: Codec, cs: seq<Codec>, ss: seq<Codec>)
    ensures (exists actions, c, id :: CompletedBetween(Reached(actions), c, id, ca, sa, preferred, cs, ss))
            <==> Compatible(preferred, cs, ss)
  {
    if actions, c, id :| CompletedBetween(Reached(actions), c, id, ca, sa, preferred, cs, ss) {
      CompletionNeedsCompatible(actions, c, id, ca, sa, preferred, cs, ss);
    } else if Compatible(preferred, cs, ss) {
      var actions := LosslessExchange(ca, sa, preferred, cs, ss);
      assert CompletedBetween(Reached(actions), 0, 0, ca, sa, preferred, cs, ss);
    }
  }

  /** A common codec is not enough: the server does not support the preferred codec 1 and falls
      back to its own first, 2, although both sides support 3. */
  lemma CommonCodecMayFail(ca: Addr, sa: Addr)
    ensures 3 in [1, 3] && 3 in [2, 3]
    ensures !exists actions, c, id :: CompletedBetween(Reached(actions), c, id, ca, sa, 1, [1, 3], [2, 3])
  {
    ExchangeCompletesIff(ca, sa, 1, [1, 3], [2, 3]);
  }

  /** Five steps from any world with a server waiting for a client: a new client starts, and nothing
      is lost. The tags verify because Diffie-Hellman commutes. */
  lemma ExchangeFrom(w: World, id: nat, ca: Addr, preferred: Codec, cs: seq<Codec>) returns (more: seq<Action>)
    requires id in w.servers && w.servers[id].phase == AwaitClient && w.servers[id].expected == None
    requires Compatible(preferred, cs, w.servers[id].supported)
    ensures var s := w.servers[id];
            CompletedBetween(Fold(Step, w, more), w.nextRun, id, ca, s.addr, preferred, cs, s.supported)
  {
    var s, c, r := w.servers[id], w.nextRun, w.nextRun + 1;
    var a := Attempt(id, PublicKey(c), c, 0, ChosenCodec(s.supported, preferred).value, 1, false);
    var d := ClientAgrees(c, PublicKey(r), r, 0, a.codec, 1);
    var hello := Packet(ca, s.addr, ClientHello(PublicKey(c), c, 1, preferred));
    var w1 := Step(w, StartClient(ca, s.addr, preferred, cs));
    var w2 := Step(w1, ServerReceives(id, hello, 0));
    AnswerStep(w1, id, hello, a);
    var w3 := Step(w2, ClientReceives(c, Packet(s.addr, ca, HelloOf(r, a))));
    KeyStep(w2, c, r, a, d, s.addr);
    DhCommutes(c, r);
    var key := Packet(ca, s.addr, KeyExchange(0, ClientTag(d)));
    var w4 := Step(w3, ServerReceives(id, key, 0));
    ConfirmStep(w3, id, r, a, d, key);
    var confirm := Packet(s.addr, ca, SessionConfirm(0, ServerTag(ServerAgrees(r, a))));
    var w5 := Step(w4, ClientReceives(c, confirm));
    FinishStep(w4, c, r, a, d, confirm);
    more := [StartClient(ca, s.addr, preferred, cs), ServerReceives(id, hello, 0),
             ClientReceives(c, Packet(s.addr, ca, HelloOf(r, a))), ServerReceives(id, key, 0), ClientReceives(c, confirm)];
    FiveSteps(w, more[0], more[1], more[2], more[3], more[4]);
  }

  lemma FiveSteps(w: World, a: Action, b: Action, c: Action, d: Action, e: Action)
    ensures Fold(Step, w, [a, b, c, d, e]) == Step(Step(Step(Step(Step(w, a), b), c), d), e)
  {
    assert [a, b, c, d, e][..4] == [a, b, c, d] && [a, b, c, d][..3] == [a, b, c];
    assert [a, b, c][..2] == [a, b] && [a, b][..1] == [a] && [a][..0] == [];
    assert Fold(Step, w, [a]) == Step(w, a);
    assert Fold(Step, w, [a, b, c]) == Step(Step(Step(w, a), b), c);
  }

  lemma AnswerStep(w: World, id: nat, hello: Packet, a: Attempt)
    requires id in w.servers && w.servers[id].phase == AwaitClient && w.servers[id].expected == None
    requires hello in w.net && hello.to == w.servers[id].addr && hello.message.ClientHello? && hello.message.version == 1
    requires ChosenCodec(w.servers[id].supported, hello.message.codec) == Some(a.codec)
    requires a == Attempt(id, hello.message.key, hello.message.nonce, 0, a.codec, 1, false)
    ensures var w', s, r := Step(w, ServerReceives(id, hello, 0)), w.servers[id], w.nextRun;
            && w'.clients == w.clients && r in w'.attempts && w'.attempts[r] == a && id in w'.servers
            && w'.servers[id] == s.(phase := AwaitKey(r, hello.from), sessionId := 0, codec := a.codec)
            && Packet(s.addr, hello.from, HelloOf(r, a)) in w'.net
  {
  }

  lemma KeyStep(w: World, c: Run, r: Run, a: Attempt, d: Agreed, sa: Addr)
    requires c in w.clients && w.clients[c].phase == AwaitHello && w.clients[c].peer == sa
    requires a.version == 1 && a.codec in w.clients[c].supported
    requires d == ClientAgrees(c, PublicKey(r), r, a.sessionId, a.codec, 1)
    requires Packet(sa, w.clients[c].addr, HelloOf(r, a)) in w.net
    ensures var ca := w.clients[c].addr;
            var w' := Step(w, ClientReceives(c, Packet(sa, ca, HelloOf(r, a))));
            && w'.servers == w.servers && w'.attempts == w.attempts && c in w'.clients
            && w'.clients[c] == w.clients[c].(phase := AwaitConfirm, derived := Some(d))
            && Packet(ca, sa, KeyExchange(a.sessionId, ClientTag(d))) in w'.net
  {
  }

  lemma ConfirmStep(w: World, id: nat, r: Run, a: Attempt, d: Agreed, key: Packet)
    requires id in w.servers && w.servers[id].phase == AwaitKey(r, key.from) && r in w.attempts && w.attempts[r] == a
    requires key in w.net && key.to == w.servers[id].addr && Matches(d, ServerAgrees(r, a))
    requires key.message == KeyExchange(a.sessionId, ClientTag(d))
    ensures var w' := Step(w, ServerReceives(id, key, 0));
            && w'.clients == w.clients && id in w'.servers && w'.servers[id].phase == ServerDone(r)
            && w'.servers[id].addr == w.servers[id].addr && w'.servers[id].supported == w.servers[id].supported
            && Packet(w.servers[id].addr, key.from, SessionConfirm(a.sessionId, ServerTag(ServerAgrees(r, a)))) in w'.net
  {
  }

  lemma FinishStep(w: World, c: Run, r: Run, a: Attempt, d: Agreed, confirm: Packet)
    requires c in w.clients && w.clients[c].phase == AwaitConfirm && w.clients[c].derived == Some(d)
    requires confirm in w.net && confirm.to == w.clients[c].addr && confirm.from == w.clients[c].peer
    requires d.transcript.sessionId == a.sessionId && Matches(d, ServerAgrees(r, a))
    requires confirm.message == SessionConfirm(a.sessionId, ServerTag(ServerAgrees(r, a)))
    ensures var w' := Step(w, ClientReceives(c, confirm));
            && w'.servers == w.servers && c in w'.clients && w'.clients[c] == w.clients[c].(phase := ClientDone)
  {
  }

  /** From nothing: a server is started, then a client, and they complete. */
  lemma LosslessExchange(ca: Addr, sa: Addr, preferred: Codec, cs: seq<Codec>, ss: seq<Codec>)
    returns (actions: seq<Action>)
    requires Compatible(preferred, cs, ss)
    ensures CompletedBetween(Reached(actions), 0, 0, ca, sa, preferred, cs, ss)
  {
    var start := [StartServer(0, sa, None, ss)];
    ReachedNext([], StartServer(0, sa, None, ss));
    assert start == [] + start;
    var more := ExchangeFrom(Reached(start), 0, ca, preferred, cs);
    FoldConcat(Step, EMPTY, start, more);
    actions := start + more;
  }

  // ---- What is refused, and what is ignored ------------------------------------

  /** A client gives up, sending nothing, on a hello whose version is not 1 or whose codec it does not
      support, and on a confirmation with another session id or tag; any other hello it answers. */
  lemma ClientRefuses(w: World, c: Run, p: Packet)
    requires c in w.clients && p in w.net && p.to == w.clients[c].addr && p.from == w.clients[c].peer
    ensures var w', k := Step(w, ClientReceives(c, p)), w.clients[c];
            && (k.phase == AwaitHello && p.message.ServerHello? ==>
                  if p.message.version == 1 && p.message.codec in k.supported then
                    && c in w'.clients && w'.clients[c].phase == AwaitConfirm
                    && exists t :: w'.net == w.net + {Packet(k.addr, k.peer, KeyExchange(p.message.sessionId, t))}
                  else w' == w.(clients := w.clients[c := k.(phase := ClientFailed)]))
            && (k.phase == AwaitConfirm && k.derived.Some? && p.message.SessionConfirm? ==>
                  var d := k.derived.value;
                  p.message.sessionId != d.transcript.sessionId || p.message.tag != Tag(d.dec, ServerFin, d.transcript) ==>
                    w' == w.(clients := w.clients[c := k.(phase := ClientFailed)]))
  {
    var k, m := w.clients[c], p.message;
    if k.phase == AwaitHello && m.ServerHello? && m.version == 1 && m.codec in k.supported {
      var d := ClientAgrees(c, m.key, m.nonce, m.sessionId, m.codec, m.version);
      assert Step(w, ClientReceives(c, p)).net == w.net + {Packet(k.addr, k.peer, KeyExchange(m.sessionId, ClientTag(d)))};
    }
  }

  /** Packets from anyone but the peer, or for someone else, change nothing; a server in mid-attempt
      listens to that attempt's client only. */
  lemma StrangersIgnored(w: World, p: Packet, randomId: u32)
    ensures forall c :: c in w.clients && (p.from != w.clients[c].peer || p.to != w.clients[c].addr) ==>
              Step(w, ClientReceives(c, p)) == w
    ensures forall id :: id in w.servers && p.to != w.servers[id].addr ==> Step(w, ServerReceives(id, p, randomId)) == w
    ensures forall id :: id in w.servers && w.servers[id].phase.AwaitKey? && p.from != w.servers[id].phase.peer ==>
              Step(w, ServerReceives(id, p, randomId)) == w
  {
  }

  // ---- An open server keeps answering ------------------------------------------

  /** A server that accepts anyone never gives up. */
  ghost predicate OpenNeverFails(w: World) {
    forall id :: id in w.servers && w.servers[id].expected == None ==> !w.servers[id].phase.ServerFailed?
  }

  lemma StepKeepsOpen(w: World, action: Action)
    requires OpenNeverFails(w)
    ensures OpenNeverFails(Step(w, action))
  {
  }

  lemma ReachedOpen(actions: seq<Action>)
    ensures OpenNeverFails(Reached(actions))
  {
    var inv := (w: World, n: nat) => OpenNeverFails(w);
    forall w: World, n: nat | n < |actions| && inv(w, n) ensures inv(Step(w, actions[n]), n + 1) {
      StepKeepsOpen(w, actions[n]);
    }
    FoldInvariant(Step, EMPTY, actions, inv);
  }

  lemma TimeoutReopens(w: World, id: nat)
    requires id in w.servers && w.servers[id].expected == None && !w.servers[id].phase.ServerDone?
    ensures var w' := Step(w, ServerTimesOut(id));
            w' == w.(servers := w.servers[id := w.servers[id].(phase := AwaitClient)])
  {
  }

  /** Whatever has happened, and however many attempts have failed, an open server that has not
      completed can still complete with any client whose list holds the codec it picks. */
  lemma OpenServerCompletes(actions: seq<Action>, id: nat, ca: Addr, preferred: Codec, cs: seq<Codec>)
    returns (more: seq<Action>)
    requires var w := Reached(actions);
             && id in w.servers && w.servers[id].expected == None && !w.servers[id].phase.ServerDone?
             && Compatible(preferred, cs, w.servers[id].supported)
    ensures var w := Reached(actions);
            CompletedBetween(Reached(actions + more), w.nextRun, id, ca, w.servers[id].addr, preferred, cs,
                             w.servers[id].supported)
  {
    var w := Reached(actions);
    TimeoutReopens(w, id);
    ReachedNext(actions, ServerTimesOut(id));
    var after := actions + [ServerTimesOut(id)];
    var rest := ExchangeFrom(Reached(after), id, ca, preferred, cs);
    FoldConcat(Step, EMPTY, after, rest);
    more := [ServerTimesOut(id)] + rest;
    assert actions + more == after + rest;
  }

  /** A failed attempt is over at once: an open server is waiting for a client again, a server with a
      fixed peer has given up. */
  lemma FailedAttempt(w: World, id: nat, p: Packet, randomId: u32)
    requires id in w.servers && p in w.net && p.to == w.servers[id].addr
    requires w.servers[id].phase.AwaitKey? && w.servers[id].phase.run in w.attempts && p.from == w.servers[id].phase.peer
    requires p.message.KeyExchange?
    requires var run := w.servers[id].phase.run;
             var d := ServerAgrees(run, w.attempts[run]);
             p.message.sessionId != w.attempts[run].sessionId || p.message.tag != Tag(d.dec, ClientFin, d.transcript)
    ensures var w' := Step(w, ServerReceives(id, p, randomId));
            && id in w'.servers && w'.net == w.net && w'.attempts == w.attempts && w'.clients == w.clients
            && w'.servers[id].phase == if w.servers[id].expected == None then AwaitClient else ServerFailed
  {
  }

  /** A server with a fixed peer answers that peer's hello and ignores anyone else's. */
  lemma FixedPeerOnly(w: World, id: nat, hello: Packet, peer: Addr, randomId: u32)
    requires id in w.servers && w.servers[id].phase == AwaitClient && w.servers[id].expected == Some(peer)
    requires hello in w.net && hello.to == w.servers[id].addr && hello.message.ClientHello?
    ensures hello.from != peer ==> Step(w, ServerReceives(id, hello, randomId)) == w
    ensures hello.from == peer && hello.message.version >= 1 && w.servers[id].supported != [] ==>
              var w', s := Step(w, ServerReceives(id, hello, randomId)), w.servers[id];
              exists r: Run, codec: Codec :: && Packet(s.addr, peer, ServerHello(PublicKey(r), r, randomId, 1, codec)) in w'.net
                && ChosenCodec(s.supported, hello.message.codec) == Some(codec)
                && id in w'.servers && w'.servers[id].phase == AwaitKey(r, peer)
  {
    if hello.from == peer && hello.message.version >= 1 && w.servers[id].supported != [] {
      var s, m := w.servers[id], hello.message;
      var codec := ChosenCodec(s.supported, m.codec).value;
      var a := Attempt(id, m.key, m.nonce, randomId, codec, 1, false);
      assert Step(w, ServerReceives(id, hello, randomId)) == Answered(w, id, peer, a);
      assert HelloOf(w.nextRun, a) == ServerHello(PublicKey(w.nextRun), w.nextRun, randomId, 1, codec);
    }
  }

  lemma ReachedNext(actions: seq<Action>, action: Action)
    ensures Reached(actions + [action]) == Step(Reached(actions), action)
  {
    assert (actions + [action])[..|actions|] == actions;
  }
}
