/**
 * The TURN request state machine of src/server.rs over the tables of src/allocation.rs, one handler at a time.
 * HMAC, key derivation, UTF-8 decoding, the user database and the access list are arbitrary functions; the relay port
 * picked, the fresh nonce and the outcome of a socket operation come with the event.
 */
module Turn {
  import opened Bytes
  import opened Codec
  import opened Channels
  import Framing
  import Lenient
  import ClientFrames
  import opened Integrity

  const NONCE_SECONDS: nat := 600

  /** `serial` is the value of the allocation counter at insertion: it tells allocations of one address apart. */
  datatype Allocation = Allocation(client: SocketAddr, createdAt: Time, lifetime: nat, permissions: set<IpAddr>,
                                   serial: nat)

  /** Relay bookkeeping: everything `remove_allocation` and `create_allocation` keep in step. */
  datatype Tables = Tables(allocations: map<SocketAddr, Allocation>, bits: set<nat>, active: int, total: nat,
                           trackers: set<SocketAddr>)

  datatype Server = Server(tables: Tables, channels: Table, nonces: map<string, Time>)

  datatype Config = Config(
    hmac: Hmac, keyFor: (string, string) -> Octets, text: Octets -> string,
    passwordOf: (string, Time) -> Option<string>, aclAllows: (SocketAddr, Time) -> bool,
    authDisabled: bool, stunEnabled: bool, turnEnabled: bool,
    external: IpAddr, minPort: u16, maxPort: u16,
    maxAllocations: Option<nat>, maxLifetime: Option<u32>)

  /** How the port and bind loop of `create_allocation` ends. */
  datatype Outcome = Opened(port: u16) | PortsExhausted | BindFailed

  datatype Input =
    | Datagram(client: SocketAddr, data: Octets)
    | StreamFrame(client: SocketAddr, data: Octets)
    | AllocationCleanup
    | NonceCleanup
    | ChannelCleanup

  datatype Event = Event(now: Time, input: Input, outcome: Outcome, freshNonce: string, sendOk: bool)

  datatype Output =
    | Silent
    | Panicked
    | Challenge(nonce: string)
    | Refusal(code: nat)
    | Accepted
    | Relayed(from: SocketAddr, serial: nat, peer: SocketAddr, payload: Octets, viaChannel: bool)

  // ---------------------------------------------------------------- tables

  function RelayedAddr(cfg: Config, port: u16): SocketAddr {
    SocketAddr(cfg.external, port)
  }

  predicate Finds(allocations: map<SocketAddr, Allocation>, client: SocketAddr, r: Option<SocketAddr>) {
    match r
    case Some(a) => a in allocations && allocations[a].client == client
    case None => forall a :: a in allocations ==> allocations[a].client != client
  }

  /** The client's allocation, in some order of the map. */
  ghost function Find(allocations: map<SocketAddr, Allocation>, client: SocketAddr): (r: Option<SocketAddr>)
    ensures Finds(allocations, client, r)
  {
    if exists a :: a in allocations && allocations[a].client == client then
      var a :| a in allocations && allocations[a].client == client;
      Some(a)
    else None
  }

  function Removed(t: Tables, r: SocketAddr): Tables {
    if r !in t.allocations then t
    else Tables(t.allocations - {r}, t.bits - {r.port}, t.active - 1, t.total, t.trackers - {r})
  }

  function CappedLifetime(cfg: Config, seconds: u32): nat {
    SECOND * if cfg.maxLifetime.Some? && seconds > cfg.maxLifetime.value then cfg.maxLifetime.value else seconds
  }

  predicate QuotaReached(cfg: Config, t: Tables) {
    cfg.maxAllocations.Some? && t.active >= cfg.maxAllocations.value
  }

  function Inserted(cfg: Config, t: Tables, client: SocketAddr, seconds: u32, now: Time, port: u16): Tables {
    var r := RelayedAddr(cfg, port);
    Tables(t.allocations[r := Allocation(client, now, CappedLifetime(cfg, seconds), {}, t.total + 1)],
           t.bits + {port}, t.active + 1, t.total + 1, t.trackers + {r})
  }

  /** `refresh_allocation`: a new lifetime, counted from the creation and not capped. */
  function Refreshed(t: Tables, r: SocketAddr, seconds: u32): Tables
    requires r in t.allocations
  {
    t.(allocations := t.allocations[r := t.allocations[r].(lifetime := seconds * SECOND)])
  }

  function Permitted(t: Tables, r: SocketAddr, ips: set<IpAddr>): Tables
    requires r in t.allocations
  {
    var a := t.allocations[r];
    t.(allocations := t.allocations[r := a.(permissions := a.permissions + ips)])
  }

  ghost function ExpiredAddrs(t: Tables, now: Time): set<SocketAddr> {
    set r | r in t.allocations && Expired(t.allocations[r].createdAt, t.allocations[r].lifetime, now)
  }

  /** Without some addresses, the counter not yet corrected. */
  ghost function RemovedAll(t: Tables, gone: set<SocketAddr>): Tables {
    Tables(t.allocations - gone, t.bits - (set r | r in gone :: r.port), t.active, t.total, t.trackers - gone)
  }

  ghost function Cleaned(t: Tables, now: Time): Tables {
    var gone := ExpiredAddrs(t, now);
    RemovedAll(t, gone).(active := t.active - |gone|)
  }

  ghost function WithoutAll(channels: Table, gone: set<SocketAddr>): Table {
    map k | k in channels && k.0 !in gone :: channels[k]
  }

  // ---------------------------------------------------------------- authentication

  function WholeSeconds(now: Time, since: Time): nat {
    if now >= since then (now - since) / SECOND else 0
  }

  /** The nonce is known and not older than 600 whole seconds. */
  predicate NonceAccepted(nonces: map<string, Time>, nonce: string, now: Time) {
    nonce in nonces && WholeSeconds(now, nonces[nonce]) <= NONCE_SECONDS
  }

  datatype Auth = Granted(username: string) | Denied | Rejected | Crashed

  /** `verify_turn_auth`: granted, a 403, a 401 with a fresh nonce, or the panic of a short integrity value. */
  function VerifyAuth(cfg: Config, s: Server, client: SocketAddr, m: Message, now: Time): Auth {
    var nonceAttr, userAttr := FindAttribute(m.attributes, NONCE), FindAttribute(m.attributes, USERNAME);
    if cfg.authDisabled then Granted(if userAttr.Some? then cfg.text(userAttr.value.value) else "")
    else if !cfg.aclAllows(client, now) then Denied
    else if nonceAttr.None? || userAttr.None? then Rejected
    else if !NonceAccepted(s.nonces, cfg.text(nonceAttr.value.value), now) then Rejected
    else
      var username := cfg.text(userAttr.value.value);
      match cfg.passwordOf(username, now)
      case None => Rejected
      case Some(password) =>
        match Verify(cfg.hmac, cfg.keyFor(username, password), m)
        case Verified => Granted(username)
        case Refused => Rejected
        case Panics => Crashed
  }

  /** The nonce was issued less than 601 seconds ago and is still known. */
  predicate NonceKnown(nonces: map<string, Time>, nonce: string, now: Time) {
    nonce in nonces && now < nonces[nonce] + 601 * 1_000_000_000
  }

  /** What a request must carry when authentication is on: NONCE (0x0015), USERNAME (0x0006) and MESSAGE-INTEGRITY. */
  ghost predicate Authenticated(cfg: Config, s: Server, client: SocketAddr, m: Message, now: Time) {
    && cfg.aclAllows(client, now)
    && exists nonce, user, password ::
         && FindAttribute(m.attributes, 0x0015) == Some(nonce) && FindAttribute(m.attributes, 0x0006) == Some(user)
         && NonceKnown(s.nonces, cfg.text(nonce.value), now)
         && cfg.passwordOf(cfg.text(user.value), now) == Some(password)
         && Verify(cfg.hmac, cfg.keyFor(cfg.text(user.value), password), m) == Verified
  }

  lemma AcceptedIsKnown(nonces: map<string, Time>, nonce: string, now: Time)
    ensures NonceAccepted(nonces, nonce, now) <==> NonceKnown(nonces, nonce, now)
  {
  }

  /** With authentication on, access is granted exactly to authenticated requests. */
  lemma GrantedIffAuthenticated(cfg: Config, s: Server, client: SocketAddr, m: Message, now: Time)
    requires !cfg.authDisabled
    ensures VerifyAuth(cfg, s, client, m, now).Granted? <==> Authenticated(cfg, s, client, m, now)
  {
    var nonceAttr, userAttr := FindAttribute(m.attributes, NONCE), FindAttribute(m.attributes, USERNAME);
    if nonceAttr.Some? { AcceptedIsKnown(s.nonces, cfg.text(nonceAttr.value.value), now); }
    if VerifyAuth(cfg, s, client, m, now).Granted? {
      var password := cfg.passwordOf(cfg.text(userAttr.value.value), now).value;
      assert FindAttribute(m.attributes, NONCE) == Some(nonceAttr.value);
      assert FindAttribute(m.attributes, USERNAME) == Some(userAttr.value);
      assert cfg.passwordOf(cfg.text(userAttr.value.value), now) == Some(password);
    }
  }

  /** The state and answer after a request that was not granted. */
  function NotGranted(s: Server, auth: Auth, now: Time, freshNonce: string): (Server, Output)
    requires !auth.Granted?
  {
    match auth
    case Denied => (s, Refusal(403))
    case Rejected => (s.(nonces := s.nonces[freshNonce := now]), Challenge(freshNonce))
    case Crashed => (s, Panicked)
  }

  // ---------------------------------------------------------------- handlers

  /** `get_lifetime`: None stands for the panic on a value shorter than four octets. */
  function LifetimeOf(m: Message): Option<u32> {
    match FindAttribute(m.attributes, LIFETIME)
    case None => Some(600)
    case Some(a) =>
      if |a.value| < 4 then None
      else Some(0x1_0000 * (U16At(a.value, 0) as int) + U16At(a.value, 2))
  }

  /** The decodable XOR-PEER-ADDRESS attributes, in order. */
  function PeersOf(attrs: seq<Attribute>): seq<SocketAddr> {
    if attrs == [] then []
    else
      var rest := PeersOf(attrs[1..]);
      if attrs[0].attrType == PEER_ADDRESS && DecodeXorAddress(attrs[0].value).Some?
      then [DecodeXorAddress(attrs[0].value).value] + rest
      else rest
  }

  function IpsOf(peers: seq<SocketAddr>): set<IpAddr> {
    set p | p in peers :: p.ip
  }

  function RemovedFrom(s: Server, r: SocketAddr): Server {
    if r in s.tables.allocations
    then s.(tables := Removed(s.tables, r), channels := WithoutRelayed(s.channels, r))
    else s
  }

  /** The client's old allocation goes first, whatever then becomes of the new one. */
  ghost function HandleAllocate(cfg: Config, s: Server, client: SocketAddr, seconds: u32, now: Time, outcome: Outcome)
    : (Server, Output)
  {
    var old_ := Find(s.tables.allocations, client);
    var s1 := if old_.Some? then RemovedFrom(s, old_.value) else s;
    if QuotaReached(cfg, s1.tables) then (s1, Refusal(486))
    else match outcome
      case Opened(port) => (s1.(tables := Inserted(cfg, s1.tables, client, seconds, now, port)), Accepted)
      case PortsExhausted => (s1, Refusal(508))
      case BindFailed => (s1, Refusal(508))
  }

  ghost function HandleRefresh(s: Server, client: SocketAddr, seconds: u32): (Server, Output) {
    match Find(s.tables.allocations, client)
    case None => (s, Refusal(437))
    case Some(r) =>
      if seconds == 0 then (RemovedFrom(s, r), Accepted)
      else (s.(tables := Refreshed(s.tables, r, seconds)), Accepted)
  }

  ghost function HandleCreatePermission(s: Server, client: SocketAddr, m: Message): (Server, Output) {
    match Find(s.tables.allocations, client)
    case None => (s, Refusal(437))
    case Some(r) =>
      var peers := PeersOf(m.attributes);
      if peers == [] then (s, Refusal(400))
      else (s.(tables := Permitted(s.tables, r, IpsOf(peers))), Accepted)
  }

  const NO_PEER: SocketAddr := SocketAddr(V4(0, 0, 0, 0), 0)

  /** An undecodable peer address is bound as 0.0.0.0:0; the channel number is not range-checked. */
  function BindPeer(a: Attribute): SocketAddr {
    match DecodeXorAddress(a.value)
    case Some(p) => p
    case None => NO_PEER
  }

  ghost function HandleChannelBind(s: Server, client: SocketAddr, m: Message, now: Time): (Server, Output) {
    match (Find(s.tables.allocations, client), FindAttribute(m.attributes, PEER_ADDRESS),
           FindAttribute(m.attributes, CHANNEL_NUMBER))
    case (Some(r), Some(peer), Some(number)) =>
      if |number.value| < 2 then (s, Panicked)
      else
        (match Bound(s.channels, U16At(number.value, 0), BindPeer(peer), r, now)
         case None => (s, Refusal(400))
         case Some(channels) => (s.(channels := channels), Accepted))
    case _ => (s, Silent)
  }

  /** A Send indication needs no credentials, only an allocation that permits the peer's address. */
  ghost function HandleSend(s: Server, client: SocketAddr, m: Message, sendOk: bool): Output {
    match (Find(s.tables.allocations, client), FindAttribute(m.attributes, PEER_ADDRESS),
           FindAttribute(m.attributes, DATA))
    case (Some(r), Some(p), Some(d)) =>
      (match DecodeXorAddress(p.value)
       case None => Silent
       case Some(peer) =>
         var a := s.tables.allocations[r];
         if peer.ip in a.permissions && sendOk then Relayed(r, a.serial, peer, d.value, false) else Silent)
    case _ => Silent
  }

  /** ChannelData needs a channel bound on the client's allocation. */
  ghost function HandleChannelData(s: Server, client: SocketAddr, data: Octets, sendOk: bool): Output
    requires |data| >= 4
  {
    match Find(s.tables.allocations, client)
    case None => Silent
    case Some(r) =>
      var key := (r, U16At(data, 0));
      if key in s.channels && sendOk
      then Relayed(r, s.tables.allocations[r].serial, s.channels[key].peer, ClientFrames.ChannelPayload(data), true)
      else Silent
  }

  /** A request that needs credentials, once they have been judged. */
  ghost function Serve(cfg: Config, s: Server, client: SocketAddr, m: Message, e: Event, auth: Auth): (Server, Output) {
    if !auth.Granted? then NotGranted(s, auth, e.now, e.freshNonce)
    else match m.header.kind
      case CreatePermission => HandleCreatePermission(s, client, m)
      case ChannelBind => HandleChannelBind(s, client, m, e.now)
      case _ =>
        match LifetimeOf(m)
        case None => (s, Panicked)
        case Some(seconds) =>
          if m.header.kind.Allocate? then HandleAllocate(cfg, s, client, seconds, e.now, e.outcome)
          else HandleRefresh(s, client, seconds)
  }

  /** `process_message`. */
  ghost function Process(cfg: Config, s: Server, client: SocketAddr, m: Message, e: Event): (Server, Output) {
    match m.header.kind
    case Binding => (s, if cfg.stunEnabled then Accepted else Silent)
    case Data => (s, Silent)
    case Send => (s, if cfg.turnEnabled then HandleSend(s, client, m, e.sendOk) else Silent)
    case _ =>
      if cfg.turnEnabled then Serve(cfg, s, client, m, e, VerifyAuth(cfg, s, client, m, e.now)) else (s, Silent)
  }

  /** The message a packet carries: strictly parsed, or by the fallback on datagrams only. */
  function MessageIn(input: Input): Option<Message> {
    match input
    case Datagram(_, data) =>
      if |data| < 4 || Framing.IsChannelData(data) then None
      else if ParseMessage(data).Some? then ParseMessage(data)
      else Lenient.LenientMessage(data)
    case StreamFrame(_, data) => if Framing.IsChannelData(data) then None else ParseMessage(data)
    case _ => None
  }

  predicate IsPacket(input: Input) {
    input.Datagram? || input.StreamFrame?
  }

  /** A packet from a client, with the message found in it; ChannelData is recognised first. */
  ghost function HandlePacket(cfg: Config, s: Server, e: Event, m: Option<Message>): (Server, Output)
    requires IsPacket(e.input)
  {
    if Framing.IsChannelData(e.input.data) then (s, HandleChannelData(s, e.input.client, e.input.data, e.sendOk))
    else if m.None? then (s, Silent)
    else Process(cfg, s, e.input.client, m.value, e)
  }

  ghost function Handle(cfg: Config, s: Server, e: Event): (Server, Output) {
    match e.input
    case AllocationCleanup =>
      var gone := ExpiredAddrs(s.tables, e.now);
      (s.(tables := Cleaned(s.tables, e.now), channels := WithoutAll(s.channels, gone)), Silent)
    case NonceCleanup =>
      (s.(nonces := map n | n in s.nonces && WholeSeconds(e.now, s.nonces[n]) < NONCE_SECONDS :: s.nonces[n]), Silent)
    case ChannelCleanup => (s.(channels := WithoutExpired(s.channels, e.now)), Silent)
    case _ => HandlePacket(cfg, s, e, MessageIn(e.input))
  }
}
