/**
 * Safety over every run of the TURN state machine: who allowed each relayed payload, that a reused port starts clean,
 * and how long a nonce is accepted.
 */
module TurnSafety {
  import opened Bytes
  import opened Codec
  import opened Channels
  import ClientFrames
  import Framing
  import opened Integrity
  import opened Turn
  import opened TurnRuns

  const INITIAL: Server := Server(Tables(map[], {}, 0, 0, {}), map[], map[])

  /** A run: events at non-decreasing times, each handled in the state the one before left. */
  ghost predicate Run(cfg: Config, states: seq<Server>, events: seq<Event>, outputs: seq<Output>) {
    && |states| == |events| + 1 && |outputs| == |events| && states[0] == INITIAL
    && (forall i :: 0 <= i < |events| ==> StepAt(cfg, states, events, outputs, i))
    && (forall i, j :: 0 <= i <= j < |events| ==> events[i].now <= events[j].now)
  }

  ghost predicate StepAt(cfg: Config, states: seq<Server>, events: seq<Event>, outputs: seq<Output>, i: nat)
    requires i < |events| && |states| == |events| + 1 && |outputs| == |events|
  {
    Feasible(cfg, states[i], events[i]) && (states[i + 1], outputs[i]) == Handle(cfg, states[i], events[i])
  }

  function TimeOf(events: seq<Event>, i: nat): Time
    requires i <= |events|
  {
    if i == 0 then 0 else events[i - 1].now
  }

  /** In every reachable state the tables agree and every channel binding belongs to a live, older allocation. */
  lemma {:induction false} RunIsConsistent(cfg: Config, states: seq<Server>, events: seq<Event>, outputs: seq<Output>,
                                           i: nat)
    requires Run(cfg, states, events, outputs) && i < |states|
    ensures Consistent(cfg, states[i], TimeOf(events, i))
  {
    if i > 0 {
      RunIsConsistent(cfg, states, events, outputs, i - 1);
      assert StepAt(cfg, states, events, outputs, i - 1);
      HandleIsConsistent(cfg, states[i - 1], TimeOf(events, i - 1), events[i - 1]);
    }
  }

  // ---------------------------------------------------------------- a reused port starts clean

  /** In every run, a successful Allocate gives its client an allocation without permissions and without channels. */
  lemma FreshAllocationIsClean(cfg: Config, s: Server, now: Time, client: SocketAddr, seconds: u32, at: Time,
                               outcome: Outcome)
    requires Consistent(cfg, s, now) && PortFree(cfg, s, client, outcome)
    requires HandleAllocate(cfg, s, client, seconds, at, outcome).1.Accepted?
    ensures var s' := HandleAllocate(cfg, s, client, seconds, at, outcome).0;
            var r := RelayedAddr(cfg, outcome.port);
            && r in s'.tables.allocations && s'.tables.allocations[r].client == client
            && s'.tables.allocations[r].permissions == {}
            && s'.tables.allocations[r].serial == s.tables.total + 1
            && (forall k :: k in s'.channels ==> k.0 != r)
  {
    DroppedIsConsistent(cfg, s, client, now);
    assert RelayedAddr(cfg, outcome.port) !in Dropped(s, client).tables.allocations;
  }

  // ---------------------------------------------------------------- how long an allocation lives

  /** The tables after a cleanup round. */
  ghost function AfterCleanup(cfg: Config, s: Server, e: Event, later: Time): Server {
    Handle(cfg, s, e.(now := later, input := AllocationCleanup)).0
  }

  /** A new allocation outlives a cleanup exactly until its requested lifetime, cut to the cap, has passed. */
  lemma AllocatedUntil(cfg: Config, s: Server, client: SocketAddr, seconds: u32, at: Time, outcome: Outcome, e: Event,
                       later: Time)
    requires HandleAllocate(cfg, s, client, seconds, at, outcome).1.Accepted?
    ensures var s' := AfterCleanup(cfg, HandleAllocate(cfg, s, client, seconds, at, outcome).0, e, later);
            var cap := cfg.maxLifetime;
            var granted := if cap.Some? && cap.value <= seconds then cap.value else seconds;
            RelayedAddr(cfg, outcome.port) in s'.tables.allocations <==> later <= at + granted * 1_000_000_000
  {
  }

  /**
   * A Refresh to a lifetime other than zero moves the end of the client's allocation to that long after its creation,
   * shorter or longer, and leaves its permissions, its channels and every other allocation alone.
   */
  lemma RefreshedUntil(cfg: Config, s: Server, client: SocketAddr, r: SocketAddr, seconds: u32, e: Event, later: Time)
    requires Find(s.tables.allocations, client) == Some(r) && seconds > 0
    ensures var (s1, out) := HandleRefresh(s, client, seconds);
            && out.Accepted? && s1.channels == s.channels && s1.tables.bits == s.tables.bits
            && s1.tables.allocations.Keys == s.tables.allocations.Keys
            && s1.tables.allocations - {r} == s.tables.allocations - {r}
            && s1.tables.allocations[r].permissions == s.tables.allocations[r].permissions
            && (r in AfterCleanup(cfg, s1, e, later).tables.allocations <==>
                later <= s.tables.allocations[r].createdAt + seconds * 1_000_000_000)
  {
  }

  /** A Refresh to zero ends it at once: the port is free again and nothing of the allocation is left. */
  lemma RefreshToZeroEnds(cfg: Config, s: Server, now: Time, client: SocketAddr, r: SocketAddr)
    requires Consistent(cfg, s, now) && Find(s.tables.allocations, client) == Some(r)
    ensures var (s1, out) := HandleRefresh(s, client, 0);
            && out.Accepted? && Finds(s1.tables.allocations, client, None) && r !in s1.tables.trackers
            && s1.tables.bits == s.tables.bits - {r.port as nat} && r.port in s.tables.bits
            && s1.tables.allocations == s.tables.allocations - {r}
            && (forall k :: k in s1.channels <==> k in s.channels && k.0 != r)
  {
    var s1 := HandleRefresh(s, client, 0).0;
    assert InRange(cfg, r) && RelayedAddr(cfg, r.port) == r;
    forall q | q in s1.tables.allocations ensures s1.tables.allocations[q].client != client {
      assert q in s.tables.allocations && q != r;
    }
  }

  // ---------------------------------------------------------------- where permissions come from

  /** The event carries an authenticated request of this kind from this client. */
  ghost predicate Requests(cfg: Config, s: Server, e: Event, client: SocketAddr, kind: Method) {
    && IsPacket(e.input) && e.input.client == client
    && MessageIn(e.input).Some? && MessageIn(e.input).value.header.kind == kind
    && Authenticated(cfg, s, client, MessageIn(e.input).value, e.now)
  }

  predicate IsAllocation(s: Server, r: SocketAddr, client: SocketAddr, serial: nat) {
    && r in s.tables.allocations
    && s.tables.allocations[r].client == client && s.tables.allocations[r].serial == serial
  }

  /** Some XOR-PEER-ADDRESS (0x0012) of the message can be read and has this address. */
  predicate NamesIp(attrs: seq<Attribute>, ip: IpAddr) {
    exists a <- attrs ::
      a.attrType == 0x0012 && DecodeXorAddress(a.value).Some? && DecodeXorAddress(a.value).value.ip == ip
  }

  predicate NamesPeer(attrs: seq<Attribute>) {
    exists a <- attrs :: a.attrType == 0x0012 && DecodeXorAddress(a.value).Some?
  }

  lemma {:induction false} PeersAreNamed(attrs: seq<Attribute>)
    ensures forall p :: p in PeersOf(attrs) <==>
              exists a <- attrs :: a.attrType == 0x0012 && DecodeXorAddress(a.value) == Some(p)
  {
    if attrs != [] {
      PeersAreNamed(attrs[1..]);
      assert attrs == [attrs[0]] + attrs[1..];
    }
  }

  lemma IpsAreNamed(attrs: seq<Attribute>, ip: IpAddr)
    ensures ip in IpsOf(PeersOf(attrs)) <==> NamesIp(attrs, ip)
    ensures PeersOf(attrs) != [] <==> NamesPeer(attrs)
  {
    PeersAreNamed(attrs);
    if NamesIp(attrs, ip) {
      var a :| a in attrs && a.attrType == 0x0012 && DecodeXorAddress(a.value).Some?
               && DecodeXorAddress(a.value).value.ip == ip;
      assert DecodeXorAddress(a.value).value in PeersOf(attrs);
    }
    if NamesPeer(attrs) {
      var a :| a in attrs && a.attrType == 0x0012 && DecodeXorAddress(a.value).Some?;
      assert DecodeXorAddress(a.value).value in PeersOf(attrs);
    }
    if PeersOf(attrs) != [] { assert PeersOf(attrs)[0] in PeersOf(attrs); }
  }

  /** The event permits the address on this very allocation of this client. */
  ghost predicate PermitsIp(cfg: Config, s: Server, e: Event, r: SocketAddr, client: SocketAddr, serial: nat,
                            ip: IpAddr)
  {
    && IsAllocation(s, r, client, serial)
    && Requests(cfg, s, e, client, CreatePermission)
    && NamesIp(MessageIn(e.input).value.attributes, ip)
  }

  /** The message names this channel number and this peer. */
  predicate NamesChannel(m: Message, channel: u16, peer: SocketAddr) {
    var p, n := FindAttribute(m.attributes, 0x0012), FindAttribute(m.attributes, 0x000C);
    p.Some? && n.Some? && |n.value.value| >= 2 && U16At(n.value.value, 0) == channel && BindPeer(p.value) == peer
  }

  /** The event binds the channel to the peer on this very allocation of this client. */
  ghost predicate BindsPeer(cfg: Config, s: Server, e: Event, r: SocketAddr, client: SocketAddr, serial: nat,
                            channel: u16, peer: SocketAddr)
  {
    && IsAllocation(s, r, client, serial)
    && Requests(cfg, s, e, client, ChannelBind)
    && NamesChannel(MessageIn(e.input).value, channel, peer)
  }

  predicate SameAllocation(s: Server, r: SocketAddr, a: Allocation) {
    IsAllocation(s, r, a.client, a.serial)
  }

  /** No permission and no channel is added: they were there on the same allocation, or the entry is new and bare. */
  ghost predicate Quiet(s: Server, s': Server) {
    && (forall r :: r in s'.tables.allocations ==>
          var a := s'.tables.allocations[r];
          if SameAllocation(s, r, a) then a.permissions == s.tables.allocations[r].permissions
          else a.permissions == {} && forall k :: k in s'.channels ==> k.0 != r)
    && (forall k :: k in s'.channels ==> k in s.channels && s'.channels[k] == s.channels[k])
  }

  lemma DroppedIsSmaller(s: Server, client: SocketAddr)
    ensures var s1 := Dropped(s, client);
            && s1.tables.total == s.tables.total
            && (forall r :: r in s1.tables.allocations ==>
                  r in s.tables.allocations && s1.tables.allocations[r] == s.tables.allocations[r])
            && (forall k :: k in s1.channels ==> k in s.channels && s1.channels[k] == s.channels[k])
  {
  }

  lemma InsertedIsQuiet(cfg: Config, s: Server, client: SocketAddr, seconds: u32, now: Time, port: u16)
    requires Consistent(cfg, s, now) && PortFree(cfg, s, client, Opened(port))
    ensures var s1 := Dropped(s, client);
            Quiet(s, s1.(tables := Inserted(cfg, s1.tables, client, seconds, now, port)))
  {
    DroppedIsSmaller(s, client);
    DroppedIsConsistent(cfg, s, client, now);
    var s1, r0 := Dropped(s, client), RelayedAddr(cfg, port);
    assert r0 !in s1.tables.allocations;
    var s' := s1.(tables := Inserted(cfg, s1.tables, client, seconds, now, port));
    forall r | r in s'.tables.allocations
      ensures var a := s'.tables.allocations[r];
              if SameAllocation(s, r, a) then a.permissions == s.tables.allocations[r].permissions
              else a.permissions == {} && forall k :: k in s'.channels ==> k.0 != r
    {
      if r == r0 {
        assert !SameAllocation(s, r, s'.tables.allocations[r]);
      } else {
        assert SameAllocation(s, r, s'.tables.allocations[r]);
      }
    }
  }

  lemma AllocateIsQuiet(cfg: Config, s: Server, client: SocketAddr, seconds: u32, now: Time, outcome: Outcome)
    requires Consistent(cfg, s, now) && PortFree(cfg, s, client, outcome)
    ensures Quiet(s, HandleAllocate(cfg, s, client, seconds, now, outcome).0)
  {
    if HandleAllocate(cfg, s, client, seconds, now, outcome).1.Accepted? {
      InsertedIsQuiet(cfg, s, client, seconds, now, outcome.port);
    } else {
      DroppedIsSmaller(s, client);
    }
  }

  lemma RefreshIsQuiet(s: Server, client: SocketAddr, seconds: u32)
    ensures Quiet(s, HandleRefresh(s, client, seconds).0)
  {
  }

  lemma CleanupIsQuiet(cfg: Config, s: Server, e: Event)
    requires !IsPacket(e.input)
    ensures Quiet(s, Handle(cfg, s, e).0)
  {
  }

  /** What a request that is not quiet does, and that it was granted. */
  ghost predicate Permits(s: Server, s': Server, client: SocketAddr, m: Message) {
    var r := Find(s.tables.allocations, client);
    r.Some? && s' == s.(tables := Permitted(s.tables, r.value, IpsOf(PeersOf(m.attributes))))
  }

  ghost predicate Binds(s: Server, s': Server, client: SocketAddr, m: Message, now: Time) {
    var r := Find(s.tables.allocations, client);
    var n, p := FindAttribute(m.attributes, CHANNEL_NUMBER), FindAttribute(m.attributes, PEER_ADDRESS);
    && r.Some? && n.Some? && p.Some? && |n.value.value| >= 2
    && s' == s.(channels := s.channels[(r.value, U16At(n.value.value, 0)) := ChannelBinding(BindPeer(p.value), now)])
  }

  lemma PermissionKind(s: Server, client: SocketAddr, m: Message)
    ensures var s' := HandleCreatePermission(s, client, m).0; s' == s || Permits(s, s', client, m)
  {
  }

  lemma ChannelBindKind(s: Server, client: SocketAddr, m: Message, now: Time)
    ensures var s' := HandleChannelBind(s, client, m, now).0; s' == s || Binds(s, s', client, m, now)
  {
  }

  lemma UnchangedIsQuiet(s: Server, nonces: map<string, Time>)
    ensures Quiet(s, s) && Quiet(s, s.(nonces := nonces))
  {
  }

  /** Every request is quiet, a granted CreatePermission or a granted ChannelBind. */
  lemma ServeKind(cfg: Config, s: Server, client: SocketAddr, m: Message, e: Event, auth: Auth)
    requires Consistent(cfg, s, e.now) && PortFree(cfg, s, client, e.outcome)
    ensures var s' := Serve(cfg, s, client, m, e, auth).0;
            || Quiet(s, s')
            || (auth.Granted? && m.header.kind.CreatePermission? && Permits(s, s', client, m))
            || (auth.Granted? && m.header.kind.ChannelBind? && Binds(s, s', client, m, e.now))
  {
    UnchangedIsQuiet(s, s.nonces[e.freshNonce := e.now]);
    if auth.Granted? {
      if m.header.kind.CreatePermission? {
        PermissionKind(s, client, m);
      } else if m.header.kind.ChannelBind? {
        ChannelBindKind(s, client, m, e.now);
      } else if LifetimeOf(m).Some? {
        if m.header.kind.Allocate? {
          AllocateIsQuiet(cfg, s, client, LifetimeOf(m).value, e.now, e.outcome);
        } else {
          RefreshIsQuiet(s, client, LifetimeOf(m).value);
        }
      }
    }
  }

  lemma ProcessKind(cfg: Config, s: Server, client: SocketAddr, m: Message, e: Event)
    requires Consistent(cfg, s, e.now) && PortFree(cfg, s, client, e.outcome) && !cfg.authDisabled
    ensures var s' := Process(cfg, s, client, m, e).0;
            || Quiet(s, s')
            || (Authenticated(cfg, s, client, m, e.now)
                && ((m.header.kind.CreatePermission? && Permits(s, s', client, m))
                    || (m.header.kind.ChannelBind? && Binds(s, s', client, m, e.now))))
  {
    var auth := VerifyAuth(cfg, s, client, m, e.now);
    GrantedIffAuthenticated(cfg, s, client, m, e.now);
    ServeKind(cfg, s, client, m, e, auth);
    UnchangedIsQuiet(s, s.nonces);
  }

  /** An event adds a permission or a channel only through an authenticated request for it. */
  ghost predicate Kind(cfg: Config, s: Server, s': Server, e: Event) {
    || Quiet(s, s')
    || (IsPacket(e.input) && Requests(cfg, s, e, e.input.client, CreatePermission)
        && Permits(s, s', e.input.client, MessageIn(e.input).value))
    || (IsPacket(e.input) && Requests(cfg, s, e, e.input.client, ChannelBind)
        && Binds(s, s', e.input.client, MessageIn(e.input).value, e.now))
  }

  lemma HandleKind(cfg: Config, s: Server, now: Time, e: Event)
    requires Consistent(cfg, s, now) && now <= e.now && Feasible(cfg, s, e) && !cfg.authDisabled
    ensures Kind(cfg, s, Handle(cfg, s, e).0, e)
  {
    LaterIsConsistent(cfg, s, now, e.now);
    if !IsPacket(e.input) {
      CleanupIsQuiet(cfg, s, e);
    } else if Framing.IsChannelData(e.input.data) || MessageIn(e.input).None? {
      UnchangedIsQuiet(s, s.nonces);
    } else {
      ProcessKind(cfg, s, e.input.client, MessageIn(e.input).value, e);
    }
  }

  // ---------------------------------------------------------------- the same over a whole run

  /** The allocation is there and permits the address. */
  predicate HoldsPermission(s: Server, r: SocketAddr, client: SocketAddr, serial: nat, ip: IpAddr) {
    IsAllocation(s, r, client, serial) && ip in s.tables.allocations[r].permissions
  }

  /** The allocation is there and has the channel bound to the peer. */
  predicate HoldsChannel(s: Server, r: SocketAddr, client: SocketAddr, serial: nat, channel: u16, peer: SocketAddr) {
    IsAllocation(s, r, client, serial) && (r, channel) in s.channels && s.channels[(r, channel)].peer == peer
  }

  lemma PermissionOrigin(cfg: Config, s: Server, s': Server, e: Event, r: SocketAddr, client: SocketAddr, serial: nat,
                         ip: IpAddr)
    requires Kind(cfg, s, s', e) && HoldsPermission(s', r, client, serial, ip)
    ensures HoldsPermission(s, r, client, serial, ip) || PermitsIp(cfg, s, e, r, client, serial, ip)
  {
    if IsPacket(e.input) && MessageIn(e.input).Some? { IpsAreNamed(MessageIn(e.input).value.attributes, ip); }
  }

  lemma ChannelOrigin(cfg: Config, s: Server, s': Server, e: Event, r: SocketAddr, client: SocketAddr, serial: nat,
                      channel: u16, peer: SocketAddr)
    requires Kind(cfg, s, s', e) && HoldsChannel(s', r, client, serial, channel, peer)
    ensures HoldsChannel(s, r, client, serial, channel, peer) || BindsPeer(cfg, s, e, r, client, serial, channel, peer)
  {
  }

  /** Every event of a run is of one of the kinds. */
  ghost predicate Kinds(cfg: Config, states: seq<Server>, events: seq<Event>) {
    |states| == |events| + 1 && states[0] == INITIAL && forall i :: 0 <= i < |events| ==> KindAt(cfg, states, events, i)
  }

  ghost predicate KindAt(cfg: Config, states: seq<Server>, events: seq<Event>, i: nat)
    requires i < |events| && |states| == |events| + 1
  {
    Kind(cfg, states[i], states[i + 1], events[i])
  }

  lemma RunKinds(cfg: Config, states: seq<Server>, events: seq<Event>, outputs: seq<Output>)
    requires Run(cfg, states, events, outputs) && !cfg.authDisabled
    ensures Kinds(cfg, states, events)
  {
    forall i | 0 <= i < |events| ensures KindAt(cfg, states, events, i) {
      RunIsConsistent(cfg, states, events, outputs, i);
      assert StepAt(cfg, states, events, outputs, i);
      HandleKind(cfg, states[i], TimeOf(events, i), events[i]);
    }
  }

  /** What holds in the end, did not at first, and only goes on or is brought about, was brought about and went on. */
  lemma {:induction false} BroughtAbout(holds: seq<bool>, causes: seq<bool>, n: nat) returns (m: nat)
    requires |holds| == |causes| + 1 && n < |holds| && !holds[0] && holds[n]
    requires forall i :: 0 <= i < |causes| && holds[i + 1] ==> holds[i] || causes[i]
    ensures m < n && causes[m] && forall j :: m < j <= n ==> holds[j]
  {
    m := n - 1;
    if !causes[n - 1] { m := BroughtAbout(holds, causes, n - 1); }
  }

  ghost predicate Lives(states: seq<Server>, m: nat, n: nat, r: SocketAddr, client: SocketAddr, serial: nat)
    requires n < |states|
  {
    forall j :: m <= j <= n ==> IsAllocation(states[j], r, client, serial)
  }

  /** In which states the permission is held, and at which events it is asked for. */
  lemma PermissionTrace(cfg: Config, states: seq<Server>, events: seq<Event>, r: SocketAddr, client: SocketAddr,
                        serial: nat, ip: IpAddr) returns (holds: seq<bool>, causes: seq<bool>)
    requires Kinds(cfg, states, events)
    ensures |holds| == |states| && |causes| == |events| && !holds[0]
    ensures forall i :: 0 <= i < |states| ==> holds[i] == HoldsPermission(states[i], r, client, serial, ip)
    ensures forall i :: 0 <= i < |events| && causes[i] ==> PermitsIp(cfg, states[i], events[i], r, client, serial, ip)
    ensures forall i :: 0 <= i < |events| && holds[i + 1] ==> holds[i] || causes[i]
  {
    holds := seq(|states|, i requires 0 <= i < |states| => HoldsPermission(states[i], r, client, serial, ip));
    causes := seq(|events|, i requires 0 <= i < |events| => holds[i + 1] && !holds[i]);
    forall i | 0 <= i < |events| && causes[i] ensures PermitsIp(cfg, states[i], events[i], r, client, serial, ip) {
      assert KindAt(cfg, states, events, i);
      PermissionOrigin(cfg, states[i], states[i + 1], events[i], r, client, serial, ip);
    }
  }

  /** The earlier request behind a permission, and the allocation that has had it ever since. */
  lemma PermissionRequest(cfg: Config, states: seq<Server>, events: seq<Event>, n: nat, r: SocketAddr,
                          client: SocketAddr, serial: nat, ip: IpAddr) returns (m: nat)
    requires Kinds(cfg, states, events) && n < |states| && HoldsPermission(states[n], r, client, serial, ip)
    ensures m < n && PermitsIp(cfg, states[m], events[m], r, client, serial, ip)
    ensures Lives(states, m, n, r, client, serial)
  {
    var holds, causes := PermissionTrace(cfg, states, events, r, client, serial, ip);
    m := BroughtAbout(holds, causes, n);
    forall j | m <= j <= n ensures IsAllocation(states[j], r, client, serial) {
      assert j > m ==> holds[j];
    }
  }

  /** In which states the channel is held, and at which events it is asked for. */
  lemma ChannelTrace(cfg: Config, states: seq<Server>, events: seq<Event>, r: SocketAddr, client: SocketAddr,
                     serial: nat, channel: u16, peer: SocketAddr) returns (holds: seq<bool>, causes: seq<bool>)
    requires Kinds(cfg, states, events)
    ensures |holds| == |states| && |causes| == |events| && !holds[0]
    ensures forall i :: 0 <= i < |states| ==> holds[i] == HoldsChannel(states[i], r, client, serial, channel, peer)
    ensures forall i :: 0 <= i < |events| && causes[i] ==>
              BindsPeer(cfg, states[i], events[i], r, client, serial, channel, peer)
    ensures forall i :: 0 <= i < |events| && holds[i + 1] ==> holds[i] || causes[i]
  {
    holds := seq(|states|, i requires 0 <= i < |states| => HoldsChannel(states[i], r, client, serial, channel, peer));
    causes := seq(|events|, i requires 0 <= i < |events| => holds[i + 1] && !holds[i]);
    forall i | 0 <= i < |events| && causes[i]
      ensures BindsPeer(cfg, states[i], events[i], r, client, serial, channel, peer)
    {
      assert KindAt(cfg, states, events, i);
      ChannelOrigin(cfg, states[i], states[i + 1], events[i], r, client, serial, channel, peer);
    }
  }

  /** The earlier request behind a channel, and the allocation that has had it ever since. */
  lemma ChannelRequest(cfg: Config, states: seq<Server>, events: seq<Event>, n: nat, r: SocketAddr, client: SocketAddr,
                       serial: nat, channel: u16, peer: SocketAddr) returns (m: nat)
    requires Kinds(cfg, states, events) && n < |states| && HoldsChannel(states[n], r, client, serial, channel, peer)
    ensures m < n && BindsPeer(cfg, states[m], events[m], r, client, serial, channel, peer)
    ensures Lives(states, m, n, r, client, serial)
  {
    var holds, causes := ChannelTrace(cfg, states, events, r, client, serial, channel, peer);
    m := BroughtAbout(holds, causes, n);
    forall j | m <= j <= n ensures IsAllocation(states[j], r, client, serial) {
      assert j > m ==> holds[j];
    }
  }

  /** What a relayed payload rested on in the state it was relayed in. */
  ghost predicate RelayAllowed(s: Server, client: SocketAddr, data: Octets, o: Output)
    requires o.Relayed?
  {
    if o.viaChannel then |data| >= 4 && HoldsChannel(s, o.from, client, o.serial, U16At(data, 0), o.peer)
    else HoldsPermission(s, o.from, client, o.serial, o.peer.ip)
  }

  /** What is relayed is in the packet: its application data, or its DATA (0x0013) for its XOR-PEER-ADDRESS (0x0012). */
  ghost predicate Carries(input: Input, o: Output)
    requires IsPacket(input) && o.Relayed?
  {
    if o.viaChannel then |input.data| >= 4 && o.payload == ClientFrames.ChannelPayload(input.data)
    else MessageIn(input).Some? && CarriedBy(MessageIn(input).value.attributes, o)
  }

  predicate CarriedBy(attrs: seq<Attribute>, o: Output)
    requires o.Relayed?
  {
    var d, p := FindAttribute(attrs, 0x0013), FindAttribute(attrs, 0x0012);
    d.Some? && p.Some? && o.payload == d.value.value && DecodeXorAddress(p.value.value) == Some(o.peer)
  }

  lemma ServeRelaysNothing(cfg: Config, s: Server, client: SocketAddr, m: Message, e: Event, auth: Auth)
    ensures !Serve(cfg, s, client, m, e, auth).1.Relayed?
  {
  }

  lemma ProcessRelays(cfg: Config, s: Server, client: SocketAddr, m: Message, e: Event, data: Octets)
    requires Process(cfg, s, client, m, e).1.Relayed?
    ensures RelayAllowed(s, client, data, Process(cfg, s, client, m, e).1)
    ensures !Process(cfg, s, client, m, e).1.viaChannel && CarriedBy(m.attributes, Process(cfg, s, client, m, e).1)
  {
    ServeRelaysNothing(cfg, s, client, m, e, VerifyAuth(cfg, s, client, m, e.now));
  }

  lemma HandleRelays(cfg: Config, s: Server, e: Event)
    requires Handle(cfg, s, e).1.Relayed?
    ensures IsPacket(e.input) && RelayAllowed(s, e.input.client, e.input.data, Handle(cfg, s, e).1)
    ensures Carries(e.input, Handle(cfg, s, e).1)
  {
    if !Framing.IsChannelData(e.input.data) {
      ProcessRelays(cfg, s, e.input.client, MessageIn(e.input).value, e, e.input.data);
    }
  }

  /** The peer was read from the request, unless it is the one that an unreadable address stands for. */
  ghost predicate ReadsPeer(e: Event, peer: SocketAddr) {
    peer != NO_PEER ==>
      && MessageIn(e.input).Some?
      && var p := FindAttribute(MessageIn(e.input).value.attributes, 0x0012);
         p.Some? && DecodeXorAddress(p.value.value) == Some(peer)
  }

  /**
   * Over every run with authentication on, a payload leaves a relay socket for a peer only if the same client, on that
   * very allocation, earlier sent an authenticated CreatePermission for the peer's IP address (Send indications) or an
   * authenticated ChannelBind of the channel used to exactly that peer (ChannelData); the allocation has been there
   * from that request on; and the payload is the one in the packet.
   */
  lemma EveryRelayWasRequested(cfg: Config, states: seq<Server>, events: seq<Event>, outputs: seq<Output>, n: nat)
    returns (m: nat)
    requires Run(cfg, states, events, outputs) && !cfg.authDisabled && n < |events| && outputs[n].Relayed?
    ensures m < n && IsPacket(events[n].input) && Carries(events[n].input, outputs[n])
    ensures Lives(states, m, n, outputs[n].from, events[n].input.client, outputs[n].serial)
    ensures var o, input := outputs[n], events[n].input;
            if o.viaChannel
            then |input.data| >= 4 && ReadsPeer(events[m], o.peer)
                 && BindsPeer(cfg, states[m], events[m], o.from, input.client, o.serial, U16At(input.data, 0), o.peer)
            else PermitsIp(cfg, states[m], events[m], o.from, input.client, o.serial, o.peer.ip)
  {
    assert StepAt(cfg, states, events, outputs, n);
    HandleRelays(cfg, states[n], events[n]);
    RunKinds(cfg, states, events, outputs);
    var o, input := outputs[n], events[n].input;
    if o.viaChannel {
      m := ChannelRequest(cfg, states, events, n, o.from, input.client, o.serial, U16At(input.data, 0), o.peer);
    } else {
      m := PermissionRequest(cfg, states, events, n, o.from, input.client, o.serial, o.peer.ip);
    }
  }

  // ---------------------------------------------------------------- there and back

  /** The event delivers the octets from the client, as a datagram or as a frame taken from a stream. */
  predicate Delivers(e: Event, client: SocketAddr, octets: Octets) {
    IsPacket(e.input) && e.input.client == client && e.input.data == octets
  }

  /**
   * A payload that reached the client as ChannelData, sent back by the client as it came or padded by a stream writer,
   * leaves the relay socket for the peer the channel is bound to, with the same octets, and changes nothing.
   */
  lemma EchoReachesPeer(cfg: Config, s: Server, e: Event, client: SocketAddr, relayed: SocketAddr, channel: u16,
                        payload: Octets)
    requires Framing.IsChannelNumber(channel) && |payload| < 0x1_0000 && e.sendOk
    requires Find(s.tables.allocations, client) == Some(relayed) && (relayed, channel) in s.channels
    requires var frame := ClientFrames.ChannelFrame(channel, payload);
             Delivers(e, client, frame) || Delivers(e, client, Framing.WriteFrame(frame))
    ensures var serial, peer := s.tables.allocations[relayed].serial, s.channels[(relayed, channel)].peer;
            Handle(cfg, s, e) == (s, Relayed(relayed, serial, peer, payload, true))
  {
    ClientFrames.ChannelFrameRoundTrip(channel, payload);
    ClientFrames.ChannelFrameOnStream(channel, payload);
  }

  // ---------------------------------------------------------------- nonces

  /** What one event does to the nonces: a challenge adds its nonce and the cleanup drops old ones, no more. */
  ghost predicate NonceStep(s: Server, s': Server, e: Event, o: Output) {
    if o.Challenge? then s'.nonces == s.nonces[o.nonce := e.now]
    else
      && (forall z :: z in s'.nonces ==> z in s.nonces && s'.nonces[z] == s.nonces[z])
      && (forall z :: z in s.nonces && WholeSeconds(e.now, s.nonces[z]) < NONCE_SECONDS ==> z in s'.nonces)
  }

  lemma ServeNonces(cfg: Config, s: Server, client: SocketAddr, m: Message, e: Event, auth: Auth)
    ensures var (s', o) := Serve(cfg, s, client, m, e, auth); NonceStep(s, s', e, o)
  {
  }

  lemma HandleNonces(cfg: Config, s: Server, e: Event)
    ensures var (s', o) := Handle(cfg, s, e); NonceStep(s, s', e, o)
  {
    if IsPacket(e.input) && MessageIn(e.input).Some? {
      ProcessNonces(cfg, s, e.input.client, MessageIn(e.input).value, e);
    }
  }

  lemma ProcessNonces(cfg: Config, s: Server, client: SocketAddr, m: Message, e: Event)
    ensures var (s', o) := Process(cfg, s, client, m, e); NonceStep(s, s', e, o)
  {
    ServeNonces(cfg, s, client, m, e, VerifyAuth(cfg, s, client, m, e.now));
  }

  lemma StepNonces(cfg: Config, states: seq<Server>, events: seq<Event>, outputs: seq<Output>, i: nat)
    requires Run(cfg, states, events, outputs) && i < |events|
    ensures NonceStep(states[i], states[i + 1], events[i], outputs[i])
  {
    assert StepAt(cfg, states, events, outputs, i);
    HandleNonces(cfg, states[i], events[i]);
  }

  lemma {:induction false} NonceIssued(cfg: Config, states: seq<Server>, events: seq<Event>, outputs: seq<Output>,
                                       n: nat, z: string)
    returns (m: nat)
    requires Run(cfg, states, events, outputs) && n < |states| && z in states[n].nonces
    ensures m < n && outputs[m] == Challenge(z) && events[m].now == states[n].nonces[z]
  {
    StepNonces(cfg, states, events, outputs, n - 1);
    if outputs[n - 1] == Challenge(z) {
      m := n - 1;
    } else {
      m := NonceIssued(cfg, states, events, outputs, n - 1, z);
    }
  }

  /** A granted request carries a nonce (0x0015) that an earlier 401 issued less than 601 seconds ago. */
  lemma GrantedNonceIsRecent(cfg: Config, states: seq<Server>, events: seq<Event>, outputs: seq<Output>, n: nat,
                             client: SocketAddr, m: Message) returns (i: nat)
    requires Run(cfg, states, events, outputs) && !cfg.authDisabled && n < |events|
    requires VerifyAuth(cfg, states[n], client, m, events[n].now).Granted?
    ensures var nonce := FindAttribute(m.attributes, 0x0015);
            && nonce.Some? && i < n && outputs[i] == Challenge(cfg.text(nonce.value.value))
            && events[n].now < events[i].now + 601 * 1_000_000_000
  {
    GrantedIffAuthenticated(cfg, states[n], client, m, events[n].now);
    var z := cfg.text(FindAttribute(m.attributes, 0x0015).value.value);
    i := NonceIssued(cfg, states, events, outputs, n, z);
  }

  /** A nonce younger than 600 seconds is neither dropped nor refused as stale. */
  lemma {:induction false} YoungNonceIsAccepted(cfg: Config, states: seq<Server>, events: seq<Event>,
                                                outputs: seq<Output>, i: nat, n: nat, z: string, now: Time)
    requires Run(cfg, states, events, outputs) && i < n < |states| && outputs[i] == Challenge(z)
    requires events[n - 1].now <= now < events[i].now + 600 * 1_000_000_000
    ensures NonceKnown(states[n].nonces, z, now) && states[n].nonces[z] >= events[i].now
    decreases n
  {
    StepNonces(cfg, states, events, outputs, n - 1);
    if i < n - 1 {
      assert events[n - 2].now <= events[n - 1].now && events[i].now <= events[n - 1].now;
      YoungNonceIsAccepted(cfg, states, events, outputs, i, n - 1, z, events[n - 1].now);
    }
  }

  /** A cleanup round leaves exactly the nonces that were issued less than 600 seconds before it. */
  lemma CleanupLeavesYoung(cfg: Config, s: Server, e: Event, z: string)
    requires e.input.NonceCleanup?
    ensures var s' := Handle(cfg, s, e).0;
            && s' == s.(nonces := s'.nonces)
            && (z in s'.nonces <==> z in s.nonces && e.now < s.nonces[z] + 600 * 1_000_000_000)
            && (z in s'.nonces ==> s'.nonces[z] == s.nonces[z])
  {
  }
}
