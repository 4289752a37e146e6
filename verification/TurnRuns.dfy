/**
 * What every handler and every cleanup round of the TURN state machine keeps: the tables agree with each other, no
 * client has two allocations, and every channel binding is on a live allocation that is older than it.
 */
module TurnRuns {
  import opened Bytes
  import opened Codec
  import opened Channels
  import Framing
  import opened Integrity
  import opened Turn

  // ---------------------------------------------------------------- what every handler keeps

  predicate InRange(cfg: Config, r: SocketAddr) {
    r.ip == cfg.external && cfg.minPort <= r.port <= cfg.maxPort
  }

  /** Bitmap, table, counter and trackers describe the same allocations. */
  ghost predicate InStep(cfg: Config, t: Tables) {
    && (forall r :: r in t.allocations ==> InRange(cfg, r))
    && BitsMatch(cfg, t.bits, t.allocations)
    && t.active == |t.allocations|
    && t.trackers == t.allocations.Keys
  }

  /** The tables are in step, no client has two allocations and serials are unique. */
  ghost predicate TablesConsistent(cfg: Config, t: Tables) {
    InStep(cfg, t) && Distinct(t.allocations, t.total)
  }

  ghost predicate Distinct(allocations: map<SocketAddr, Allocation>, total: nat) {
    && (forall r :: r in allocations ==> allocations[r].serial <= total)
    && (forall r, q :: r in allocations && q in allocations && r != q ==>
          allocations[r].client != allocations[q].client && allocations[r].serial != allocations[q].serial)
  }

  /** A port's bit is set exactly when its relayed address is in the table. */
  ghost predicate BitsMatch(cfg: Config, bits: set<nat>, allocations: map<SocketAddr, Allocation>) {
    && (forall p :: p in bits ==> p < 0x1_0000)
    && (forall p: u16 :: p in bits <==> RelayedAddr(cfg, p) in allocations)
  }

  /** Every channel binding belongs to a live allocation and is not older than it. */
  ghost predicate ChannelsLive(t: Tables, channels: Table) {
    forall k :: k in channels ==>
      k.0 in t.allocations && t.allocations[k.0].createdAt <= channels[k].createdAt
  }

  ghost predicate Consistent(cfg: Config, s: Server, now: Time) {
    && TablesConsistent(cfg, s.tables)
    && ChannelsLive(s.tables, s.channels)
    && AllPast(s.tables.allocations, now)
    && (forall n :: n in s.nonces ==> s.nonces[n] <= now)
  }

  ghost predicate AllPast(allocations: map<SocketAddr, Allocation>, now: Time) {
    forall r :: r in allocations ==> allocations[r].createdAt <= now
  }

  /** The tables once an Allocate has dropped the client's old allocation. */
  ghost function Dropped(s: Server, client: SocketAddr): Server {
    var old_ := Find(s.tables.allocations, client);
    if old_.Some? then RemovedFrom(s, old_.value) else s
  }

  /** The allocator only hands out a free port of its range, and runs out only when there is none. */
  ghost predicate OutcomeFeasible(cfg: Config, s: Server, client: SocketAddr, outcome: Outcome) {
    match outcome
    case Opened(port) => cfg.minPort <= port <= cfg.maxPort && port !in Dropped(s, client).tables.bits
    case PortsExhausted =>
      forall p: u16 :: InRange(cfg, RelayedAddr(cfg, p)) ==> p in Dropped(s, client).tables.bits
    case BindFailed => true
  }

  ghost predicate Feasible(cfg: Config, s: Server, e: Event) {
    IsPacket(e.input) ==> OutcomeFeasible(cfg, s, e.input.client, e.outcome)
  }

  lemma RemovalKeepsInStep(cfg: Config, t: Tables, r: SocketAddr)
    requires InStep(cfg, t) && r in t.allocations
    ensures InStep(cfg, Removed(t, r))
  {
    SizeAfter(t.allocations, r, t.allocations[r]);
    assert InRange(cfg, r);
    forall p: u16 ensures p in Removed(t, r).bits <==> RelayedAddr(cfg, p) in Removed(t, r).allocations {
    }
  }

  lemma RemovalKeepsTables(cfg: Config, t: Tables, r: SocketAddr)
    requires TablesConsistent(cfg, t) && r in t.allocations
    ensures TablesConsistent(cfg, Removed(t, r))
  {
    RemovalKeepsInStep(cfg, t, r);
  }

  lemma InsertionKeepsBits(cfg: Config, bits: set<nat>, allocations: map<SocketAddr, Allocation>, port: u16,
                           a: Allocation)
    requires BitsMatch(cfg, bits, allocations)
    ensures BitsMatch(cfg, bits + {port}, allocations[RelayedAddr(cfg, port) := a])
  {
  }

  lemma InsertionKeepsDistinct(allocations: map<SocketAddr, Allocation>, total: nat, r: SocketAddr, a: Allocation)
    requires Distinct(allocations, total) && r !in allocations
    requires Finds(allocations, a.client, None) && a.serial == total + 1
    ensures Distinct(allocations[r := a], total + 1)
  {
  }

  lemma InsertionKeepsInStep(cfg: Config, t: Tables, client: SocketAddr, seconds: u32, now: Time, port: u16)
    requires InStep(cfg, t) && cfg.minPort <= port <= cfg.maxPort && port !in t.bits
    ensures InStep(cfg, Inserted(cfg, t, client, seconds, now, port))
  {
    var r, t' := RelayedAddr(cfg, port), Inserted(cfg, t, client, seconds, now, port);
    SizeAfter(t.allocations, r, t'.allocations[r]);
    InsertionKeepsBits(cfg, t.bits, t.allocations, port, t'.allocations[r]);
  }

  lemma InsertionKeepsTables(cfg: Config, t: Tables, client: SocketAddr, seconds: u32, now: Time, port: u16)
    requires TablesConsistent(cfg, t) && cfg.minPort <= port <= cfg.maxPort && port !in t.bits
    requires Finds(t.allocations, client, None)
    ensures TablesConsistent(cfg, Inserted(cfg, t, client, seconds, now, port))
  {
    InsertionKeepsInStep(cfg, t, client, seconds, now, port);
    var r := RelayedAddr(cfg, port);
    InsertionKeepsDistinct(t.allocations, t.total, r, Inserted(cfg, t, client, seconds, now, port).allocations[r]);
  }

  lemma UpdateKeepsDistinct(allocations: map<SocketAddr, Allocation>, total: nat, r: SocketAddr, a: Allocation)
    requires Distinct(allocations, total) && r in allocations
    requires a.client == allocations[r].client && a.serial == allocations[r].serial
    ensures Distinct(allocations[r := a], total)
  {
  }

  lemma SameKeysMatch(cfg: Config, bits: set<nat>, before: map<SocketAddr, Allocation>,
                      after: map<SocketAddr, Allocation>)
    requires BitsMatch(cfg, bits, before) && after.Keys == before.Keys
    ensures BitsMatch(cfg, bits, after)
  {
    forall p: u16 ensures p in bits <==> RelayedAddr(cfg, p) in after {
      assert RelayedAddr(cfg, p) in after.Keys <==> RelayedAddr(cfg, p) in before.Keys;
    }
  }

  lemma UpdateKeepsInStep(cfg: Config, t: Tables, r: SocketAddr, a: Allocation)
    requires InStep(cfg, t) && r in t.allocations
    ensures InStep(cfg, t.(allocations := t.allocations[r := a]))
  {
    var after := t.allocations[r := a];
    SizeAfter(t.allocations, r, a);
    assert after.Keys == t.allocations.Keys;
    SameKeysMatch(cfg, t.bits, t.allocations, after);
    forall q | q in after ensures InRange(cfg, q) { assert q in t.allocations; }
  }

  /** Changing lifetime or permissions of an entry is invisible to the bookkeeping. */
  lemma UpdateKeepsTables(cfg: Config, t: Tables, r: SocketAddr, a: Allocation)
    requires TablesConsistent(cfg, t) && r in t.allocations
    requires a.client == t.allocations[r].client && a.serial == t.allocations[r].serial
    ensures TablesConsistent(cfg, t.(allocations := t.allocations[r := a]))
  {
    UpdateKeepsInStep(cfg, t, r, a);
    UpdateKeepsDistinct(t.allocations, t.total, r, a);
  }

  lemma UpdateKeepsLive(t: Tables, channels: Table, t': Tables, r: SocketAddr, a: Allocation, now: Time)
    requires ChannelsLive(t, channels) && AllPast(t.allocations, now)
    requires r in t.allocations && t'.allocations == t.allocations[r := a] && a.createdAt == t.allocations[r].createdAt
    ensures ChannelsLive(t', channels) && AllPast(t'.allocations, now)
  {
  }

  lemma CleaningKeepsBits(cfg: Config, t: Tables, now: Time)
    requires InStep(cfg, t)
    ensures BitsMatch(cfg, Cleaned(t, now).bits, Cleaned(t, now).allocations)
  {
    var gone := ExpiredAddrs(t, now);
    forall p: u16 ensures p in Cleaned(t, now).bits <==> RelayedAddr(cfg, p) in Cleaned(t, now).allocations {
      assert RelayedAddr(cfg, p) in gone ==> p in (set r | r in gone :: r.port);
      if p in (set r | r in gone :: r.port) {
        var r :| r in gone && r.port == p;
        assert InRange(cfg, r);
      }
    }
  }

  lemma SubmapKeepsDistinct(allocations: map<SocketAddr, Allocation>, total: nat, gone: set<SocketAddr>)
    requires Distinct(allocations, total)
    ensures Distinct(allocations - gone, total)
  {
  }

  lemma SubmapSize(allocations: map<SocketAddr, Allocation>, gone: set<SocketAddr>)
    requires gone <= allocations.Keys
    ensures |allocations - gone| == |allocations| - |gone|
    ensures (allocations - gone).Keys == allocations.Keys - gone
  {
    assert (allocations - gone).Keys == allocations.Keys - gone;
    assert allocations.Keys == (allocations.Keys - gone) + gone;
    assert |allocations - gone| == |(allocations - gone).Keys| && |allocations| == |allocations.Keys|;
  }

  lemma CleaningKeepsInStep(cfg: Config, t: Tables, now: Time)
    requires InStep(cfg, t)
    ensures InStep(cfg, Cleaned(t, now))
  {
    CleaningKeepsBits(cfg, t, now);
    SubmapSize(t.allocations, ExpiredAddrs(t, now));
  }

  lemma CleaningKeepsTables(cfg: Config, t: Tables, now: Time)
    requires TablesConsistent(cfg, t)
    ensures TablesConsistent(cfg, Cleaned(t, now))
  {
    CleaningKeepsInStep(cfg, t, now);
    SubmapKeepsDistinct(t.allocations, t.total, ExpiredAddrs(t, now));
  }

  lemma RemovalIsConsistent(cfg: Config, s: Server, r: SocketAddr, now: Time)
    requires Consistent(cfg, s, now)
    ensures Consistent(cfg, RemovedFrom(s, r), now)
    ensures r !in RemovedFrom(s, r).tables.allocations
  {
    if r in s.tables.allocations { RemovalKeepsTables(cfg, s.tables, r); }
  }

  lemma DroppedIsConsistent(cfg: Config, s: Server, client: SocketAddr, now: Time)
    requires Consistent(cfg, s, now)
    ensures Consistent(cfg, Dropped(s, client), now)
    ensures Finds(Dropped(s, client).tables.allocations, client, None)
  {
    var old_ := Find(s.tables.allocations, client);
    if old_.Some? {
      RemovalIsConsistent(cfg, s, old_.value, now);
      forall r | r in Dropped(s, client).tables.allocations
        ensures Dropped(s, client).tables.allocations[r].client != client
      {
        assert r in s.tables.allocations && r != old_.value;
      }
    }
  }

  lemma InsertionKeepsLive(t: Tables, channels: Table, t': Tables, r: SocketAddr, a: Allocation, now: Time)
    requires ChannelsLive(t, channels) && AllPast(t.allocations, now)
    requires r !in t.allocations && t'.allocations == t.allocations[r := a] && a.createdAt <= now
    ensures ChannelsLive(t', channels) && AllPast(t'.allocations, now)
  {
  }

  lemma InsertedIsConsistent(cfg: Config, s: Server, client: SocketAddr, seconds: u32, now: Time, port: u16)
    requires Consistent(cfg, s, now) && Finds(s.tables.allocations, client, None)
    requires cfg.minPort <= port <= cfg.maxPort && port !in s.tables.bits
    ensures Consistent(cfg, s.(tables := Inserted(cfg, s.tables, client, seconds, now, port)), now)
  {
    var r, t' := RelayedAddr(cfg, port), Inserted(cfg, s.tables, client, seconds, now, port);
    InsertionKeepsTables(cfg, s.tables, client, seconds, now, port);
    assert r !in s.tables.allocations;
    InsertionKeepsLive(s.tables, s.channels, t', r, t'.allocations[r], now);
  }

  lemma AllocateIsConsistent(cfg: Config, s: Server, client: SocketAddr, seconds: u32, now: Time, outcome: Outcome)
    requires Consistent(cfg, s, now) && PortFree(cfg, s, client, outcome)
    ensures Consistent(cfg, HandleAllocate(cfg, s, client, seconds, now, outcome).0, now)
  {
    DroppedIsConsistent(cfg, s, client, now);
    if outcome.Opened? { InsertedIsConsistent(cfg, Dropped(s, client), client, seconds, now, outcome.port); }
  }

  lemma RefreshIsConsistent(cfg: Config, s: Server, client: SocketAddr, seconds: u32, now: Time)
    requires Consistent(cfg, s, now)
    ensures Consistent(cfg, HandleRefresh(s, client, seconds).0, now)
  {
    var found := Find(s.tables.allocations, client);
    if found.Some? {
      RemovalIsConsistent(cfg, s, found.value, now);
      var r := found.value;
      var a := s.tables.allocations[r].(lifetime := seconds * SECOND);
      UpdateKeepsTables(cfg, s.tables, r, a);
      UpdateKeepsLive(s.tables, s.channels, Refreshed(s.tables, r, seconds), r, a, now);
    }
  }

  lemma PermittedIsConsistent(cfg: Config, s: Server, r: SocketAddr, ips: set<IpAddr>, now: Time)
    requires Consistent(cfg, s, now) && r in s.tables.allocations
    ensures Consistent(cfg, s.(tables := Permitted(s.tables, r, ips)), now)
  {
    var a := s.tables.allocations[r].(permissions := s.tables.allocations[r].permissions + ips);
    UpdateKeepsTables(cfg, s.tables, r, a);
    UpdateKeepsLive(s.tables, s.channels, Permitted(s.tables, r, ips), r, a, now);
  }

  lemma PermissionIsConsistent(cfg: Config, s: Server, client: SocketAddr, m: Message, now: Time)
    requires Consistent(cfg, s, now)
    ensures Consistent(cfg, HandleCreatePermission(s, client, m).0, now)
  {
    var found := Find(s.tables.allocations, client);
    if found.Some? { PermittedIsConsistent(cfg, s, found.value, IpsOf(PeersOf(m.attributes)), now); }
  }

  lemma ChannelBindIsConsistent(cfg: Config, s: Server, client: SocketAddr, m: Message, now: Time)
    requires Consistent(cfg, s, now)
    ensures Consistent(cfg, HandleChannelBind(s, client, m, now).0, now)
  {
  }

  lemma NotGrantedIsConsistent(cfg: Config, s: Server, auth: Auth, now: Time, freshNonce: string)
    requires Consistent(cfg, s, now) && !auth.Granted?
    ensures Consistent(cfg, NotGranted(s, auth, now, freshNonce).0, now)
  {
  }

  ghost predicate PortFree(cfg: Config, s: Server, client: SocketAddr, outcome: Outcome) {
    outcome.Opened? ==> cfg.minPort <= outcome.port <= cfg.maxPort && outcome.port !in Dropped(s, client).tables.bits
  }

  lemma ServeIsConsistent(cfg: Config, s: Server, client: SocketAddr, m: Message, e: Event, auth: Auth)
    requires Consistent(cfg, s, e.now) && PortFree(cfg, s, client, e.outcome)
    ensures Consistent(cfg, Serve(cfg, s, client, m, e, auth).0, e.now)
  {
    if !auth.Granted? {
      NotGrantedIsConsistent(cfg, s, auth, e.now, e.freshNonce);
    } else if m.header.kind.CreatePermission? {
      PermissionIsConsistent(cfg, s, client, m, e.now);
    } else if m.header.kind.ChannelBind? {
      ChannelBindIsConsistent(cfg, s, client, m, e.now);
    } else if LifetimeOf(m).Some? {
      if m.header.kind.Allocate? {
        AllocateIsConsistent(cfg, s, client, LifetimeOf(m).value, e.now, e.outcome);
      } else {
        RefreshIsConsistent(cfg, s, client, LifetimeOf(m).value, e.now);
      }
    }
  }

  /** Only a request that needs credentials can change anything. */
  lemma ProcessIsServe(cfg: Config, s: Server, client: SocketAddr, m: Message, e: Event)
    ensures Process(cfg, s, client, m, e).0 == s
         || Process(cfg, s, client, m, e) == Serve(cfg, s, client, m, e, VerifyAuth(cfg, s, client, m, e.now))
  {
  }

  lemma ProcessIsConsistent(cfg: Config, s: Server, client: SocketAddr, m: Message, e: Event)
    requires Consistent(cfg, s, e.now) && PortFree(cfg, s, client, e.outcome)
    ensures Consistent(cfg, Process(cfg, s, client, m, e).0, e.now)
  {
    ProcessIsServe(cfg, s, client, m, e);
    ServeIsConsistent(cfg, s, client, m, e, VerifyAuth(cfg, s, client, m, e.now));
  }

  lemma LaterIsConsistent(cfg: Config, s: Server, now: Time, later: Time)
    requires Consistent(cfg, s, now) && now <= later
    ensures Consistent(cfg, s, later)
  {
  }

  lemma PacketIsConsistent(cfg: Config, s: Server, e: Event, m: Option<Message>)
    requires Consistent(cfg, s, e.now) && IsPacket(e.input) && PortFree(cfg, s, e.input.client, e.outcome)
    ensures Consistent(cfg, HandlePacket(cfg, s, e, m).0, e.now)
  {
    if !Framing.IsChannelData(e.input.data) && m.Some? {
      ProcessIsConsistent(cfg, s, e.input.client, m.value, e);
    }
  }

  lemma CleanupIsConsistent(cfg: Config, s: Server, e: Event)
    requires Consistent(cfg, s, e.now) && !IsPacket(e.input)
    ensures Consistent(cfg, Handle(cfg, s, e).0, e.now)
  {
    if e.input.AllocationCleanup? { CleaningKeepsTables(cfg, s.tables, e.now); }
  }

  /** Every handler and every cleanup task keeps the tables consistent and every channel binding live. */
  lemma HandleIsConsistent(cfg: Config, s: Server, now: Time, e: Event)
    requires Consistent(cfg, s, now) && now <= e.now && Feasible(cfg, s, e)
    ensures Consistent(cfg, Handle(cfg, s, e).0, e.now)
  {
    LaterIsConsistent(cfg, s, now, e.now);
    if IsPacket(e.input) {
      PacketIsConsistent(cfg, s, e, MessageIn(e.input));
    } else {
      CleanupIsConsistent(cfg, s, e);
    }
  }
}
