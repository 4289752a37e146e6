/**
 * What each request does, from the octets that arrive to the tables and the answer: stated on the events of the state
 * machine, with the numbers that are on the wire.
 */
module TurnLaws {
  import opened Bytes
  import opened Codec
  import opened Channels
  import ClientFrames
  import Framing
  import opened Integrity
  import Lenient
  import opened Turn
  import opened TurnRuns
  import opened TurnSafety
  import opened Wire
  import WireFrames

  // ---------------------------------------------------------------- how a request arrives

  /** The event brings this message from this client. */
  ghost predicate Brings(e: Event, client: SocketAddr, m: Message) {
    && IsPacket(e.input) && e.input.client == client
    && !Framing.IsChannelData(e.input.data) && MessageIn(e.input) == Some(m)
  }

  /** Every message that is encoded within the length field is brought, with its length, by a datagram or a stream. */
  lemma EncodedIsBrought(e: Event, client: SocketAddr, m: Message)
    requires |EncodeAttributes(m.attributes)| < 0x1_0000 && Delivers(e, client, EncodeMessage(m))
    ensures Brings(e, client, m.(header := m.header.(length := |EncodeAttributes(m.attributes)|)))
  {
    MessageRoundTrip(m);
    ClientFrames.EncodedIsWellFormed(m);
    NotCut(|EncodeAttributes(m.attributes)|);
  }

  /** On a stream only the strict parser reads; on a datagram the fallback reads what the strict parser does not. */
  lemma HowItIsRead(e: Event, client: SocketAddr, m: Message)
    requires Brings(e, client, m)
    ensures e.input.StreamFrame? ==> ParseMessage(e.input.data) == Some(m)
    ensures e.input.Datagram? ==>
            if ParseMessage(e.input.data).Some? then ParseMessage(e.input.data) == Some(m)
            else Lenient.LenientMessage(e.input.data) == Some(m)
  {
  }

  /** What neither reads is dropped. */
  lemma UnreadIsDropped(cfg: Config, s: Server, e: Event)
    requires IsPacket(e.input) && |e.input.data| >= 4 && !(0x40 <= e.input.data[0] < 0x80)
    requires ParseMessage(e.input.data) == None
    requires e.input.StreamFrame? || Lenient.LenientMessage(e.input.data) == None
    ensures Handle(cfg, s, e) == (s, Silent)
  {
  }

  /** The request is one that needs credentials, and it has them or none are asked for. */
  ghost predicate Cleared(cfg: Config, s: Server, client: SocketAddr, m: Message, now: Time) {
    cfg.turnEnabled && (cfg.authDisabled || Authenticated(cfg, s, client, m, now))
  }

  predicate NeedsCredentials(kind: Method) {
    kind == Allocate || kind == Refresh || kind == CreatePermission || kind == ChannelBind
  }

  lemma BroughtIsProcessed(cfg: Config, s: Server, e: Event, client: SocketAddr, m: Message)
    requires Brings(e, client, m)
    ensures Handle(cfg, s, e) == Process(cfg, s, client, m, e)
  {
  }

  lemma ClearedIsServed(cfg: Config, s: Server, e: Event, client: SocketAddr, m: Message) returns (auth: Auth)
    requires Brings(e, client, m) && NeedsCredentials(m.header.kind) && Cleared(cfg, s, client, m, e.now)
    ensures auth.Granted? && Handle(cfg, s, e) == Serve(cfg, s, client, m, e, auth)
  {
    auth := VerifyAuth(cfg, s, client, m, e.now);
    BroughtIsProcessed(cfg, s, e, client, m);
    if !cfg.authDisabled { GrantedIffAuthenticated(cfg, s, client, m, e.now); }
  }

  // ---------------------------------------------------------------- attributes

  /** The first LIFETIME (0x000D) starts with the four octets of the number; without one it is 600. */
  predicate AsksFor(attrs: seq<Attribute>, seconds: u32) {
    match FindAttribute(attrs, 0x000D)
    case None => seconds == 600
    case Some(a) => |a.value| >= 4 && a.value[..4] == PutU32(seconds)
  }

  lemma U32RoundTrip(n: u32)
    ensures 0x1_0000 * (U16At(PutU32(n), 0) as int) + U16At(PutU32(n), 2) == n
  {
  }

  lemma LifetimeIsRead(m: Message, seconds: u32)
    requires AsksFor(m.attributes, seconds)
    ensures LifetimeOf(m) == Some(seconds)
  {
    var a := FindAttribute(m.attributes, 0x000D);
    if a.Some? {
      U32RoundTrip(seconds);
      var v := a.value.value;
      assert v[0] == v[..4][0] && v[1] == v[..4][1] && v[2] == v[..4][2] && v[3] == v[..4][3];
    }
  }

  // ---------------------------------------------------------------- the client's allocation

  predicate HasNone(s: Server, client: SocketAddr) {
    forall r :: r in s.tables.allocations ==> s.tables.allocations[r].client != client
  }

  predicate Has(s: Server, client: SocketAddr, r: SocketAddr) {
    r in s.tables.allocations && s.tables.allocations[r].client == client
  }

  /** With one allocation per client there is nothing to choose. */
  lemma FindIs(s: Server, client: SocketAddr, r: SocketAddr)
    requires Distinct(s.tables.allocations, s.tables.total)
    ensures Has(s, client, r) ==> Find(s.tables.allocations, client) == Some(r)
    ensures HasNone(s, client) ==> Find(s.tables.allocations, client) == None
  {
  }

  // ---------------------------------------------------------------- Allocate

  /** The allocations of all other clients, which an Allocate leaves alone. */
  ghost function Others(s: Server, client: SocketAddr): map<SocketAddr, Allocation> {
    map r | r in s.tables.allocations && s.tables.allocations[r].client != client :: s.tables.allocations[r]
  }

  ghost predicate QuotaFull(cfg: Config, s: Server, client: SocketAddr) {
    cfg.maxAllocations.Some? && |Others(s, client)| >= cfg.maxAllocations.value
  }

  /** The channels are those of the other clients. */
  ghost predicate KeepsChannels(s: Server, s': Server, client: SocketAddr) {
    && (forall k :: k in s'.channels <==> k in s.channels && k.0 in Others(s, client))
    && (forall k :: k in s'.channels ==> s'.channels[k] == s.channels[k])
  }

  lemma OthersOfNone(s: Server, client: SocketAddr)
    requires HasNone(s, client)
    ensures Others(s, client) == s.tables.allocations
  {
  }

  lemma OthersOfOne(s: Server, client: SocketAddr, r: SocketAddr)
    requires Distinct(s.tables.allocations, s.tables.total) && Has(s, client, r)
    ensures Others(s, client) == s.tables.allocations - {r}
  {
    forall q | q in s.tables.allocations && q != r ensures s.tables.allocations[q].client != client {
    }
  }

  lemma OthersOf(s: Server, client: SocketAddr, r: SocketAddr)
    requires Distinct(s.tables.allocations, s.tables.total)
    ensures Has(s, client, r) ==> Others(s, client) == s.tables.allocations - {r}
    ensures Has(s, client, r) ==> |Others(s, client)| == |s.tables.allocations| - 1
    ensures HasNone(s, client) ==> Others(s, client) == s.tables.allocations
  {
    if Has(s, client, r) {
      OthersOfOne(s, client, r);
      SizeAfter(s.tables.allocations, r, s.tables.allocations[r]);
    }
    if HasNone(s, client) { OthersOfNone(s, client); }
  }

  lemma DroppedAllocations(cfg: Config, s: Server, client: SocketAddr, now: Time)
    requires Consistent(cfg, s, now)
    ensures Dropped(s, client).tables.allocations == Others(s, client)
    ensures Dropped(s, client).tables.active == |Others(s, client)|
    ensures Dropped(s, client).tables.total == s.tables.total && Dropped(s, client).nonces == s.nonces
  {
    var found := Find(s.tables.allocations, client);
    OthersOf(s, client, if found.Some? then found.value else NO_PEER);
  }

  lemma DroppedChannels(cfg: Config, s: Server, client: SocketAddr, now: Time)
    requires Consistent(cfg, s, now)
    ensures KeepsChannels(s, Dropped(s, client), client)
  {
    var found := Find(s.tables.allocations, client);
    if found.Some? { FindIs(s, client, found.value); }
  }

  /** An Allocate that is let through is handled as one. */
  lemma AllocateIsHandled(cfg: Config, s: Server, e: Event, client: SocketAddr, m: Message, seconds: u32)
    requires Brings(e, client, m) && m.header.kind == Allocate && Cleared(cfg, s, client, m, e.now)
    requires AsksFor(m.attributes, seconds)
    ensures Handle(cfg, s, e) == HandleAllocate(cfg, s, client, seconds, e.now, e.outcome)
  {
    var auth := ClearedIsServed(cfg, s, e, client, m);
    LifetimeIsRead(m, seconds);
  }

  /** The answer to an Allocate. */
  ghost predicate Answers(cfg: Config, s: Server, client: SocketAddr, outcome: Outcome, o: Output) {
    o == if QuotaFull(cfg, s, client) then Refusal(486) else if outcome.Opened? then Accepted else Refusal(508)
  }

  /** Nothing is left of the client's allocation. */
  ghost predicate OnlyOthers(s: Server, s': Server, client: SocketAddr) {
    s'.tables.allocations == Others(s, client) && s'.tables.total == s.tables.total && s'.nonces == s.nonces
  }

  /** The client has one new allocation beside those of the others. */
  ghost predicate OneNew(cfg: Config, s: Server, s': Server, client: SocketAddr, seconds: u32, at: Time, port: u16) {
    var granted := if cfg.maxLifetime.Some? && cfg.maxLifetime.value < seconds then cfg.maxLifetime.value else seconds;
    && s'.tables.allocations == Others(s, client)[SocketAddr(cfg.external, port) :=
         Allocation(client, at, granted * 1_000_000_000, {}, s.tables.total + 1)]
    && s'.tables.total == s.tables.total + 1 && s'.nonces == s.nonces
  }

  lemma InsertedIsNew(cfg: Config, s: Server, s1: Server, client: SocketAddr, seconds: u32, at: Time, port: u16)
    requires OnlyOthers(s, s1, client)
    ensures var s' := s1.(tables := Inserted(cfg, s1.tables, client, seconds, at, port));
            OneNew(cfg, s, s', client, seconds, at, port)
  {
  }

  lemma AllocateEffect(cfg: Config, s: Server, client: SocketAddr, seconds: u32, at: Time, outcome: Outcome, now: Time)
    requires Consistent(cfg, s, now)
    ensures var (s', o) := HandleAllocate(cfg, s, client, seconds, at, outcome);
            && Answers(cfg, s, client, outcome, o) && KeepsChannels(s, s', client)
            && (o != Accepted ==> OnlyOthers(s, s', client))
            && (o == Accepted ==> OneNew(cfg, s, s', client, seconds, at, outcome.port))
  {
    DroppedAllocations(cfg, s, client, now);
    DroppedChannels(cfg, s, client, now);
    if outcome.Opened? { InsertedIsNew(cfg, s, Dropped(s, client), client, seconds, at, outcome.port); }
  }

  /**
   * An Allocate that is let through first ends the client's old allocation. It is refused with 486 exactly when the
   * other clients fill the quota, and with 508 when no port could be opened. Otherwise the client has one new
   * allocation, at the opened port, created now, for the lifetime asked for and at most the configured one.
   */
  lemma AllocateLaw(cfg: Config, s: Server, e: Event, client: SocketAddr, m: Message, seconds: u32, now: Time)
    requires Brings(e, client, m) && m.header.kind == Allocate && Cleared(cfg, s, client, m, e.now)
    requires AsksFor(m.attributes, seconds) && Consistent(cfg, s, now)
    ensures var (s', o) := Handle(cfg, s, e);
            && Answers(cfg, s, client, e.outcome, o) && KeepsChannels(s, s', client)
            && (o != Accepted ==> OnlyOthers(s, s', client))
            && (o == Accepted ==> OneNew(cfg, s, s', client, seconds, e.now, e.outcome.port))
  {
    AllocateIsHandled(cfg, s, e, client, m, seconds);
    AllocateEffect(cfg, s, client, seconds, e.now, e.outcome, now);
  }

  // ---------------------------------------------------------------- Refresh

  /** Without an allocation a Refresh is refused with 437 and changes nothing. */
  lemma RefreshWithoutAllocation(cfg: Config, s: Server, e: Event, client: SocketAddr, m: Message, seconds: u32)
    requires Brings(e, client, m) && m.header.kind == Refresh && Cleared(cfg, s, client, m, e.now)
    requires AsksFor(m.attributes, seconds) && HasNone(s, client)
    ensures Handle(cfg, s, e) == (s, Refusal(437))
  {
    var auth := ClearedIsServed(cfg, s, e, client, m);
    LifetimeIsRead(m, seconds);
  }

  /**
   * A Refresh changes the lifetime of the client's allocation to the one asked for, uncapped and counted from the
   * creation, and nothing else; to zero it ends the allocation with its channels, and nothing else.
   */
  lemma RefreshLaw(cfg: Config, s: Server, e: Event, client: SocketAddr, m: Message, seconds: u32, r: SocketAddr,
                   now: Time)
    requires Brings(e, client, m) && m.header.kind == Refresh && Cleared(cfg, s, client, m, e.now)
    requires AsksFor(m.attributes, seconds) && Consistent(cfg, s, now) && Has(s, client, r)
    ensures var (s', o) := Handle(cfg, s, e);
            var a := s.tables.allocations[r];
            && o == Accepted && s'.tables.total == s.tables.total && s'.nonces == s.nonces
            && (seconds > 0 ==>
                  && s'.channels == s.channels && s'.tables.bits == s.tables.bits
                  && s'.tables.allocations == s.tables.allocations[r :=
                       Allocation(a.client, a.createdAt, seconds * 1_000_000_000, a.permissions, a.serial)])
            && (seconds == 0 ==>
                  && s'.tables.allocations == s.tables.allocations - {r}
                  && s'.tables.bits == s.tables.bits - {r.port as nat}
                  && (forall k :: k in s'.channels <==> k in s.channels && k.0 != r)
                  && (forall k :: k in s'.channels ==> s'.channels[k] == s.channels[k]))
  {
    var auth := ClearedIsServed(cfg, s, e, client, m);
    LifetimeIsRead(m, seconds);
    FindIs(s, client, r);
  }

  /** A LIFETIME of less than four octets makes an Allocate or a Refresh panic before anything is changed. */
  lemma ShortLifetimePanics(cfg: Config, s: Server, e: Event, client: SocketAddr, m: Message)
    requires Brings(e, client, m) && Cleared(cfg, s, client, m, e.now)
    requires m.header.kind == Allocate || m.header.kind == Refresh
    requires FindAttribute(m.attributes, 0x000D).Some? && |FindAttribute(m.attributes, 0x000D).value.value| < 4
    ensures Handle(cfg, s, e) == (s, Panicked)
  {
    var auth := ClearedIsServed(cfg, s, e, client, m);
  }

  // ---------------------------------------------------------------- CreatePermission

  /**
   * A CreatePermission is refused with 437 without an allocation and with 400 when it names no peer that can be read.
   * Otherwise exactly the addresses it names are added to the client's allocation.
   */
  lemma PermissionRefused(cfg: Config, s: Server, e: Event, client: SocketAddr, m: Message, now: Time)
    requires Brings(e, client, m) && m.header.kind == CreatePermission && Cleared(cfg, s, client, m, e.now)
    ensures HasNone(s, client) ==> Handle(cfg, s, e) == (s, Refusal(437))
    ensures !HasNone(s, client) && !NamesPeer(m.attributes) ==> Handle(cfg, s, e) == (s, Refusal(400))
  {
    var auth := ClearedIsServed(cfg, s, e, client, m);
    IpsAreNamed(m.attributes, NO_PEER.ip);
  }

  lemma PermissionLaw(cfg: Config, s: Server, e: Event, client: SocketAddr, m: Message, r: SocketAddr, now: Time)
    requires Brings(e, client, m) && m.header.kind == CreatePermission && Cleared(cfg, s, client, m, e.now)
    requires Consistent(cfg, s, now) && Has(s, client, r) && NamesPeer(m.attributes)
    ensures var (s', o) := Handle(cfg, s, e);
            && o == Accepted && r in s'.tables.allocations
            && (forall ip :: ip in s'.tables.allocations[r].permissions <==>
                  ip in s.tables.allocations[r].permissions || NamesIp(m.attributes, ip))
            && s' == s.(tables := s.tables.(allocations := s.tables.allocations[r :=
                 s.tables.allocations[r].(permissions := s'.tables.allocations[r].permissions)]))
  {
    var auth := ClearedIsServed(cfg, s, e, client, m);
    FindIs(s, client, r);
    forall ip ensures ip in IpsOf(PeersOf(m.attributes)) <==> NamesIp(m.attributes, ip) {
      IpsAreNamed(m.attributes, ip);
    }
    IpsAreNamed(m.attributes, NO_PEER.ip);
  }

  // ---------------------------------------------------------------- ChannelBind

  /** The request names a channel number (0x000C) and a peer (0x0012), which is 0.0.0.0:0 when it cannot be read. */
  ghost predicate AsksToBind(attrs: seq<Attribute>, number: u16, peer: SocketAddr) {
    var p, n := FindAttribute(attrs, 0x0012), FindAttribute(attrs, 0x000C);
    && p.Some? && n.Some? && |n.value.value| >= 2
    && number == 256 * (n.value.value[0] as int) + n.value.value[1]
    && peer == if DecodeXorAddress(p.value.value).Some? then DecodeXorAddress(p.value.value).value
               else SocketAddr(V4(0, 0, 0, 0), 0)
  }

  /** The number is bound to another peer on the allocation. */
  predicate BoundElsewhere(s: Server, r: SocketAddr, number: u16, peer: SocketAddr) {
    (r, number) in s.channels && s.channels[(r, number)].peer != peer
  }

  lemma BindIsHandled(cfg: Config, s: Server, e: Event, client: SocketAddr, m: Message)
    requires Brings(e, client, m) && m.header.kind == ChannelBind && Cleared(cfg, s, client, m, e.now)
    ensures Handle(cfg, s, e) == HandleChannelBind(s, client, m, e.now)
  {
    var auth := ClearedIsServed(cfg, s, e, client, m);
  }

  lemma BindEffect(s: Server, client: SocketAddr, m: Message, r: SocketAddr, number: u16, peer: SocketAddr, at: Time)
    requires Find(s.tables.allocations, client) == Some(r) && AsksToBind(m.attributes, number, peer)
    ensures HandleChannelBind(s, client, m, at) ==
            if BoundElsewhere(s, r, number, peer) then (s, Refusal(400))
            else (s.(channels := s.channels[(r, number) := ChannelBinding(peer, at)]), Accepted)
  {
  }

  /**
   * A ChannelBind binds the number to the peer on the client's allocation from now on, and changes nothing else; it is
   * refused with 400, and changes nothing, exactly when the number is bound to another peer there.
   */
  lemma BindLaw(cfg: Config, s: Server, e: Event, client: SocketAddr, m: Message, r: SocketAddr, number: u16,
                peer: SocketAddr, now: Time)
    requires Brings(e, client, m) && m.header.kind == ChannelBind && Cleared(cfg, s, client, m, e.now)
    requires Consistent(cfg, s, now) && Has(s, client, r) && AsksToBind(m.attributes, number, peer)
    ensures Handle(cfg, s, e) ==
            if BoundElsewhere(s, r, number, peer) then (s, Refusal(400))
            else (s.(channels := s.channels[(r, number) := ChannelBinding(peer, e.now)]), Accepted)
  {
    BindIsHandled(cfg, s, e, client, m);
    FindIs(s, client, r);
    BindEffect(s, client, m, r, number, peer, e.now);
  }

  /** Without an allocation, a peer or a number nothing happens; a number of less than two octets makes it panic. */
  lemma BindIgnored(cfg: Config, s: Server, e: Event, client: SocketAddr, m: Message)
    requires Brings(e, client, m) && m.header.kind == ChannelBind && Cleared(cfg, s, client, m, e.now)
    ensures var p, n := FindAttribute(m.attributes, 0x0012), FindAttribute(m.attributes, 0x000C);
            && (HasNone(s, client) || p.None? || n.None? ==> Handle(cfg, s, e) == (s, Silent))
            && (!HasNone(s, client) && p.Some? && n.Some? && |n.value.value| < 2 ==> Handle(cfg, s, e) == (s, Panicked))
  {
    var auth := ClearedIsServed(cfg, s, e, client, m);
  }

  // ---------------------------------------------------------------- Send

  /** The Send indication of section 10.1 of RFC 5766: XOR-PEER-ADDRESS and DATA. */
  function SendIndication(tid: TransactionId, peer: SocketAddr, payload: Octets): Message {
    Message(Header(Send, Indication, 0, tid), [Attribute(0x0012, EncodeXorAddress(peer)), Attribute(0x0013, payload)])
  }

  lemma SendIsBrought(e: Event, client: SocketAddr, tid: TransactionId, peer: SocketAddr, payload: Octets)
    returns (n: u16)
    requires |payload| <= 65516 && Delivers(e, client, EncodeMessage(SendIndication(tid, peer, payload)))
    ensures Brings(e, client, Message(Header(Send, Indication, n, tid), SendIndication(tid, peer, payload).attributes))
  {
    var m := SendIndication(tid, peer, payload);
    WireFrames.IndicationSize(tid, peer, payload);
    assert m.attributes == ClientFrames.DataIndication(tid, peer, payload).attributes;
    n := |EncodeAttributes(m.attributes)|;
    EncodedIsBrought(e, client, m);
  }

  lemma SendAttributes(peer: SocketAddr, payload: Octets)
    ensures var attrs := [Attribute(0x0012, EncodeXorAddress(peer)), Attribute(0x0013, payload)];
            FindAttribute(attrs, 0x0012) == Some(attrs[0]) && FindAttribute(attrs, 0x0013) == Some(attrs[1])
  {
    var attrs := [Attribute(0x0012, EncodeXorAddress(peer)), Attribute(0x0013, payload)];
    assert attrs[1..] == [attrs[1]];
  }

  /**
   * A payload that a client sends to an IPv4 peer in a Send indication leaves its relay socket for exactly that peer
   * with exactly those octets if its allocation permits the peer's address, and goes nowhere otherwise. No credentials
   * are asked for, and nothing is changed.
   */
  lemma SendReachesPeer(cfg: Config, s: Server, e: Event, client: SocketAddr, tid: TransactionId, peer: SocketAddr,
                        payload: Octets, r: SocketAddr, now: Time)
    requires peer.ip.V4? && |payload| <= 65516 && cfg.turnEnabled && Consistent(cfg, s, now) && Has(s, client, r)
    requires Delivers(e, client, EncodeMessage(SendIndication(tid, peer, payload)))
    ensures Handle(cfg, s, e) ==
            if peer.ip in s.tables.allocations[r].permissions && e.sendOk
            then (s, Relayed(r, s.tables.allocations[r].serial, peer, payload, false))
            else (s, Silent)
  {
    var n := SendIsBrought(e, client, tid, peer, payload);
    var m := Message(Header(Send, Indication, n, tid), SendIndication(tid, peer, payload).attributes);
    BroughtIsProcessed(cfg, s, e, client, m);
    SendAttributes(peer, payload);
    XorAddressRoundTrip(peer);
    FindIs(s, client, r);
  }

  /** Without an allocation, and with TURN switched off, a Send indication goes nowhere. */
  lemma SendWithoutAllocation(cfg: Config, s: Server, e: Event, client: SocketAddr, m: Message)
    requires Brings(e, client, m) && m.header.kind == Send && (HasNone(s, client) || !cfg.turnEnabled)
    ensures Handle(cfg, s, e) == (s, Silent)
  {
    BroughtIsProcessed(cfg, s, e, client, m);
  }

  // ---------------------------------------------------------------- ChannelData

  /**
   * ChannelData on a number from 0x4000 to 0x7FFF leaves the relay socket of the sender's allocation for the peer bound
   * to the number there, with exactly its application data, padded or not; it goes nowhere when the number is not
   * bound.
   */
  lemma ChannelDataReachesPeer(cfg: Config, s: Server, e: Event, client: SocketAddr, channel: u16, payload: Octets,
                               r: SocketAddr, now: Time)
    requires 0x4000 <= channel <= 0x7FFF && |payload| < 0x1_0000 && Consistent(cfg, s, now) && Has(s, client, r)
    requires Delivers(e, client, WireFrames.ChannelOctets(channel, payload))
          || Delivers(e, client, WireFrames.PaddedOctets(channel, payload))
    ensures Handle(cfg, s, e) ==
            if (r, channel) in s.channels && e.sendOk
            then (s, Relayed(r, s.tables.allocations[r].serial, s.channels[(r, channel)].peer, payload, true))
            else (s, Silent)
  {
    FindIs(s, client, r);
    WireFrames.ChannelFrameOctets(channel, payload);
    WireFrames.ChannelDataIsPadded(channel, payload);
    ClientFrames.ChannelFrameRoundTrip(channel, payload);
    ClientFrames.ChannelFrameOnStream(channel, payload);
  }

  // ---------------------------------------------------------------- Binding, and what is switched off

  /** A Binding request is answered exactly when STUN is on, and changes nothing. */
  lemma BindingLaw(cfg: Config, s: Server, e: Event, client: SocketAddr, m: Message)
    requires Brings(e, client, m) && m.header.kind == Binding
    ensures Handle(cfg, s, e) == (s, if cfg.stunEnabled then Accepted else Silent)
  {
    BroughtIsProcessed(cfg, s, e, client, m);
  }

  /** With TURN off every other message is dropped, and so is a Data message always. */
  lemma TurnOffLaw(cfg: Config, s: Server, e: Event, client: SocketAddr, m: Message)
    requires Brings(e, client, m) && m.header.kind != Binding && (!cfg.turnEnabled || m.header.kind == Data)
    ensures Handle(cfg, s, e) == (s, Silent)
  {
    BroughtIsProcessed(cfg, s, e, client, m);
  }

  // ---------------------------------------------------------------- refused

  /**
   * With TURN and authentication on, a request that needs credentials is refused with 403 when the access list does not
   * allow its client, and changes nothing. From any other client, when it is not authenticated, it is answered with a
   * fresh nonce, which is recorded and is the only change; unless it has a known nonce and user and a short integrity
   * value, which makes the handler panic.
   */
  lemma RefusedLaw(cfg: Config, s: Server, e: Event, client: SocketAddr, m: Message)
    requires Brings(e, client, m) && NeedsCredentials(m.header.kind) && cfg.turnEnabled && !cfg.authDisabled
    requires !Authenticated(cfg, s, client, m, e.now)
    ensures var (s', o) := Handle(cfg, s, e);
            if !cfg.aclAllows(client, e.now) then (s', o) == (s, Refusal(403))
            else if KnownUser(cfg, s, m, e.now) && ShortIntegrity(m.attributes) then (s', o) == (s, Panicked)
            else o == Challenge(e.freshNonce) && s' == s.(nonces := s.nonces[e.freshNonce := e.now])
  {
    BroughtIsProcessed(cfg, s, e, client, m);
    GrantedIffAuthenticated(cfg, s, client, m, e.now);
    var nonce := FindAttribute(m.attributes, 0x0015);
    if nonce.Some? { AcceptedIsKnown(s.nonces, cfg.text(nonce.value.value), e.now); }
  }

  /** The request carries a known nonce and the name of a user who has a password. */
  predicate KnownUser(cfg: Config, s: Server, m: Message, now: Time) {
    var nonce, user := FindAttribute(m.attributes, 0x0015), FindAttribute(m.attributes, 0x0006);
    && nonce.Some? && user.Some? && NonceKnown(s.nonces, cfg.text(nonce.value.value), now)
    && cfg.passwordOf(cfg.text(user.value.value), now).Some?
  }

  predicate ShortIntegrity(attrs: seq<Attribute>) {
    var a := FindAttribute(attrs, 0x0008);
    a.Some? && |a.value.value| < 20
  }
}
