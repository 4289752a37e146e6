/**
 * The handlers of src/server.rs as they run: on the shared allocation table, channel table and nonce map, updated in
 * place. Each one is proved to take the step of the state machine in Turn; TurnService puts the steps together.
 */
module TurnServer {
  import opened Bytes
  import opened Codec
  import opened Channels
  import Framing
  import Lenient
  import ClientFrames
  import opened Integrity
  import opened Turn
  import opened TurnRuns
  import opened AllocationTable

  class TurnServer {
    const cfg: Config
    const table: AllocationTable
    const channels: ChannelTable
    var nonces: map<string, Time>

    ghost function View(): Server
      reads this, table, table.ports, table.ports.words, channels
    {
      Server(table.View(), channels.channels, nonces)
    }

    /** The table is sound and carries the server's configuration, and the whole state is consistent. */
    ghost predicate Valid(now: Time)
      reads this, table, table.ports, table.ports.words, channels
    {
      table.Valid() && table.cfg == cfg && Consistent(cfg, View(), now)
    }

    constructor (c: Config)
      requires c.minPort <= c.maxPort && c.maxPort - c.minPort + 1 < 0x1_0000
      ensures cfg == c && Valid(0) && View() == Server(Tables(map[], {}, 0, 0, {}), map[], map[])
      ensures fresh(table) && fresh(table.ports) && fresh(table.ports.words) && fresh(channels)
    {
      cfg := c;
      table := new AllocationTable(c);
      channels := new ChannelTable();
      nonces := map[];
    }

    /** `verify_turn_auth`, check by check, without the reply. */
    method VerifyTurnAuth(client: SocketAddr, m: Message, now: Time) returns (auth: Auth)
      ensures auth == VerifyAuth(cfg, View(), client, m, now)
    {
      var nonceAttr := FindAttribute(m.attributes, NONCE);
      var userAttr := FindAttribute(m.attributes, USERNAME);
      if cfg.authDisabled {
        return Granted(if userAttr.Some? then cfg.text(userAttr.value.value) else "");
      }
      if !cfg.aclAllows(client, now) {
        return Denied;
      }
      if nonceAttr.None? || userAttr.None? {
        return Rejected;
      }
      var nonce := cfg.text(nonceAttr.value.value);
      if nonce !in nonces || WholeSeconds(now, nonces[nonce]) > NONCE_SECONDS {
        return Rejected;
      }
      var username := cfg.text(userAttr.value.value);
      var password := cfg.passwordOf(username, now);
      if password.None? {
        return Rejected;
      }
      var v := VerifyMessageIntegrity(cfg.hmac, cfg.keyFor(username, password.value), m);
      auth := if v == Verified then Granted(username) else if v == Refused then Rejected else Crashed;
    }

    /** The reply to a request that is not granted; a 401 records its fresh nonce. */
    method Refuse(auth: Auth, now: Time, freshNonce: string) returns (out: Output)
      requires !auth.Granted?
      modifies this
      ensures (View(), out) == NotGranted(old(View()), auth, now, freshNonce)
    {
      match auth
      case Denied => out := Refusal(403);
      case Rejected =>
        nonces := nonces[freshNonce := now];
        out := Challenge(freshNonce);
      case Crashed => out := Panicked;
    }

    /** The client's old allocation goes with its channels. */
    method DropOld(client: SocketAddr, now: Time)
      requires Valid(now)
      modifies table, table.ports, table.ports.words, channels
      ensures table.Valid() && View() == Dropped(old(View()), client)
    {
      var r := table.FindByClient(client);
      if r.Some? {
        table.RemoveAllocation(r.value, channels);
      }
    }

    method HandleAllocate(client: SocketAddr, seconds: u32, now: Time) returns (outcome: Outcome, out: Output)
      requires Valid(now)
      modifies table, table.ports, table.ports.words, channels
      ensures table.Valid()
      ensures (View(), out) == Turn.HandleAllocate(cfg, old(View()), client, seconds, now, outcome)
      ensures OutcomeFeasible(cfg, old(View()), client, outcome)
    {
      DropOld(client, now);
      var created, failed := table.CreateAllocation(client, seconds, now);
      if created.QuotaFull? {
        return BindFailed, Refusal(486);
      }
      outcome := created.outcome;
      out := if outcome.Opened? then Accepted else Refusal(508);
    }

    method HandleRefresh(client: SocketAddr, seconds: u32, now: Time) returns (out: Output)
      requires Valid(now)
      modifies table, table.ports, table.ports.words, channels
      ensures table.Valid() && (View(), out) == Turn.HandleRefresh(old(View()), client, seconds)
    {
      var mismatch := Refusal(437);
      var r := table.FindByClient(client);
      if r.None? {
        return mismatch;
      }
      if seconds == 0 {
        table.RemoveAllocation(r.value, channels);
      } else {
        var ok := table.RefreshAllocation(r.value, seconds);
        if !ok {
          return mismatch;
        }
      }
      out := Accepted;
    }

    method HandleCreatePermission(client: SocketAddr, m: Message, now: Time) returns (out: Output)
      requires Valid(now)
      modifies table
      ensures table.Valid() && (View(), out) == Turn.HandleCreatePermission(old(View()), client, m)
    {
      var mismatch := Refusal(437);
      var r := table.FindByClient(client);
      if r.None? {
        return mismatch;
      }
      var peers := CollectPeers(m);
      if peers == [] {
        return Refusal(400);
      }
      var added := table.AddPermissions(client, peers);
      out := if added.Some? then Accepted else mismatch;
    }

    method HandleChannelBind(client: SocketAddr, m: Message, now: Time) returns (out: Output)
      requires Valid(now)
      modifies channels
      ensures table.Valid() && (View(), out) == Turn.HandleChannelBind(old(View()), client, m, now)
    {
      var r := table.FindByClient(client);
      var peer := FindAttribute(m.attributes, PEER_ADDRESS);
      var number := FindAttribute(m.attributes, CHANNEL_NUMBER);
      if r.None? || peer.None? || number.None? {
        return Silent;
      }
      if |number.value.value| < 2 {
        return Panicked;
      }
      var ok := channels.Bind(U16At(number.value.value, 0), BindPeer(peer.value), r.value, now);
      out := if ok then Accepted else Refusal(400);
    }

    method HandleSend(client: SocketAddr, m: Message, sendOk: bool, now: Time) returns (out: Output)
      requires Valid(now)
      ensures out == Turn.HandleSend(View(), client, m, sendOk)
    {
      var r := table.FindByClient(client);
      var peer := FindAttribute(m.attributes, PEER_ADDRESS);
      if r.None? || peer.None? {
        return Silent;
      }
      var to := DecodeXorAddress(peer.value.value);
      var data := FindAttribute(m.attributes, DATA);
      if to.None? || data.None? {
        return Silent;
      }
      var from := table.MaySendTo(client, to.value);
      if from.None? || !sendOk {
        return Silent;
      }
      out := Relayed(from.value, table.allocations[from.value].serial, to.value, data.value.value, false);
    }

    method HandleChannelData(client: SocketAddr, data: Octets, sendOk: bool, now: Time) returns (out: Output)
      requires Valid(now) && |data| >= 4
      ensures out == Turn.HandleChannelData(View(), client, data, sendOk)
    {
      var r := table.FindByClient(client);
      if r.None? || (r.value, U16At(data, 0)) !in channels.channels || !sendOk {
        return Silent;
      }
      var binding := channels.channels[(r.value, U16At(data, 0))];
      out := Relayed(r.value, table.allocations[r.value].serial, binding.peer, ClientFrames.ChannelPayload(data), true);
    }

    /** A request that needs credentials. */
    method ServeRequest(client: SocketAddr, m: Message, now: Time, freshNonce: string, auth: Auth, ghost e: Event)
      returns (outcome: Outcome, out: Output)
      requires Valid(now) && e.now == now && e.freshNonce == freshNonce
      modifies this, table, table.ports, table.ports.words, channels
      ensures table.Valid()
      ensures (View(), out) == Serve(cfg, old(View()), client, m, e.(outcome := outcome), auth)
      ensures OutcomeFeasible(cfg, old(View()), client, outcome)
    {
      outcome := BindFailed;
      if !auth.Granted? {
        out := Refuse(auth, now, freshNonce);
      } else if m.header.kind.CreatePermission? {
        out := HandleCreatePermission(client, m, now);
      } else if m.header.kind.ChannelBind? {
        out := HandleChannelBind(client, m, now);
      } else {
        var seconds := LifetimeOf(m);
        if seconds.None? {
          out := Panicked;
        } else if m.header.kind.Allocate? {
          outcome, out := HandleAllocate(client, seconds.value, now);
        } else {
          out := HandleRefresh(client, seconds.value, now);
        }
      }
    }

    /** `process_message`. */
    method ProcessMessage(client: SocketAddr, m: Message, now: Time, freshNonce: string, sendOk: bool, ghost e: Event)
      returns (outcome: Outcome, out: Output)
      requires Valid(now) && e.now == now && e.freshNonce == freshNonce && e.sendOk == sendOk
      modifies this, table, table.ports, table.ports.words, channels
      ensures table.Valid()
      ensures (View(), out) == Process(cfg, old(View()), client, m, e.(outcome := outcome))
      ensures OutcomeFeasible(cfg, old(View()), client, outcome)
    {
      outcome, out := BindFailed, Silent;
      if m.header.kind.Binding? {
        out := if cfg.stunEnabled then Accepted else Silent;
      } else if cfg.turnEnabled && m.header.kind.Send? {
        out := HandleSend(client, m, sendOk, now);
      } else if cfg.turnEnabled && !m.header.kind.Data? {
        var auth := VerifyTurnAuth(client, m, now);
        outcome, out := ServeRequest(client, m, now, freshNonce, auth, e);
      }
    }

    /** `handle_udp_message` and `handle_tcp_message`, once the message in the packet is known. */
    method HandlePacket(input: Input, m: Option<Message>, now: Time, freshNonce: string, sendOk: bool)
      returns (outcome: Outcome, out: Output)
      requires Valid(now) && IsPacket(input)
      modifies this, table, table.ports, table.ports.words, channels
      ensures table.Valid()
      ensures var e := Event(now, input, outcome, freshNonce, sendOk);
              (View(), out) == Turn.HandlePacket(cfg, old(View()), e, m)
      ensures OutcomeFeasible(cfg, old(View()), input.client, outcome)
    {
      outcome, out := BindFailed, Silent;
      if Framing.IsChannelData(input.data) {
        out := HandleChannelData(input.client, input.data, sendOk, now);
      } else if m.Some? {
        outcome, out := ProcessMessage(input.client, m.value, now, freshNonce, sendOk,
                                       Event(now, input, BindFailed, freshNonce, sendOk));
      }
    }

    /** A round of `start_nonce_cleanup_task`. */
    method CleanupNonces(now: Time)
      modifies this
      ensures nonces == map n | n in old(nonces) && WholeSeconds(now, old(nonces)[n]) < NONCE_SECONDS :: old(nonces)[n]
    {
      nonces := map n | n in nonces && WholeSeconds(now, nonces[n]) < NONCE_SECONDS :: nonces[n];
    }

    /** One round of a cleanup task. */
    method StepCleanup(input: Input, now: Time, ghost e: Event)
      requires Valid(now) && !IsPacket(input) && e.input == input && e.now == now
      modifies this, table, table.ports, table.ports.words, channels
      ensures table.Valid() && (View(), Silent) == Handle(cfg, old(View()), e)
    {
      match input
      case AllocationCleanup => var count := table.CleanupExpired(now, channels);
      case NonceCleanup => CleanupNonces(now);
      case ChannelCleanup => channels.CleanupExpired(now);
    }

    method StepPacket(input: Input, now: Time, freshNonce: string, sendOk: bool) returns (outcome: Outcome, out: Output)
      requires Valid(now) && IsPacket(input) && Receivable(input)
      modifies this, table, table.ports, table.ports.words, channels
      ensures table.Valid()
      ensures var e := Event(now, input, outcome, freshNonce, sendOk);
              Feasible(cfg, old(View()), e) && (View(), out) == Handle(cfg, old(View()), e)
    {
      var m := ReadMessage(input);
      outcome, out := HandlePacket(input, m, now, freshNonce, sendOk);
    }

    /**
     * One packet or one round of a cleanup task, from any consistent state at any later time: a step of the state
     * machine that its allocator can take, into a consistent state.
     */
    method Step(input: Input, now: Time, freshNonce: string, sendOk: bool, ghost last: Time)
      returns (outcome: Outcome, out: Output)
      requires Valid(last) && last <= now && Receivable(input)
      modifies this, table, table.ports, table.ports.words, channels
      ensures Valid(now)
      ensures var e := Event(now, input, outcome, freshNonce, sendOk);
              Feasible(cfg, old(View()), e) && (View(), out) == Handle(cfg, old(View()), e)
    {
      LaterIsConsistent(cfg, View(), last, now);
      if IsPacket(input) {
        outcome, out := StepPacket(input, now, freshNonce, sendOk);
      } else {
        outcome, out := BindFailed, Silent;
        StepCleanup(input, now, Event(now, input, outcome, freshNonce, sendOk));
      }
      HandleIsConsistent(cfg, old(View()), last, Event(now, input, outcome, freshNonce, sendOk));
    }
  }

  /** A datagram fits the receive buffer. */
  predicate Receivable(input: Input) {
    input.Datagram? ==> |input.data| <= 0x1_0000
  }

  /** The loop over the XOR-PEER-ADDRESS attributes. */
  method CollectPeers(m: Message) returns (peers: seq<SocketAddr>)
    ensures peers == PeersOf(m.attributes)
  {
    peers := [];
    for i := 0 to |m.attributes|
      invariant peers + PeersOf(m.attributes[i..]) == PeersOf(m.attributes)
    {
      var a := m.attributes[i];
      assert m.attributes[i..][1..] == m.attributes[i + 1..];
      if a.attrType == PEER_ADDRESS {
        var p := DecodeXorAddress(a.value);
        if p.Some? {
          peers := peers + [p.value];
        }
      }
    }
  }

  /** The message in a packet: the strict parser, and on datagrams the fallback after it. */
  method ReadMessage(input: Input) returns (m: Option<Message>)
    requires IsPacket(input) && Receivable(input)
    ensures m == MessageIn(input)
  {
    if Framing.IsChannelData(input.data) || (input.Datagram? && |input.data| < 4) {
      return None;
    }
    m := Parse(input.data);
    if m.None? && input.Datagram? {
      m := Lenient.Fallback(input.data);
    }
  }
}
