/**
 * Laws over whole runs of the TURN state machine: the quota holds, a channel keeps its peer and goes when it has
 * expired or its allocation ends, and a client that answers a challenge with its password is let in.
 */
module TurnRunLaws {
  import opened Bytes
  import opened Codec
  import opened Channels
  import Framing
  import opened Integrity
  import opened Turn
  import opened TurnRuns
  import opened TurnSafety
  import opened TurnLaws
  import opened Wire

  // ---------------------------------------------------------------- the quota

  lemma {:induction false} SubsetSize<T>(a: set<T>, b: set<T>)
    requires a <= b
    ensures |a| <= |b|
  {
    if a != {} {
      var x :| x in a;
      SubsetSize(a - {x}, b - {x});
    }
  }

  lemma FewerKeys(a: map<SocketAddr, Allocation>, b: map<SocketAddr, Allocation>)
    requires a.Keys <= b.Keys
    ensures |a| <= |b|
  {
    SubsetSize(a.Keys, b.Keys);
    assert |a| == |a.Keys| && |b| == |b.Keys|;
  }

  lemma AllocateKeepsQuota(cfg: Config, s: Server, client: SocketAddr, seconds: u32, at: Time, outcome: Outcome,
                           now: Time, max: nat)
    requires Consistent(cfg, s, now) && cfg.maxAllocations == Some(max) && |s.tables.allocations| <= max
    ensures |HandleAllocate(cfg, s, client, seconds, at, outcome).0.tables.allocations| <= max
  {
    AllocateEffect(cfg, s, client, seconds, at, outcome, now);
    FewerKeys(Others(s, client), s.tables.allocations);
    var (s', o) := HandleAllocate(cfg, s, client, seconds, at, outcome);
    if o == Accepted {
      var r := SocketAddr(cfg.external, outcome.port);
      SizeAfter(Others(s, client), r, s'.tables.allocations[r]);
    }
  }

  lemma OtherRequestKeepsKeys(cfg: Config, s: Server, client: SocketAddr, m: Message, e: Event, auth: Auth)
    requires m.header.kind != Allocate
    ensures Serve(cfg, s, client, m, e, auth).0.tables.allocations.Keys <= s.tables.allocations.Keys
  {
  }

  lemma ServeKeepsQuota(cfg: Config, s: Server, client: SocketAddr, m: Message, e: Event, auth: Auth, now: Time,
                        max: nat)
    requires Consistent(cfg, s, now) && cfg.maxAllocations == Some(max) && |s.tables.allocations| <= max
    ensures |Serve(cfg, s, client, m, e, auth).0.tables.allocations| <= max
  {
    if m.header.kind != Allocate {
      OtherRequestKeepsKeys(cfg, s, client, m, e, auth);
      FewerKeys(Serve(cfg, s, client, m, e, auth).0.tables.allocations, s.tables.allocations);
    } else if auth.Granted? && LifetimeOf(m).Some? {
      AllocateKeepsQuota(cfg, s, client, LifetimeOf(m).value, e.now, e.outcome, now, max);
    }
  }

  /** The server a packet leaves is the one it found, or the one a request for credentials leaves. */
  lemma PacketIsServed(cfg: Config, s: Server, e: Event)
    requires IsPacket(e.input)
    ensures || Handle(cfg, s, e).0 == s
            || (MessageIn(e.input).Some? &&
                var m := MessageIn(e.input).value;
                Handle(cfg, s, e) ==
                Serve(cfg, s, e.input.client, m, e, VerifyAuth(cfg, s, e.input.client, m, e.now)))
  {
    if MessageIn(e.input).Some? { ProcessIsServe(cfg, s, e.input.client, MessageIn(e.input).value, e); }
  }

  lemma HandleKeepsQuota(cfg: Config, s: Server, e: Event, now: Time, max: nat)
    requires Consistent(cfg, s, now) && cfg.maxAllocations == Some(max) && |s.tables.allocations| <= max
    ensures |Handle(cfg, s, e).0.tables.allocations| <= max
  {
    if IsPacket(e.input) {
      PacketIsServed(cfg, s, e);
      if MessageIn(e.input).Some? {
        var m, client := MessageIn(e.input).value, e.input.client;
        ServeKeepsQuota(cfg, s, client, m, e, VerifyAuth(cfg, s, client, m, e.now), now, max);
      }
    } else {
      assert Handle(cfg, s, e).0.tables.allocations.Keys <= s.tables.allocations.Keys;
      FewerKeys(Handle(cfg, s, e).0.tables.allocations, s.tables.allocations);
    }
  }

  /** With a configured maximum there are never more allocations. */
  lemma {:induction false} QuotaHolds(cfg: Config, states: seq<Server>, events: seq<Event>, outputs: seq<Output>,
                                      i: nat, max: nat)
    requires Run(cfg, states, events, outputs) && i < |states| && cfg.maxAllocations == Some(max)
    ensures |states[i].tables.allocations| <= max
  {
    if i > 0 {
      QuotaHolds(cfg, states, events, outputs, i - 1, max);
      RunIsConsistent(cfg, states, events, outputs, i - 1);
      assert StepAt(cfg, states, events, outputs, i - 1);
      HandleKeepsQuota(cfg, states[i - 1], events[i - 1], TimeOf(events, i - 1), max);
    }
  }

  // ---------------------------------------------------------------- channels

  type Key = (SocketAddr, u16)

  /** The allocation of a channel is there no more, or another one has its address. */
  predicate AllocationEnded(s: Server, s': Server, k: Key) {
    k.0 in s.tables.allocations ==>
      k.0 !in s'.tables.allocations || s'.tables.allocations[k.0].serial != s.tables.allocations[k.0].serial
  }

  /** A channel keeps its peer; it goes only when its allocation ends or a cleanup finds it 600 seconds old. */
  ghost predicate ChannelStays(s: Server, s': Server, e: Event, k: Key) {
    k in s.channels ==>
      if k in s'.channels then s'.channels[k].peer == s.channels[k].peer
      else AllocationEnded(s, s', k)
           || (e.input.ChannelCleanup? && e.now > s.channels[k].createdAt + 600 * 1_000_000_000)
  }

  lemma AllocateAndChannels(cfg: Config, s: Server, client: SocketAddr, seconds: u32, at: Time, outcome: Outcome,
                            now: Time, e: Event, k: Key)
    requires Consistent(cfg, s, now)
    ensures ChannelStays(s, HandleAllocate(cfg, s, client, seconds, at, outcome).0, e, k)
  {
    AllocateEffect(cfg, s, client, seconds, at, outcome, now);
  }

  lemma RefreshAndChannels(s: Server, client: SocketAddr, seconds: u32, e: Event, k: Key)
    ensures ChannelStays(s, HandleRefresh(s, client, seconds).0, e, k)
  {
  }

  lemma BindAndChannels(s: Server, client: SocketAddr, m: Message, at: Time, e: Event, k: Key)
    ensures ChannelStays(s, HandleChannelBind(s, client, m, at).0, e, k)
  {
  }

  lemma SameChannels(s: Server, s': Server, e: Event, k: Key)
    requires s'.channels == s.channels
    ensures ChannelStays(s, s', e, k)
  {
  }

  lemma ServeAndChannels(cfg: Config, s: Server, client: SocketAddr, m: Message, e: Event, auth: Auth, now: Time,
                         k: Key)
    requires Consistent(cfg, s, now)
    ensures ChannelStays(s, Serve(cfg, s, client, m, e, auth).0, e, k)
  {
    if !auth.Granted? || m.header.kind == CreatePermission {
      SameChannels(s, Serve(cfg, s, client, m, e, auth).0, e, k);
    } else if m.header.kind == ChannelBind {
      BindAndChannels(s, client, m, e.now, e, k);
    } else if LifetimeOf(m).None? {
      SameChannels(s, s, e, k);
    } else if m.header.kind == Allocate {
      AllocateAndChannels(cfg, s, client, LifetimeOf(m).value, e.now, e.outcome, now, e, k);
    } else {
      RefreshAndChannels(s, client, LifetimeOf(m).value, e, k);
    }
  }

  lemma HandleAndChannels(cfg: Config, s: Server, e: Event, now: Time, k: Key)
    requires Consistent(cfg, s, now)
    ensures ChannelStays(s, Handle(cfg, s, e).0, e, k)
  {
    if IsPacket(e.input) {
      PacketIsServed(cfg, s, e);
      if MessageIn(e.input).Some? {
        var m, client := MessageIn(e.input).value, e.input.client;
        ServeAndChannels(cfg, s, client, m, e, VerifyAuth(cfg, s, client, m, e.now), now, k);
      }
    }
  }

  /** The channel is bound in all states from `i` to `n`. */
  ghost predicate BoundThroughout(states: seq<Server>, i: nat, n: nat, k: Key)
    requires n < |states|
  {
    forall j :: i <= j <= n ==> k in states[j].channels
  }

  /** In every run, a bound number keeps its peer for as long as it is bound. */
  lemma {:induction false} ChannelKeepsPeer(cfg: Config, states: seq<Server>, events: seq<Event>, outputs: seq<Output>,
                                            i: nat, n: nat, k: Key)
    requires Run(cfg, states, events, outputs) && i <= n < |states| && BoundThroughout(states, i, n, k)
    ensures states[n].channels[k].peer == states[i].channels[k].peer
  {
    if i < n {
      ChannelKeepsPeer(cfg, states, events, outputs, i, n - 1, k);
      RunIsConsistent(cfg, states, events, outputs, n - 1);
      assert StepAt(cfg, states, events, outputs, n - 1);
      HandleAndChannels(cfg, states[n - 1], events[n - 1], TimeOf(events, n - 1), k);
      assert k in states[n - 1].channels && k in states[n].channels;
    }
  }

  /** In every run, a channel that goes has expired, or its allocation has ended. */
  lemma ChannelEnds(cfg: Config, states: seq<Server>, events: seq<Event>, outputs: seq<Output>, i: nat, k: Key)
    requires Run(cfg, states, events, outputs) && i < |events|
    requires k in states[i].channels && k !in states[i + 1].channels
    ensures || AllocationEnded(states[i], states[i + 1], k)
            || (events[i].input.ChannelCleanup?
                && events[i].now > states[i].channels[k].createdAt + 600 * 1_000_000_000)
  {
    RunIsConsistent(cfg, states, events, outputs, i);
    assert StepAt(cfg, states, events, outputs, i);
    HandleAndChannels(cfg, states[i], events[i], TimeOf(events, i), k);
  }

  /** A cleanup round leaves exactly the channels that were bound or refreshed at most 600 seconds before it. */
  lemma CleanupLeavesChannels(cfg: Config, s: Server, e: Event, k: Key)
    requires e.input.ChannelCleanup?
    ensures var s' := Handle(cfg, s, e).0;
            && s' == s.(channels := s'.channels)
            && (k in s'.channels <==> k in s.channels && e.now <= s.channels[k].createdAt + 600 * 1_000_000_000)
            && (k in s'.channels ==> s'.channels[k] == s.channels[k])
  {
  }

  /** A cleanup round ends exactly the allocations whose lifetime has passed, with their channels. */
  lemma CleanupLeavesAllocations(cfg: Config, s: Server, e: Event, r: SocketAddr, k: Key)
    requires e.input.AllocationCleanup?
    ensures var s' := Handle(cfg, s, e).0;
            && s'.nonces == s.nonces && s'.tables.total == s.tables.total
            && (r in s'.tables.allocations <==>
                r in s.tables.allocations
                && e.now <= s.tables.allocations[r].createdAt + s.tables.allocations[r].lifetime)
            && (r in s'.tables.allocations ==> s'.tables.allocations[r] == s.tables.allocations[r])
            && (k in s'.channels <==>
                k in s.channels && !(k.0 in s.tables.allocations && k.0 !in s'.tables.allocations))
            && (k in s'.channels ==> s'.channels[k] == s.channels[k])
  {
  }

  // ---------------------------------------------------------------- challenge and response

  lemma {:induction false} FoundBefore(attrs: seq<Attribute>, more: seq<Attribute>, t: u16)
    requires FindAttribute(attrs, t).Some?
    ensures FindAttribute(attrs + more, t) == FindAttribute(attrs, t)
  {
    if attrs[0].attrType != t {
      assert (attrs + more)[1..] == attrs[1..] + more;
      FoundBefore(attrs[1..], more, t);
    }
  }

  /** What the client puts into its request before it signs it: the user's name and the nonce it was given. */
  predicate Prepared(cfg: Config, m: Message, username: string, nonce: string) {
    var user, z := FindAttribute(m.attributes, 0x0006), FindAttribute(m.attributes, 0x0015);
    && user.Some? && cfg.text(user.value.value) == username && z.Some? && cfg.text(z.value.value) == nonce
    && NoIntegrity(m.attributes)
  }

  lemma SignedIsBrought(cfg: Config, e: Event, client: SocketAddr, m: Message, key: Octets)
    returns (signed: Message)
    requires NoIntegrity(m.attributes) && |EncodeAttributes(m.attributes)| + 24 < 0x1_0000
    requires Delivers(e, client, EncodeMessage(Sign(cfg.hmac, key, m)))
    ensures Brings(e, client, signed) && signed.attributes == Sign(cfg.hmac, key, m).attributes
    ensures signed.header.kind == m.header.kind && Verify(cfg.hmac, key, signed) == Verified
  {
    var full := Sign(cfg.hmac, key, m);
    var a := full.attributes[|m.attributes|];
    EncodeAttributesAppend(m.attributes, [a]);
    LastAttribute(a.value);
    EncodedIsBrought(e, client, full);
    signed := full.(header := m.header.(length := |EncodeAttributes(full.attributes)|));
    SignedVerifies(cfg.hmac, key, m, |EncodeAttributes(full.attributes)|);
  }

  /**
   * A client that was challenged in a run and within 600 seconds sends a request with a user's name and the nonce,
   * signed with the user's password, is let through, if the access list allows it.
   */
  lemma ResponseIsCleared(cfg: Config, states: seq<Server>, events: seq<Event>, outputs: seq<Output>, i: nat, n: nat,
                          client: SocketAddr, m: Message, username: string, nonce: string, password: string)
    returns (signed: Message)
    requires Run(cfg, states, events, outputs) && i < n < |events| && outputs[i] == Challenge(nonce)
    requires events[n].now < events[i].now + 600 * 1_000_000_000
    requires cfg.turnEnabled && cfg.aclAllows(client, events[n].now)
    requires cfg.passwordOf(username, events[n].now) == Some(password) && Prepared(cfg, m, username, nonce)
    requires |EncodeAttributes(m.attributes)| + 24 < 0x1_0000
    requires Delivers(events[n], client, EncodeMessage(Sign(cfg.hmac, cfg.keyFor(username, password), m)))
    ensures Brings(events[n], client, signed) && signed.header.kind == m.header.kind
    ensures signed.attributes == Sign(cfg.hmac, cfg.keyFor(username, password), m).attributes
    ensures Cleared(cfg, states[n], client, signed, events[n].now)
  {
    var key := cfg.keyFor(username, password);
    signed := SignedIsBrought(cfg, events[n], client, m, key);
    assert events[n - 1].now <= events[n].now;
    YoungNonceIsAccepted(cfg, states, events, outputs, i, n, nonce, events[n].now);
    var last := [signed.attributes[|m.attributes|]];
    FoundBefore(m.attributes, last, 0x0006);
    FoundBefore(m.attributes, last, 0x0015);
    IsAuthenticated(cfg, states[n], client, signed, events[n].now, username, nonce, password);
  }

  lemma IsAuthenticated(cfg: Config, s: Server, client: SocketAddr, m: Message, now: Time, username: string,
                        nonce: string, password: string)
    requires var user, z := FindAttribute(m.attributes, 0x0006), FindAttribute(m.attributes, 0x0015);
             user.Some? && cfg.text(user.value.value) == username && z.Some? && cfg.text(z.value.value) == nonce
    requires cfg.aclAllows(client, now) && NonceKnown(s.nonces, nonce, now)
    requires cfg.passwordOf(username, now) == Some(password)
    requires Verify(cfg.hmac, cfg.keyFor(username, password), m) == Verified
    ensures Authenticated(cfg, s, client, m, now)
  {
    var user, z := FindAttribute(m.attributes, 0x0006), FindAttribute(m.attributes, 0x0015);
    assert FindAttribute(m.attributes, 0x0015) == Some(z.value);
    assert FindAttribute(m.attributes, 0x0006) == Some(user.value);
    assert cfg.passwordOf(cfg.text(user.value.value), now) == Some(password);
  }
}
