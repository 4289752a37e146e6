/**
 * The handlers from start-up on: a new server that takes whatever arrives, one packet or cleanup round after the other,
 * makes a run of the state machine. So what TurnSafety proves of runs holds of the handlers.
 */
module TurnService {
  import opened Bytes
  import opened Codec
  import opened Channels
  import ClientFrames
  import Framing
  import opened Turn
  import opened TurnRuns
  import opened TurnSafety
  import opened TurnServer

  datatype Arrival = Arrival(now: Time, input: Input, freshNonce: string, sendOk: bool)

  predicate InTime(arrivals: seq<Arrival>) {
    forall i, j :: 0 <= i <= j < |arrivals| ==> arrivals[i].now <= arrivals[j].now
  }

  predicate AllReceivable(arrivals: seq<Arrival>) {
    forall a <- arrivals :: Receivable(a.input)
  }

  /** The event is the arrival with the allocator's answer filled in. */
  predicate Records(e: Event, a: Arrival) {
    e.now == a.now && e.input == a.input && e.freshNonce == a.freshNonce && e.sendOk == a.sendOk
  }

  ghost predicate Recorded(events: seq<Event>, arrivals: seq<Arrival>) {
    |events| <= |arrivals| && forall i :: 0 <= i < |events| ==> Records(events[i], arrivals[i])
  }

  lemma NextInTime(events: seq<Event>, arrivals: seq<Arrival>)
    requires Recorded(events, arrivals) && InTime(arrivals) && |events| < |arrivals|
    ensures TimeOf(events, |events|) <= arrivals[|events|].now
  {
    if events != [] { assert Records(events[|events| - 1], arrivals[|events| - 1]); }
  }

  lemma RecordGrows(events: seq<Event>, arrivals: seq<Arrival>, e: Event)
    requires Recorded(events, arrivals) && |events| < |arrivals| && Records(e, arrivals[|events|])
    ensures Recorded(events + [e], arrivals) && TimeOf(events + [e], |events| + 1) == e.now
  {
  }

  lemma SameStep(cfg: Config, states: seq<Server>, events: seq<Event>, outputs: seq<Output>, states': seq<Server>,
                 events': seq<Event>, outputs': seq<Output>, i: nat)
    requires |states| == |events| + 1 && |outputs| == |events| && |states'| == |events'| + 1 && |outputs'| == |events'|
    requires i < |events| <= |events'| && StepAt(cfg, states, events, outputs, i)
    requires states'[i] == states[i] && states'[i + 1] == states[i + 1]
    requires events'[i] == events[i] && outputs'[i] == outputs[i]
    ensures StepAt(cfg, states', events', outputs', i)
  {
  }

  lemma LastStep(cfg: Config, states: seq<Server>, events: seq<Event>, outputs: seq<Output>, i: nat)
    requires |states| == |events| + 1 && |outputs| == |events| == i + 1
    requires Feasible(cfg, states[i], events[i]) && (states[i + 1], outputs[i]) == Handle(cfg, states[i], events[i])
    ensures StepAt(cfg, states, events, outputs, i)
  {
  }

  lemma TimesGrow(events: seq<Event>, e: Event)
    requires forall i, j :: 0 <= i <= j < |events| ==> events[i].now <= events[j].now
    requires TimeOf(events, |events|) <= e.now
    ensures forall i, j :: 0 <= i <= j < |events + [e]| ==> (events + [e])[i].now <= (events + [e])[j].now
  {
    assert forall i :: 0 <= i < |events| ==> events[i].now <= TimeOf(events, |events|);
  }

  lemma RunGrows(cfg: Config, states: seq<Server>, events: seq<Event>, outputs: seq<Output>, e: Event, s: Server,
                 o: Output)
    requires Run(cfg, states, events, outputs) && TimeOf(events, |events|) <= e.now
    requires Feasible(cfg, states[|events|], e) && (s, o) == Handle(cfg, states[|events|], e)
    ensures Run(cfg, states + [s], events + [e], outputs + [o])
  {
    var states', events', outputs' := states + [s], events + [e], outputs + [o];
    TimesGrow(events, e);
    LastStep(cfg, states', events', outputs', |events|);
    forall i | 0 <= i < |events'| ensures StepAt(cfg, states', events', outputs', i) {
      if i < |events| { SameStep(cfg, states, events, outputs, states', events', outputs', i); }
    }
  }

  /** Every run of the handlers from a new server is a run of the state machine over the same arrivals. */
  method ServeAll(cfg: Config, arrivals: seq<Arrival>)
    returns (outputs: seq<Output>, ghost states: seq<Server>, ghost events: seq<Event>)
    requires cfg.minPort <= cfg.maxPort && cfg.maxPort - cfg.minPort + 1 < 0x1_0000
    requires InTime(arrivals) && AllReceivable(arrivals)
    ensures |outputs| == |arrivals| == |events|
    ensures Run(cfg, states, events, outputs) && Recorded(events, arrivals)
  {
    var server := new TurnServer(cfg);
    outputs, states, events := [], [INITIAL], [];
    for k := 0 to |arrivals|
      invariant fresh(server) && fresh(server.table) && fresh(server.table.ports) && fresh(server.table.ports.words)
      invariant fresh(server.channels) && server.cfg == cfg
      invariant Run(cfg, states, events, outputs) && |events| == k && Recorded(events, arrivals)
      invariant server.Valid(TimeOf(events, k)) && server.View() == states[k]
    {
      var a := arrivals[k];
      ghost var last := TimeOf(events, k);
      NextInTime(events, arrivals);
      var outcome, o := server.Step(a.input, a.now, a.freshNonce, a.sendOk, last);
      ghost var e := Event(a.now, a.input, outcome, a.freshNonce, a.sendOk);
      RunGrows(cfg, states, events, outputs, e, server.View(), o);
      RecordGrows(events, arrivals, e);
      outputs, states, events := outputs + [o], states + [server.View()], events + [e];
    }
  }

  /**
   * A payload from a peer that reaches the client on a channel, sent back by the client over a stream, leaves the relay
   * socket of the client's allocation for the same peer, as the client knows it, with the same octets.
   */
  method RelayAndEcho(server: TurnServer, client: SocketAddr, peer: SocketAddr, relayBind: SocketAddr,
                      relayed: SocketAddr, payload: Octets, tid: TransactionId, now: Time)
    returns (channel: Option<u16>, out: Output)
    requires server.Valid(now) && Find(server.table.allocations, client) == Some(relayed)
    requires peer.ip.V4? && relayed.ip.V4? && |payload| < 0x1_0000
    modifies server, server.table, server.table.ports, server.table.ports.words, server.channels
    ensures server.Valid(now)
    ensures channel.Some? && Framing.IsChannelNumber(channel.value) ==>
            && server.View() == old(server.View())
            && out == Relayed(relayed, old(server.table.allocations[relayed].serial),
                              ClientFrames.NormalizePeer(peer, relayBind, relayed), payload, true)
  {
    var frame := ClientFrames.RelayFromPeer(server.channels, tid, peer, relayBind, relayed, payload);
    ghost var before := server.View();
    var echo := StreamFrame(client, Framing.WriteFrame(frame.octets));
    channel := frame.channel;
    var outcome;
    outcome, out := server.Step(echo, now, "", true, now);
    if channel.Some? && Framing.IsChannelNumber(channel.value) {
      var e := Event(now, echo, outcome, "", true);
      EchoReachesPeer(server.cfg, before, e, client, relayed, channel.value, payload);
    }
  }
}
