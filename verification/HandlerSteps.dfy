/**
 * The handlers of src/server.rs cut where other handlers can come in between: a lookup by client is one step, what is
 * then done with the address found is another. A creation takes its port first and inserts its allocation later. What
 * runs under one lock (insertion, removal, refresh, permission, binding and both cleanups) is one step.
 */
module HandlerSteps {
  import opened Bytes
  import opened Codec
  import opened Channels
  import opened Turn
  import opened TurnRuns

  /** What a lookup saw; the serial tells the allocation from later ones on the same port. */
  datatype Seen = Seen(relayed: SocketAddr, serial: nat)

  /** A step that acts on what a lookup saw: the serial that was seen and the serial of what was acted on. */
  datatype Deed = Deed(meant: nat, met: nat)

  /**
   * `taken` are the ports of creations in flight. Two histories: `owner` is the serial seen for each binding, `deeds`
   * are the removals, refreshes and relays that found something to act on.
   */
  datatype State = State(tables: Tables, taken: set<nat>, channels: Table, owner: map<(SocketAddr, u16), nat>,
                         seen: map<nat, Seen>, deeds: seq<Deed>)

  datatype Step =
    | Look(t: nat, relayed: SocketAddr)
    | TakePort(port: u16)
    | GiveBack(port: u16)
    | Insert(client: SocketAddr, seconds: u32, now: Time, port: u16)
    | Remove(t: nat)
    | Refresh(t: nat, seconds: u32)
    | Permit(relayed: SocketAddr, ips: set<IpAddr>)
    | Bind(t: nat, channel: u16, peer: SocketAddr, now: Time)
    | RelayData(t: nat, channel: u16)
    | Clean(now: Time)
    | CleanChannels(now: Time)

  predicate Enabled(cfg: Config, s: State, step: Step) {
    match step
    case Look(_, r) => r in s.tables.allocations
    case TakePort(port) => cfg.minPort <= port <= cfg.maxPort && port !in s.tables.bits
    case GiveBack(port) => port in s.taken
    case Insert(_, _, _, port) => port in s.taken
    case Remove(t) => t in s.seen
    case Refresh(t, _) => t in s.seen
    case Bind(t, _, _, _) => t in s.seen
    case RelayData(t, _) => t in s.seen
    case _ => true
  }

  function BindTo(s: State, seen: Seen, channel: u16, peer: SocketAddr, now: Time): State {
    match Bound(s.channels, channel, peer, seen.relayed, now)
    case None => s
    case Some(channels) => s.(channels := channels, owner := s.owner[(seen.relayed, channel) := seen.serial])
  }

  /** The allocation now at the address that was seen, acted on. */
  function Did(s: State, seen: Seen): seq<Deed>
    requires seen.relayed in s.tables.allocations
  {
    s.deeds + [Deed(seen.serial, s.tables.allocations[seen.relayed].serial)]
  }

  ghost function Next(cfg: Config, s: State, step: Step): State
    requires Enabled(cfg, s, step)
  {
    var t := s.tables;
    match step
    case Look(task, r) => s.(seen := s.seen[task := Seen(r, t.allocations[r].serial)])
    case TakePort(port) => s.(tables := t.(bits := t.bits + {port}), taken := s.taken + {port})
    case GiveBack(port) => s.(tables := t.(bits := t.bits - {port}), taken := s.taken - {port})
    case Insert(client, seconds, now, port) =>
      s.(tables := Inserted(cfg, t, client, seconds, now, port), taken := s.taken - {port})
    case Remove(task) =>
      var seen := s.seen[task];
      if seen.relayed in t.allocations
      then s.(tables := Removed(t, seen.relayed), channels := WithoutRelayed(s.channels, seen.relayed),
              deeds := Did(s, seen))
      else s
    case Refresh(task, seconds) =>
      var seen := s.seen[task];
      if seen.relayed in t.allocations
      then s.(tables := Refreshed(t, seen.relayed, seconds), deeds := Did(s, seen))
      else s
    case Permit(r, ips) => if r in t.allocations then s.(tables := Permitted(t, r, ips)) else s
    case Bind(task, channel, peer, now) => BindTo(s, s.seen[task], channel, peer, now)
    case RelayData(task, channel) =>
      var key := (s.seen[task].relayed, channel);
      if key in s.channels && key in s.owner
      then s.(deeds := s.deeds + [Deed(s.seen[task].serial, s.owner[key])])
      else s
    case Clean(now) => s.(tables := Cleaned(t, now), channels := WithoutAll(s.channels, ExpiredAddrs(t, now)))
    case CleanChannels(now) => s.(channels := WithoutExpired(s.channels, now))
  }

  const EMPTY: State := State(Tables(map[], {}, 0, 0, {}), {}, map[], map[], map[], [])

  ghost predicate Run(cfg: Config, states: seq<State>, steps: seq<Step>) {
    && |states| == |steps| + 1 && states[0] == EMPTY
    && forall i :: 0 <= i < |steps| ==> StepAt(cfg, states, steps, i)
  }

  ghost predicate StepAt(cfg: Config, states: seq<State>, steps: seq<Step>, i: nat)
    requires |states| == |steps| + 1 && i < |steps|
  {
    Enabled(cfg, states[i], steps[i]) && states[i + 1] == Next(cfg, states[i], steps[i])
  }

  // ---------------------------------------------------------------- the tables

  /** A serial names one allocation: no two have the same, and the next one has not been used. */
  ghost predicate Serials(t: Tables) {
    && (forall r :: r in t.allocations ==> t.allocations[r].serial <= t.total)
    && (forall r, q :: r in t.allocations && q in t.allocations && r != q ==>
          t.allocations[r].serial != t.allocations[q].serial)
  }

  /** The tables without the ports of creations in flight. */
  function Settled(s: State): Tables {
    s.tables.(bits := s.tables.bits - s.taken)
  }

  /**
   * Every set bit is a port in the table or a port of a creation in flight, and not both; counter and trackers follow
   * the table.
   */
  ghost predicate Sound(cfg: Config, s: State) {
    && InStep(cfg, Settled(s)) && Serials(s.tables) && s.taken <= s.tables.bits
    && (forall p :: p in s.taken ==> cfg.minPort <= p <= cfg.maxPort)
  }

  /** A port in flight is not in the table. */
  lemma TakenIsNew(cfg: Config, s: State, r: SocketAddr)
    requires Sound(cfg, s) && r in s.tables.allocations
    ensures r.port !in s.taken && InRange(cfg, r) && r == RelayedAddr(cfg, r.port) && r.port in s.tables.bits
  {
    assert InRange(cfg, r);
    assert RelayedAddr(cfg, r.port) == r;
    assert r.port in Settled(s).bits;
  }

  lemma StepKeepsSerials(cfg: Config, s: State, step: Step)
    requires Enabled(cfg, s, step) && Serials(s.tables)
    ensures Serials(Next(cfg, s, step).tables)
  {
  }

  lemma InsertKeepsSettled(cfg: Config, s: State, client: SocketAddr, seconds: u32, now: Time, port: u16)
    requires Sound(cfg, s) && port in s.taken
    ensures InStep(cfg, Settled(Next(cfg, s, Insert(client, seconds, now, port))))
  {
    var s' := Next(cfg, s, Insert(client, seconds, now, port));
    InsertionKeepsInStep(cfg, Settled(s), client, seconds, now, port);
    assert s'.tables.bits - s'.taken == Settled(s).bits + {port};
    assert Settled(s') == Inserted(cfg, Settled(s), client, seconds, now, port);
  }

  lemma RemoveKeepsSettled(cfg: Config, s: State, r: SocketAddr)
    requires Sound(cfg, s) && r in s.tables.allocations
    ensures InStep(cfg, Settled(s.(tables := Removed(s.tables, r)))) && s.taken <= Removed(s.tables, r).bits
  {
    TakenIsNew(cfg, s, r);
    RemovalKeepsInStep(cfg, Settled(s), r);
    assert Removed(s.tables, r).bits - s.taken == Settled(s).bits - {r.port};
  }

  lemma CleanKeepsSettled(cfg: Config, s: State, now: Time)
    requires Sound(cfg, s)
    ensures InStep(cfg, Settled(s.(tables := Cleaned(s.tables, now)))) && s.taken <= Cleaned(s.tables, now).bits
  {
    var gone := ExpiredAddrs(s.tables, now);
    assert gone == ExpiredAddrs(Settled(s), now);
    CleaningKeepsInStep(cfg, Settled(s), now);
    forall p | p in s.taken ensures p !in (set r | r in gone :: r.port) {
      if p in (set r | r in gone :: r.port) {
        var r :| r in gone && r.port == p;
        TakenIsNew(cfg, s, r);
      }
    }
    assert Cleaned(s.tables, now).bits - s.taken == Cleaned(Settled(s), now).bits;
  }

  lemma PortStepKeepsSettled(cfg: Config, s: State, step: Step)
    requires Enabled(cfg, s, step) && Sound(cfg, s) && (step.TakePort? || step.GiveBack?)
    ensures Settled(Next(cfg, s, step)) == Settled(s) && Next(cfg, s, step).taken <= Next(cfg, s, step).tables.bits
  {
    var s' := Next(cfg, s, step);
    assert s'.tables.bits - s'.taken == s.tables.bits - s.taken;
  }

  lemma UpdateKeepsSettled(cfg: Config, s: State, r: SocketAddr, a: Allocation)
    requires Sound(cfg, s) && r in s.tables.allocations
    ensures InStep(cfg, Settled(s.(tables := s.tables.(allocations := s.tables.allocations[r := a]))))
  {
    UpdateKeepsInStep(cfg, Settled(s), r, a);
  }

  lemma StepKeepsSettled(cfg: Config, s: State, step: Step)
    requires Enabled(cfg, s, step) && Sound(cfg, s)
    ensures InStep(cfg, Settled(Next(cfg, s, step))) && Next(cfg, s, step).taken <= Next(cfg, s, step).tables.bits
  {
    var t := s.tables;
    match step
    case TakePort(_) => PortStepKeepsSettled(cfg, s, step);
    case GiveBack(_) => PortStepKeepsSettled(cfg, s, step);
    case Insert(client, seconds, now, port) => InsertKeepsSettled(cfg, s, client, seconds, now, port);
    case Remove(task) =>
      if s.seen[task].relayed in t.allocations { RemoveKeepsSettled(cfg, s, s.seen[task].relayed); }
    case Refresh(task, seconds) =>
      var r := s.seen[task].relayed;
      if r in t.allocations { UpdateKeepsSettled(cfg, s, r, Refreshed(t, r, seconds).allocations[r]); }
    case Permit(r, ips) => if r in t.allocations { UpdateKeepsSettled(cfg, s, r, Permitted(t, r, ips).allocations[r]); }
    case Clean(now) => CleanKeepsSettled(cfg, s, now);
    case _ =>
  }

  lemma StepKeepsTakenInRange(cfg: Config, s: State, step: Step)
    requires Enabled(cfg, s, step) && forall p :: p in s.taken ==> cfg.minPort <= p <= cfg.maxPort
    ensures forall p :: p in Next(cfg, s, step).taken ==> cfg.minPort <= p <= cfg.maxPort
  {
  }

  lemma StepIsSound(cfg: Config, s: State, step: Step, s': State)
    requires Enabled(cfg, s, step) && Sound(cfg, s) && s' == Next(cfg, s, step)
    ensures Sound(cfg, s')
  {
    StepKeepsSerials(cfg, s, step);
    StepKeepsSettled(cfg, s, step);
    StepKeepsTakenInRange(cfg, s, step);
  }

  lemma StepKeepsSound(cfg: Config, states: seq<State>, steps: seq<Step>, i: nat)
    requires |states| == |steps| + 1 && i < |steps| && StepAt(cfg, states, steps, i) && Sound(cfg, states[i])
    ensures Sound(cfg, states[i + 1])
  {
    StepIsSound(cfg, states[i], steps[i], states[i + 1]);
  }

  /** However the handlers interleave, bitmap, table, counter and trackers stay in step. */
  lemma {:induction false} AlwaysInStep(cfg: Config, states: seq<State>, steps: seq<Step>, i: nat)
    requires Run(cfg, states, steps) && i < |states|
    ensures Sound(cfg, states[i])
  {
    if i > 0 {
      AlwaysInStep(cfg, states, steps, i - 1);
      StepKeepsSound(cfg, states, steps, i - 1);
    }
  }

  // ---------------------------------------------------------------- the channels

  /** Every binding is on the very allocation that was looked up for it. */
  ghost predicate Owned(s: State) {
    forall k :: k in s.channels ==>
      k in s.owner && k.0 in s.tables.allocations && s.tables.allocations[k.0].serial == s.owner[k]
  }

  /** The allocation that was seen is no longer at its address. */
  predicate Gone(s: State, seen: Seen) {
    seen.relayed !in s.tables.allocations || s.tables.allocations[seen.relayed].serial != seen.serial
  }

  /** The step binds a channel for an allocation that is gone. */
  predicate Overtaken(s: State, step: Step) {
    && step.Bind? && step.t in s.seen && Gone(s, s.seen[step.t])
    && Bound(s.channels, step.channel, step.peer, s.seen[step.t].relayed, step.now).Some?
  }

  lemma BindOwnedIff(cfg: Config, s: State, step: Step)
    requires Enabled(cfg, s, step) && Owned(s) && step.Bind?
    ensures Owned(Next(cfg, s, step)) <==> !Overtaken(s, step)
  {
    var s', seen := Next(cfg, s, step), s.seen[step.t];
    var k := (seen.relayed, step.channel);
    if s' != s { assert k in s'.channels && s'.owner[k] == seen.serial; }
  }

  lemma OtherKeepsOwned(cfg: Config, s: State, step: Step)
    requires Enabled(cfg, s, step) && Sound(cfg, s) && Owned(s) && !step.Bind?
    ensures Owned(Next(cfg, s, step))
  {
    if step.Insert? && RelayedAddr(cfg, step.port) in s.tables.allocations {
      TakenIsNew(cfg, s, RelayedAddr(cfg, step.port));
    }
  }

  /** From owned bindings, a step leads to owned bindings exactly when it is not overtaken. */
  lemma StepOwnedIff(cfg: Config, s: State, step: Step)
    requires Enabled(cfg, s, step) && Sound(cfg, s) && Owned(s)
    ensures Owned(Next(cfg, s, step)) <==> !Overtaken(s, step)
  {
    if step.Bind? {
      BindOwnedIff(cfg, s, step);
    } else {
      OtherKeepsOwned(cfg, s, step);
    }
  }

  ghost predicate AlwaysOwned(states: seq<State>) {
    forall i :: 0 <= i < |states| ==> Owned(states[i])
  }

  ghost predicate NeverOvertaken(states: seq<State>, steps: seq<Step>)
    requires |states| == |steps| + 1
  {
    forall i :: 0 <= i < |steps| ==> !Overtaken(states[i], steps[i])
  }

  lemma StepAtOwnedIff(cfg: Config, states: seq<State>, steps: seq<Step>, i: nat)
    requires Run(cfg, states, steps) && i < |steps| && Owned(states[i])
    ensures Owned(states[i + 1]) <==> !Overtaken(states[i], steps[i])
  {
    AlwaysInStep(cfg, states, steps, i);
    assert StepAt(cfg, states, steps, i);
    StepOwnedIff(cfg, states[i], steps[i]);
  }

  lemma {:induction false} OwnedUpTo(cfg: Config, states: seq<State>, steps: seq<Step>, i: nat)
    requires Run(cfg, states, steps) && NeverOvertaken(states, steps) && i < |states|
    ensures Owned(states[i])
  {
    if i > 0 {
      OwnedUpTo(cfg, states, steps, i - 1);
      StepAtOwnedIff(cfg, states, steps, i - 1);
    }
  }

  /**
   * In every run of interleaved handlers, every channel binding is always on the very allocation that was looked up for
   * it, so on a live one of the client that asked, if and only if no binding in the run is overtaken by the end of the
   * allocation it was meant for.
   */
  lemma OwnedIffNotOvertaken(cfg: Config, states: seq<State>, steps: seq<Step>)
    requires Run(cfg, states, steps)
    ensures AlwaysOwned(states) <==> NeverOvertaken(states, steps)
  {
    if NeverOvertaken(states, steps) {
      forall i | 0 <= i < |states| ensures Owned(states[i]) {
        OwnedUpTo(cfg, states, steps, i);
      }
    }
    if AlwaysOwned(states) {
      forall i | 0 <= i < |steps| ensures !Overtaken(states[i], steps[i]) {
        assert Owned(states[i]) && Owned(states[i + 1]);
        StepAtOwnedIff(cfg, states, steps, i);
      }
    }
  }

  // ---------------------------------------------------------------- removals, refreshes and relays

  /** Every removal and refresh met the allocation it was meant for, every relay a binding made for its allocation. */
  ghost predicate Aimed(s: State) {
    forall d <- s.deeds :: d.meant == d.met
  }

  /** The step finds something to act on at the address of an allocation that is gone. */
  predicate Missed(s: State, step: Step) {
    match step
    case Remove(t) => t in s.seen && s.seen[t].relayed in s.tables.allocations && Gone(s, s.seen[t])
    case Refresh(t, _) => t in s.seen && s.seen[t].relayed in s.tables.allocations && Gone(s, s.seen[t])
    case RelayData(t, channel) => t in s.seen && (s.seen[t].relayed, channel) in s.channels && Gone(s, s.seen[t])
    case _ => false
  }

  lemma StepAimedIff(cfg: Config, s: State, step: Step, s': State)
    requires Enabled(cfg, s, step) && Owned(s) && Aimed(s) && s' == Next(cfg, s, step)
    ensures Aimed(s') <==> !Missed(s, step)
  {
    if s'.deeds != s.deeds {
      var d := s'.deeds[|s.deeds|];
      assert s'.deeds == s.deeds + [d] && d in s'.deeds;
    }
  }

  ghost predicate AlwaysAimed(states: seq<State>) {
    forall i :: 0 <= i < |states| ==> Aimed(states[i])
  }

  ghost predicate NeverMissed(states: seq<State>, steps: seq<Step>)
    requires |states| == |steps| + 1
  {
    forall i :: 0 <= i < |steps| ==> !Missed(states[i], steps[i])
  }

  lemma StepAtAimedIff(cfg: Config, states: seq<State>, steps: seq<Step>, i: nat)
    requires Run(cfg, states, steps) && i < |steps| && Owned(states[i]) && Aimed(states[i])
    ensures Aimed(states[i + 1]) <==> !Missed(states[i], steps[i])
  {
    assert StepAt(cfg, states, steps, i);
    StepAimedIff(cfg, states[i], steps[i], states[i + 1]);
  }

  lemma {:induction false} AimedUpTo(cfg: Config, states: seq<State>, steps: seq<Step>, i: nat)
    requires Run(cfg, states, steps) && AlwaysOwned(states) && NeverMissed(states, steps) && i < |states|
    ensures Aimed(states[i])
  {
    if i > 0 {
      AimedUpTo(cfg, states, steps, i - 1);
      assert Owned(states[i - 1]);
      StepAtAimedIff(cfg, states, steps, i - 1);
    }
  }

  /**
   * In every run of interleaved handlers, everything acts on what it was meant for (bindings on the allocation looked
   * up, removals and refreshes on the allocation looked up, relayed ChannelData through a binding made for the sender's
   * allocation) if and only if no binding is overtaken, and no removal, refresh or relay comes after the end of its
   * allocation and finds something else in its place.
   */
  lemma ActsAsMeantIff(cfg: Config, states: seq<State>, steps: seq<Step>)
    requires Run(cfg, states, steps)
    ensures AlwaysOwned(states) && AlwaysAimed(states) <==> NeverOvertaken(states, steps) && NeverMissed(states, steps)
  {
    OwnedIffNotOvertaken(cfg, states, steps);
    if AlwaysOwned(states) && NeverMissed(states, steps) {
      forall i | 0 <= i < |states| ensures Aimed(states[i]) {
        AimedUpTo(cfg, states, steps, i);
      }
    }
    if AlwaysOwned(states) && AlwaysAimed(states) {
      forall i | 0 <= i < |steps| ensures !Missed(states[i], steps[i]) {
        assert Owned(states[i]) && Aimed(states[i]) && Aimed(states[i + 1]);
        StepAtAimedIff(cfg, states, steps, i);
      }
    }
  }

  // ---------------------------------------------------------------- too late

  /** Allocated for a second, looked up, and expired: what is left of it is the lookup. */
  function Expiring(cfg: Config, one: SocketAddr, port: u16): seq<Step> {
    [TakePort(port), Insert(one, 1, 0, port), Look(0, RelayedAddr(cfg, port)), Clean(2 * SECOND)]
  }

  /** The port is free again, and task 0 still remembers the allocation that was there. */
  ghost predicate Stale(cfg: Config, s: State, port: u16) {
    && s.tables.allocations == map[] && port !in s.tables.bits && s.taken == {} && s.channels == map[]
    && s.tables.total == 1 && s.seen == map[0 := Seen(RelayedAddr(cfg, port), 1)] && s.deeds == [] && s.owner == map[]
  }

  /** Task 0 has looked up the only allocation, which has expired two seconds after the start. */
  ghost predicate LookedUp(cfg: Config, s: State, port: u16) {
    var r := RelayedAddr(cfg, port);
    && s.tables.allocations.Keys == {r} && s.tables.bits == {port as nat} && s.taken == {} && s.channels == map[]
    && Expired(s.tables.allocations[r].createdAt, s.tables.allocations[r].lifetime, 2 * SECOND)
    && s.tables.total == 1 && s.seen == map[0 := Seen(r, 1)] && s.deeds == [] && s.owner == map[]
  }

  lemma LookupRun(cfg: Config, one: SocketAddr, port: u16) returns (s1: State, s2: State, s3: State)
    requires cfg.minPort <= port <= cfg.maxPort
    ensures Enabled(cfg, EMPTY, TakePort(port)) && s1 == Next(cfg, EMPTY, TakePort(port))
    ensures Enabled(cfg, s1, Insert(one, 1, 0, port)) && s2 == Next(cfg, s1, Insert(one, 1, 0, port))
    ensures Enabled(cfg, s2, Look(0, RelayedAddr(cfg, port))) && s3 == Next(cfg, s2, Look(0, RelayedAddr(cfg, port)))
    ensures LookedUp(cfg, s3, port)
  {
    var r := RelayedAddr(cfg, port);
    s1 := Next(cfg, EMPTY, TakePort(port));
    s2 := Next(cfg, s1, Insert(one, 1, 0, port));
    assert s2.tables.allocations.Keys == {r} && s2.taken == {} && s2.tables.bits == {port as nat};
    s3 := Next(cfg, s2, Look(0, r));
    assert s3.seen == map[0 := Seen(r, 1)];
  }

  lemma CleanedUp(cfg: Config, s3: State, port: u16)
    requires LookedUp(cfg, s3, port)
    ensures Stale(cfg, Next(cfg, s3, Clean(2 * SECOND)), port)
  {
    var r, s4 := RelayedAddr(cfg, port), Next(cfg, s3, Clean(2 * SECOND));
    assert ExpiredAddrs(s3.tables, 2 * SECOND) == {r} && r in {r};
    assert s4.tables.allocations == map[] && s4.channels == map[];
  }

  lemma ExpiredRun(cfg: Config, one: SocketAddr, port: u16) returns (states: seq<State>)
    requires cfg.minPort <= port <= cfg.maxPort
    ensures Run(cfg, states, Expiring(cfg, one, port)) && Stale(cfg, states[4], port)
  {
    var steps := Expiring(cfg, one, port);
    var s1, s2, s3 := LookupRun(cfg, one, port);
    CleanedUp(cfg, s3, port);
    states := [EMPTY, s1, s2, s3, Next(cfg, s3, Clean(2 * SECOND))];
    assert StepAt(cfg, states, steps, 0) && StepAt(cfg, states, steps, 1);
    assert StepAt(cfg, states, steps, 2) && StepAt(cfg, states, steps, 3);
  }

  lemma RunGoesOn(cfg: Config, states: seq<State>, steps: seq<Step>, step: Step) returns (states': seq<State>)
    requires Run(cfg, states, steps) && Enabled(cfg, states[|steps|], step)
    ensures states' == states + [Next(cfg, states[|steps|], step)] && Run(cfg, states', steps + [step])
  {
    states' := states + [Next(cfg, states[|steps|], step)];
    var steps' := steps + [step];
    forall i | 0 <= i < |steps'| ensures StepAt(cfg, states', steps', i) {
      if i < |steps| { assert StepAt(cfg, states, steps, i); }
    }
  }

  /** The client's allocation has a channel that was bound for an earlier allocation of the port. */
  ghost predicate Inherits(cfg: Config, s: State, client: SocketAddr, peer: SocketAddr, port: u16) {
    var r := RelayedAddr(cfg, port);
    && r in s.tables.allocations && s.tables.allocations[r].client == client
    && (r, 0x4000) in s.channels && s.channels[(r, 0x4000)].peer == peer
    && (r, 0x4000) in s.owner && s.owner[(r, 0x4000)] < s.tables.allocations[r].serial
  }

  /** With any configuration, clients and peer: a binding that comes too late is on the next client's allocation. */
  lemma BindingCanBeOvertaken(cfg: Config, one: SocketAddr, other: SocketAddr, peer: SocketAddr, port: u16)
    returns (states: seq<State>, steps: seq<Step>)
    requires cfg.minPort <= port <= cfg.maxPort
    ensures Run(cfg, states, steps) && |steps| == 7 && Inherits(cfg, states[7], other, peer, port)
    ensures !AlwaysOwned(states)
  {
    var at := 2 * SECOND;
    var s4 := ExpiredRun(cfg, one, port);
    var s5 := RunGoesOn(cfg, s4, Expiring(cfg, one, port), Bind(0, 0x4000, peer, at));
    var s6 := RunGoesOn(cfg, s5, Expiring(cfg, one, port) + [Bind(0, 0x4000, peer, at)], TakePort(port));
    steps := Expiring(cfg, one, port) + [Bind(0, 0x4000, peer, at)] + [TakePort(port)];
    states := RunGoesOn(cfg, s6, steps, Insert(other, 600, at, port));
    steps := steps + [Insert(other, 600, at, port)];
    assert !Owned(states[7]);
  }

  /** And a removal that comes too late, by a Refresh to zero or before a new Allocate, ends the next client's. */
  lemma RemovalCanMiss(cfg: Config, one: SocketAddr, other: SocketAddr, port: u16)
    returns (states: seq<State>, steps: seq<Step>)
    requires cfg.minPort <= port <= cfg.maxPort
    ensures Run(cfg, states, steps) && |steps| == 7 && steps[6] == Remove(0)
    ensures var r := RelayedAddr(cfg, port);
            && r in states[6].tables.allocations && states[6].tables.allocations[r].client == other
            && r !in states[7].tables.allocations
    ensures !AlwaysAimed(states)
  {
    var at := 2 * SECOND;
    var s4 := ExpiredRun(cfg, one, port);
    steps := Expiring(cfg, one, port);
    var s5 := RunGoesOn(cfg, s4, steps, TakePort(port));
    steps := steps + [TakePort(port)];
    var s6 := RunGoesOn(cfg, s5, steps, Insert(other, 600, at, port));
    steps := steps + [Insert(other, 600, at, port)];
    states := RunGoesOn(cfg, s6, steps, Remove(0));
    steps := steps + [Remove(0)];
    assert Deed(1, 2) in states[7].deeds;
    assert !Aimed(states[7]);
  }
}
