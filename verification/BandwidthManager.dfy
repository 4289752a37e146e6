/**
 * The bandwidth manager of src/bandwidth.rs: one bucket for the whole server, one for each registered allocation, and
 * a counter of the bytes relayed. One caller at a time.
 */
module BandwidthManager {
  import opened Bytes
  import opened Channels
  import opened Bandwidth

  const UNLIMITED: u64 := MAX64 / 2

  datatype Tracker = Tracker(limit: Option<u64>, bucket: Bucket)
  datatype Manager = Manager(globalLimit: Option<u64>, global: Bucket, trackers: map<string, Tracker>, totalBytes: u64)

  /** A bucket of ten seconds' worth, full. */
  function NewBucket(limit: Option<u64>, now: Time): Bucket {
    var rate := if limit.Some? then limit.value else UNLIMITED;
    Bucket(SatMul(rate, 10), rate, SatMul(rate, 10), now)
  }

  function WrapAdd(a: u64, b: u64): u64 {
    (a + b) % (MAX64 + 1)
  }

  function Through(t: Tracker, size: u64, now: Time): Option<Tracker> {
    if t.limit.None? then Some(t)
    else match Consumed(t.bucket, size, now)
      case None => None
      case Some(b) => Some(t.(bucket := b))
  }

  /** `try_relay`: the server's tokens are gone even when the allocation's own bucket then refuses. */
  function RelayStep(m: Manager, name: string, size: u64, now: Time): (Manager, bool) {
    var global := Consumed(m.global, size, now);
    if m.globalLimit.Some? && global.None? then (m, false)
    else
      var m1 := if m.globalLimit.Some? then m.(global := global.value) else m;
      var counted := m1.(totalBytes := WrapAdd(m1.totalBytes, size));
      if name !in m.trackers then (counted, true)
      else match Through(m.trackers[name], size, now)
        case None => (m1, false)
        case Some(t) => (counted.(trackers := m.trackers[name := t]), true)
  }

  /** An allocation's entry: its limit and the limiter it shares. */
  datatype TrackerRef = TrackerRef(limit: Option<u64>, limiter: BandwidthLimiter)

  class BandwidthManager {
    const globalLimit: Option<u64>
    const global: BandwidthLimiter
    var trackers: map<string, TrackerRef>
    var totalBytes: u64

    ghost function Limiters(): set<BandwidthLimiter>
      reads this
    {
      set n | n in trackers :: trackers[n].limiter
    }

    /** No two entries share a limiter, and none is the server's. */
    ghost predicate Valid()
      reads this
    {
      && global !in Limiters()
      && (forall n, k :: n in trackers && k in trackers && n != k ==> trackers[n].limiter != trackers[k].limiter)
    }

    ghost function View(): Manager
      reads this, global, Limiters()
    {
      Manager(globalLimit, global.View(),
              map n | n in trackers :: Tracker(trackers[n].limit, trackers[n].limiter.View()), totalBytes)
    }

    constructor (limit: Option<u64>, now: Time)
      ensures Valid() && View() == Manager(limit, NewBucket(limit, now), map[], 0)
      ensures fresh(global) && Limiters() == {}
    {
      globalLimit := limit;
      var b := NewBucket(limit, now);
      global := new BandwidthLimiter(b.rate, b.max, now);
      trackers, totalBytes := map[], 0;
    }

    method RegisterAllocation(name: string, limit: Option<u64>, now: Time)
      requires Valid()
      modifies this
      ensures Valid() && View() == Next(old(View()), Register(now, name, limit)) && fresh(Limiters() - old(Limiters()))
    {
      var b := NewBucket(limit, now);
      var limiter := new BandwidthLimiter(b.rate, b.max, now);
      trackers := trackers[name := TrackerRef(limit, limiter)];
    }

    method UnregisterAllocation(name: string)
      requires Valid()
      modifies this
      ensures Valid() && Limiters() <= old(Limiters())
      ensures View() == old(View()).(trackers := old(View()).trackers - {name})
    {
      trackers := trackers - {name};
    }

    method TakeGlobal(size: u64, now: Time, spurious: nat) returns (ok: bool)
      requires Valid()
      modifies global
      ensures Valid() && (ok <==> globalLimit.None? || old(Consumed(global.View(), size, now)).Some?)
      ensures View() == if globalLimit.Some? && ok
                        then old(View()).(global := old(Consumed(global.View(), size, now)).value) else old(View())
    {
      if globalLimit.None? {
        return true;
      }
      var r := global.TryConsume(size, now, spurious);
      assert forall n :: n in trackers ==> trackers[n].limiter.View() == old(trackers[n].limiter.View());
      ok := r.Some?;
    }

    method TakeFrom(name: string, size: u64, now: Time, spurious: nat) returns (ok: bool)
      requires Valid() && name in trackers
      modifies trackers[name].limiter
      ensures Valid() && (ok <==> Through(old(View()).trackers[name], size, now).Some?)
      ensures View() == var t := old(View()).trackers;
                        if ok then old(View()).(trackers := t[name := Through(t[name], size, now).value])
                        else old(View())
    {
      if trackers[name].limit.None? {
        assert View().trackers == View().trackers[name := View().trackers[name]];
        return true;
      }
      var r := trackers[name].limiter.TryConsume(size, now, spurious);
      assert forall n :: n in trackers && n != name ==> trackers[n].limiter.View() == old(trackers[n].limiter.View());
      ok := r.Some?;
    }

    method Count(size: u64)
      requires Valid()
      modifies this`totalBytes
      ensures Valid() && View() == old(View()).(totalBytes := WrapAdd(old(totalBytes), size))
    {
      totalBytes := WrapAdd(totalBytes, size);
      assert View().trackers == old(View()).trackers;
    }

    method TryRelay(name: string, size: u64, now: Time, spurious: nat) returns (ok: bool)
      requires Valid()
      modifies this, global, Limiters()
      ensures Valid() && (View(), ok) == RelayStep(old(View()), name, size, now) && Limiters() == old(Limiters())
    {
      ok := TakeGlobal(size, now, spurious);
      if ok && name in trackers {
        ok := TakeFrom(name, size, now, spurious);
      }
      if ok {
        Count(size);
      }
    }
  }

  // ---------------------------------------------------------------- exactly what passes

  /** The bucket after a call of this size was let through. */
  function Less(b: Bucket, size: u64, now: Time): Bucket
    requires size <= Available(b, now)
  {
    Bucket(b.max, b.rate, Available(b, now) - size, now)
  }

  predicate GlobalPasses(m: Manager, size: u64, now: Time) {
    m.globalLimit.None? || size <= Available(m.global, now)
  }

  predicate TrackerPasses(m: Manager, name: string, size: u64, now: Time) {
    name !in m.trackers || m.trackers[name].limit.None? || size <= Available(m.trackers[name].bucket, now)
  }

  /**
   * A packet is relayed exactly when both buckets that apply hold its size. The server's bucket pays whenever it holds
   * the size, the allocation's bucket and the counter only when the packet is relayed; nothing else changes.
   */
  lemma RelayLaw(m: Manager, name: string, size: u64, now: Time)
    ensures var (m', ok) := RelayStep(m, name, size, now);
            && (ok <==> GlobalPasses(m, size, now) && TrackerPasses(m, name, size, now))
            && m'.globalLimit == m.globalLimit
            && m'.global == (if m.globalLimit.Some? && GlobalPasses(m, size, now) then Less(m.global, size, now)
                             else m.global)
            && m'.totalBytes == (if ok then (m.totalBytes + size) % 0x1_0000_0000_0000_0000 else m.totalBytes)
            && m'.trackers.Keys == m.trackers.Keys
            && (forall n :: n in m.trackers && n != name ==> m'.trackers[n] == m.trackers[n])
            && (name in m.trackers ==>
                  m'.trackers[name] == if ok && m.trackers[name].limit.Some?
                                       then Tracker(m.trackers[name].limit, Less(m.trackers[name].bucket, size, now))
                                       else m.trackers[name])
  {
    ConsumedExactly(m.global, size, now);
    if name in m.trackers { ConsumedExactly(m.trackers[name].bucket, size, now); }
  }

  /** A new bucket holds ten seconds' worth, at most what 64 bits hold. */
  lemma NewBucketHolds(limit: u64, now: Time)
    ensures Available(NewBucket(Some(limit), now), now) == Min(10 * limit, 0xFFFF_FFFF_FFFF_FFFF)
    ensures NewBucket(Some(limit), now).rate == limit
  {
  }

  // ---------------------------------------------------------------- runs

  datatype Op =
    | Register(now: Time, name: string, limit: Option<u64>)
    | Unregister(now: Time, name: string)
    | Relay(now: Time, name: string, size: u64)

  function Next(m: Manager, op: Op): Manager {
    match op
    case Register(now, name, limit) => m.(trackers := m.trackers[name := Tracker(limit, NewBucket(limit, now))])
    case Unregister(_, name) => m.(trackers := m.trackers - {name})
    case Relay(now, name, size) => RelayStep(m, name, size, now).0
  }

  predicate Accepts(m: Manager, op: Op) {
    op.Relay? && RelayStep(m, op.name, op.size, op.now).1
  }

  function NextAll(m: Manager, ops: seq<Op>): Manager
    decreases |ops|
  {
    if ops == [] then m else NextAll(Next(m, ops[0]), ops[1..])
  }

  /** The bytes relayed, through any allocation. */
  function Accepted(m: Manager, ops: seq<Op>): nat
    decreases |ops|
  {
    if ops == [] then 0
    else (if Accepts(m, ops[0]) then ops[0].size else 0) + Accepted(Next(m, ops[0]), ops[1..])
  }

  /** The bytes relayed through one allocation. */
  function AcceptedFor(m: Manager, ops: seq<Op>, name: string): nat
    decreases |ops|
  {
    if ops == [] then 0
    else (if Accepts(m, ops[0]) && ops[0].name == name then ops[0].size else 0)
         + AcceptedFor(Next(m, ops[0]), ops[1..], name)
  }

  predicate OpsWithin(ops: seq<Op>, start: Time, end: Time) {
    if ops == [] then start <= end else start <= ops[0].now && OpsWithin(ops[1..], ops[0].now, end)
  }

  lemma ModAdd(a: nat, b: nat)
    ensures (a % (MAX64 + 1) + b) % (MAX64 + 1) == (a + b) % (MAX64 + 1)
  {
  }

  /** The counter is the sum of the accepted sizes, modulo its width. */
  lemma {:induction false} CounterIsAccepted(m: Manager, ops: seq<Op>)
    ensures NextAll(m, ops).totalBytes == (m.totalBytes + Accepted(m, ops)) % (MAX64 + 1)
    decreases |ops|
  {
    if ops != [] {
      CounterIsAccepted(Next(m, ops[0]), ops[1..]);
      if Accepts(m, ops[0]) {
        ModAdd(m.totalBytes + ops[0].size, Accepted(Next(m, ops[0]), ops[1..]));
      }
    }
  }

  /** The calls the server's bucket sees. */
  function GlobalCalls(ops: seq<Op>): seq<Call> {
    if ops == [] then []
    else (if ops[0].Relay? then [Call(ops[0].now, ops[0].size)] else []) + GlobalCalls(ops[1..])
  }

  lemma EarlierStart(calls: seq<Call>, start: Time, later: Time, end: Time)
    requires Within(calls, later, end) && start <= later
    ensures Within(calls, start, end)
  {
  }

  lemma {:induction false} GlobalCallsWithin(ops: seq<Op>, start: Time, end: Time)
    requires OpsWithin(ops, start, end)
    ensures Within(GlobalCalls(ops), start, end)
  {
    if ops != [] {
      var rest := GlobalCalls(ops[1..]);
      GlobalCallsWithin(ops[1..], ops[0].now, end);
      EarlierStart(rest, start, ops[0].now, end);
      if ops[0].Relay? {
        assert GlobalCalls(ops)[1..] == rest;
      } else {
        assert GlobalCalls(ops) == rest;
      }
    }
  }

  lemma {:induction false} AcceptedIsSpent(m: Manager, ops: seq<Op>)
    requires m.globalLimit.Some?
    ensures Accepted(m, ops) <= Spent(m.global, GlobalCalls(ops))
    decreases |ops|
  {
    if ops != [] {
      var rest := GlobalCalls(ops[1..]);
      AcceptedIsSpent(Next(m, ops[0]), ops[1..]);
      if ops[0].Relay? {
        assert GlobalCalls(ops)[1..] == rest;
        assert Next(m, ops[0]).global == After(m.global, Call(ops[0].now, ops[0].size));
      } else {
        assert GlobalCalls(ops) == rest;
      }
    }
  }

  /** The configured bucket of a limit, last used no later than `now`. */
  predicate Configured(b: Bucket, limit: u64, now: Time) {
    b.rate == limit && b.max == SatMul(limit, 10) && b.lastUpdate <= now
  }

  lemma {:induction false} StaysConfigured(b: Bucket, calls: seq<Call>, start: Time, end: Time, limit: u64)
    requires Configured(b, limit, start) && Within(calls, start, end)
    ensures Configured(AfterAll(b, calls), limit, end)
    decreases |calls|
  {
    if calls != [] { StaysConfigured(After(b, calls[0]), calls[1..], calls[0].now, end, limit); }
  }

  lemma {:induction false} GlobalAfter(m: Manager, ops: seq<Op>)
    requires m.globalLimit.Some?
    ensures NextAll(m, ops).globalLimit == m.globalLimit
    ensures NextAll(m, ops).global == AfterAll(m.global, GlobalCalls(ops))
    decreases |ops|
  {
    if ops != [] {
      var rest := GlobalCalls(ops[1..]);
      GlobalAfter(Next(m, ops[0]), ops[1..]);
      if ops[0].Relay? {
        assert GlobalCalls(ops)[1..] == rest;
        assert Next(m, ops[0]).global == After(m.global, Call(ops[0].now, ops[0].size));
      } else {
        assert GlobalCalls(ops) == rest;
      }
    }
  }

  lemma WindowBound(m: Manager, ops: seq<Op>, start: Time, end: Time, limit: u64)
    requires m.globalLimit == Some(limit) && Configured(m.global, limit, start) && OpsWithin(ops, start, end)
    ensures start <= end && Accepted(m, ops) * SECOND <= SatMul(limit, 10) * SECOND + limit * (end - start)
  {
    GlobalCallsWithin(ops, start, end);
    AcceptedIsSpent(m, ops);
    RateBound(m.global, GlobalCalls(ops), start, end);
  }

  /**
   * With a server-wide limit, the bytes relayed in any window of any run are at most ten seconds' worth, saturated,
   * and what the limit allows for the length of the window.
   */
  lemma GlobalBound(limit: u64, created: Time, before: seq<Op>, start: Time, ops: seq<Op>, end: Time)
    requires OpsWithin(before, created, start) && OpsWithin(ops, start, end)
    ensures var m := NextAll(Manager(Some(limit), NewBucket(Some(limit), created), map[], 0), before);
            start <= end && Accepted(m, ops) * SECOND <= SatMul(limit, 10) * SECOND + limit * (end - start)
  {
    var m0 := Manager(Some(limit), NewBucket(Some(limit), created), map[], 0);
    GlobalCallsWithin(before, created, start);
    StaysConfigured(m0.global, GlobalCalls(before), created, start, limit);
    GlobalAfter(m0, before);
    WindowBound(NextAll(m0, before), ops, start, end, limit);
  }

  /** So the counter of bytes relayed obeys the limit from the start, whether or not it has wrapped. */
  lemma CounterBound(limit: u64, created: Time, ops: seq<Op>, end: Time)
    requires OpsWithin(ops, created, end)
    ensures var m := Manager(Some(limit), NewBucket(Some(limit), created), map[], 0);
            && created <= end
            && NextAll(m, ops).totalBytes == Accepted(m, ops) % (MAX64 + 1)
            && NextAll(m, ops).totalBytes * SECOND <= SatMul(limit, 10) * SECOND + limit * (end - created)
  {
    var m := Manager(Some(limit), NewBucket(Some(limit), created), map[], 0);
    CounterIsAccepted(m, ops);
    WindowBound(m, ops, created, end, limit);
  }

  // ---------------------------------------------------------------- one allocation

  /** The allocation stays registered. */
  predicate Untouched(ops: seq<Op>, name: string) {
    forall op <- ops :: !op.Relay? ==> op.name != name
  }

  /** The calls the bucket of one allocation sees: those the server's bucket lets through. */
  function CallsFor(m: Manager, ops: seq<Op>, name: string): seq<Call>
    decreases |ops|
  {
    if ops == [] then []
    else
      var op := ops[0];
      (if op.Relay? && op.name == name && (m.globalLimit.None? || Consumed(m.global, op.size, op.now).Some?)
       then [Call(op.now, op.size)] else [])
      + CallsFor(Next(m, op), ops[1..], name)
  }

  lemma {:induction false} CallsForWithin(m: Manager, ops: seq<Op>, name: string, start: Time, end: Time)
    requires OpsWithin(ops, start, end)
    ensures Within(CallsFor(m, ops, name), start, end)
    decreases |ops|
  {
    if ops != [] {
      var rest := CallsFor(Next(m, ops[0]), ops[1..], name);
      CallsForWithin(Next(m, ops[0]), ops[1..], name, ops[0].now, end);
      EarlierStart(rest, start, ops[0].now, end);
      if CallsFor(m, ops, name) != rest {
        assert CallsFor(m, ops, name)[1..] == rest;
      }
    }
  }

  /** One step, seen by the bucket of one allocation. */
  lemma StepFor(m: Manager, op: Op, name: string)
    requires name in m.trackers && m.trackers[name].limit.Some? && (op.Relay? || op.name != name)
    ensures var t, m' := m.trackers[name], Next(m, op);
            && name in m'.trackers
            && if op.Relay? && op.name == name && (m.globalLimit.None? || Consumed(m.global, op.size, op.now).Some?)
               then m'.trackers[name] == t.(bucket := After(t.bucket, Call(op.now, op.size)))
                    && (Accepts(m, op) <==> Consumed(t.bucket, op.size, op.now).Some?)
               else m'.trackers[name] == t && (op.name == name ==> !Accepts(m, op))
  {
  }

  lemma {:induction false} AcceptedForIsSpent(m: Manager, ops: seq<Op>, name: string)
    requires name in m.trackers && m.trackers[name].limit.Some? && Untouched(ops, name)
    ensures AcceptedFor(m, ops, name) == Spent(m.trackers[name].bucket, CallsFor(m, ops, name))
    decreases |ops|
  {
    if ops != [] {
      var m' := Next(m, ops[0]);
      var rest := CallsFor(m', ops[1..], name);
      StepFor(m, ops[0], name);
      AcceptedForIsSpent(m', ops[1..], name);
      if m'.trackers[name] == m.trackers[name] && CallsFor(m, ops, name) == [] + rest {
        assert CallsFor(m, ops, name) == rest;
      } else {
        assert CallsFor(m, ops, name)[1..] == rest;
      }
    }
  }

  lemma {:induction false} TrackerAfter(m: Manager, ops: seq<Op>, name: string)
    requires name in m.trackers && m.trackers[name].limit.Some? && Untouched(ops, name)
    ensures name in NextAll(m, ops).trackers
    ensures NextAll(m, ops).trackers[name] ==
            m.trackers[name].(bucket := AfterAll(m.trackers[name].bucket, CallsFor(m, ops, name)))
    decreases |ops|
  {
    if ops != [] {
      var m' := Next(m, ops[0]);
      var rest := CallsFor(m', ops[1..], name);
      StepFor(m, ops[0], name);
      TrackerAfter(m', ops[1..], name);
      if m'.trackers[name] == m.trackers[name] && CallsFor(m, ops, name) == [] + rest {
        assert CallsFor(m, ops, name) == rest;
      } else {
        assert CallsFor(m, ops, name)[1..] == rest;
      }
    }
  }

  lemma AllocationWindow(m: Manager, name: string, limit: u64, ops: seq<Op>, start: Time, end: Time)
    requires name in m.trackers && m.trackers[name].limit == Some(limit)
    requires Configured(m.trackers[name].bucket, limit, start)
    requires OpsWithin(ops, start, end) && Untouched(ops, name)
    ensures start <= end && AcceptedFor(m, ops, name) * SECOND <= SatMul(limit, 10) * SECOND + limit * (end - start)
  {
    CallsForWithin(m, ops, name, start, end);
    AcceptedForIsSpent(m, ops, name);
    RateBound(m.trackers[name].bucket, CallsFor(m, ops, name), start, end);
  }

  /**
   * An allocation obeys its own limit in every window after its registration in any state, whatever the other
   * allocations do.
   */
  lemma AllocationBound(m: Manager, name: string, limit: u64, registered: Time, before: seq<Op>, start: Time,
                        ops: seq<Op>, end: Time)
    requires OpsWithin(before, registered, start) && Untouched(before, name)
    requires OpsWithin(ops, start, end) && Untouched(ops, name)
    ensures var m' := NextAll(Next(m, Register(registered, name, Some(limit))), before);
            start <= end && AcceptedFor(m', ops, name) * SECOND <= SatMul(limit, 10) * SECOND + limit * (end - start)
  {
    var m1 := Next(m, Register(registered, name, Some(limit)));
    var calls := CallsFor(m1, before, name);
    CallsForWithin(m1, before, name, registered, start);
    StaysConfigured(m1.trackers[name].bucket, calls, registered, start, limit);
    TrackerAfter(m1, before, name);
    AllocationWindow(NextAll(m1, before), name, limit, ops, start, end);
  }

  // ---------------------------------------------------------------- the manager from its creation on

  lemma {:induction false} NextAppend(m: Manager, ops: seq<Op>, op: Op)
    ensures NextAll(m, ops + [op]) == Next(NextAll(m, ops), op)
    ensures Accepted(m, ops + [op]) == Accepted(m, ops) + if Accepts(NextAll(m, ops), op) then op.size else 0
    decreases |ops|
  {
    var all := ops + [op];
    if ops == [] {
      assert all == [op] && all[1..] == [];
    } else {
      assert all[1..] == ops[1..] + [op];
      NextAppend(Next(m, ops[0]), ops[1..], op);
    }
  }

  /** Any operations on a new manager with a limit: it takes their steps, and what it relays stays within the limit. */
  method RelayAll(limit: u64, created: Time, ops: seq<Op>, end: Time, spurious: nat) returns (relayed: nat)
    requires OpsWithin(ops, created, end)
    ensures relayed == Accepted(Manager(Some(limit), NewBucket(Some(limit), created), map[], 0), ops)
    ensures created <= end && relayed * SECOND <= SatMul(limit, 10) * SECOND + limit * (end - created)
  {
    ghost var m := Manager(Some(limit), NewBucket(Some(limit), created), map[], 0);
    var manager := new BandwidthManager(Some(limit), created);
    relayed := 0;
    for k := 0 to |ops|
      invariant fresh(manager) && fresh(manager.global) && fresh(manager.Limiters()) && manager.Valid()
      invariant manager.View() == NextAll(m, ops[..k]) && relayed == Accepted(m, ops[..k])
    {
      NextAppend(m, ops[..k], ops[k]);
      assert ops[..k + 1] == ops[..k] + [ops[k]];
      match ops[k]
      case Register(now, name, limit) => manager.RegisterAllocation(name, limit, now);
      case Unregister(_, name) => manager.UnregisterAllocation(name);
      case Relay(now, name, size) =>
        var ok := manager.TryRelay(name, size, now, spurious);
        relayed := relayed + if ok then size else 0;
    }
    assert ops[..|ops|] == ops;
    WindowBound(m, ops, created, end, limit);
  }
}
