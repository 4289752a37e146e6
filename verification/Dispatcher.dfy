/**
 * The UDP dispatcher of src/server.rs: one listener that hashes each packet's client to a worker and offers it to that
 * worker's bounded queue, and workers that handle their packets one at a time. Listener and workers interleave freely;
 * a handler may panic, which ends its worker and discards its queue.
 */
module Dispatcher {
  import opened Bytes
  import opened Codec

  const QUEUE_CAPACITY: nat := 1024

  datatype Packet = Packet(client: SocketAddr, data: Octets)

  datatype Worker = Worker(queue: seq<Packet>, handling: Option<Packet>, dead: bool)

  /** The last three fields are histories: packets received, packets whose handling began, packets never handled. */
  datatype State = State(workers: seq<Worker>, received: seq<Packet>, started: seq<Packet>, lost: seq<Packet>)

  datatype Step =
    | Receive(packet: Packet)
    | Start(worker: nat)
    | Finish(worker: nat)
    | Panic(worker: nat)

  type Hash = SocketAddr -> nat

  function WorkerOf(hash: Hash, n: nat, client: SocketAddr): (w: nat)
    requires n > 0
    ensures w < n
  {
    hash(client) % n
  }

  predicate Enabled(s: State, step: Step) {
    match step
    case Receive(_) => |s.workers| > 0
    case Start(w) => w < |s.workers| && !s.workers[w].dead && s.workers[w].handling.None? && s.workers[w].queue != []
    case Finish(w) => w < |s.workers| && s.workers[w].handling.Some?
    case Panic(w) => w < |s.workers| && s.workers[w].handling.Some?
  }

  function Next(hash: Hash, s: State, step: Step): State
    requires Enabled(s, step)
  {
    match step
    case Receive(p) =>
      var w := WorkerOf(hash, |s.workers|, p.client);
      var worker := s.workers[w];
      if worker.dead || |worker.queue| >= QUEUE_CAPACITY
      then s.(received := s.received + [p], lost := s.lost + [p])
      else s.(received := s.received + [p], workers := s.workers[w := worker.(queue := worker.queue + [p])])
    case Start(w) =>
      var worker := s.workers[w];
      var p := worker.queue[0];
      s.(workers := s.workers[w := worker.(queue := worker.queue[1..], handling := Some(p))],
         started := s.started + [p])
    case Finish(w) => s.(workers := s.workers[w := s.workers[w].(handling := None)])
    case Panic(w) => s.(workers := s.workers[w := Worker([], None, true)], lost := s.lost + s.workers[w].queue)
  }

  function Initial(n: nat): State {
    State(seq(n, _ => Worker([], None, false)), [], [], [])
  }

  ghost predicate Run(hash: Hash, n: nat, states: seq<State>, steps: seq<Step>) {
    && |states| == |steps| + 1 && states[0] == Initial(n)
    && forall i :: 0 <= i < |steps| ==> StepAt(hash, states, steps, i)
  }

  ghost predicate StepAt(hash: Hash, states: seq<State>, steps: seq<Step>, i: nat)
    requires |states| == |steps| + 1 && i < |steps|
  {
    Enabled(states[i], steps[i]) && states[i + 1] == Next(hash, states[i], steps[i])
  }

  // ---------------------------------------------------------------- subsequences

  /** The packets of one client, in order. */
  function Of(s: seq<Packet>, c: SocketAddr): seq<Packet> {
    if s == [] then [] else Of(s[..|s| - 1], c) + if s[|s| - 1].client == c then [s[|s| - 1]] else []
  }

  /** `a` is what is left of `b` after some elements are struck out. */
  predicate Subsequence(a: seq<Packet>, b: seq<Packet>)
    decreases |b|
  {
    if a == [] then true
    else if b == [] then false
    else
      || (a[|a| - 1] == b[|b| - 1] && Subsequence(a[..|a| - 1], b[..|b| - 1]))
      || Subsequence(a, b[..|b| - 1])
  }

  lemma OfAppend(s: seq<Packet>, p: Packet, c: SocketAddr)
    ensures Of(s + [p], c) == if p.client == c then Of(s, c) + [p] else Of(s, c)
  {
    assert (s + [p])[..|s|] == s;
  }

  lemma {:induction false} OfConcat(s: seq<Packet>, t: seq<Packet>, c: SocketAddr)
    ensures Of(s + t, c) == Of(s, c) + Of(t, c)
  {
    if t == [] {
      assert s + t == s;
    } else {
      var init, last := t[..|t| - 1], t[|t| - 1];
      assert t == init + [last] && s + t == (s + init) + [last];
      OfConcat(s, init, c);
      OfAppend(s + init, last, c);
      OfAppend(init, last, c);
    }
  }

  lemma OfOne(p: Packet, c: SocketAddr)
    ensures Of([p], c) == if p.client == c then [p] else []
  {
    OfAppend([], p, c);
    assert [] + [p] == [p];
  }

  lemma SubsequenceBoth(a: seq<Packet>, b: seq<Packet>, p: Packet)
    requires Subsequence(a, b)
    ensures Subsequence(a + [p], b + [p])
  {
    assert (a + [p])[..|a|] == a && (b + [p])[..|b|] == b;
  }

  lemma SubsequenceLonger(a: seq<Packet>, b: seq<Packet>, p: Packet)
    requires Subsequence(a, b)
    ensures Subsequence(a, b + [p])
  {
    assert (b + [p])[..|b|] == b;
  }

  /** Striking out the end as well. */
  lemma {:induction false} SubsequencePrefix(a: seq<Packet>, q: seq<Packet>, b: seq<Packet>)
    requires Subsequence(a + q, b)
    ensures Subsequence(a, b)
    decreases |b|
  {
    if a != [] && b != [] {
      var s := a + q;
      if Subsequence(s, b[..|b| - 1]) {
        SubsequencePrefix(a, q, b[..|b| - 1]);
      } else if q == [] {
        assert a + q == a;
      } else {
        assert s[..|s| - 1] == a + q[..|q| - 1];
        SubsequencePrefix(a, q[..|q| - 1], b[..|b| - 1]);
      }
    }
  }

  lemma {:induction false} SubsequenceLength(a: seq<Packet>, b: seq<Packet>)
    requires Subsequence(a, b)
    ensures |a| <= |b| && (|a| == |b| ==> a == b)
    decreases |b|
  {
    if a != [] && b != [] {
      var a', b' := a[..|a| - 1], b[..|b| - 1];
      if Subsequence(a, b') {
        SubsequenceLength(a, b');
      } else {
        SubsequenceLength(a', b');
        assert a == a' + [a[|a| - 1]] && b == b' + [b[|b| - 1]];
      }
    }
  }

  // ---------------------------------------------------------------- what every step keeps

  predicate AllHashTo(hash: Hash, n: nat, s: seq<Packet>, w: nat)
    requires n > 0
  {
    forall p <- s :: WorkerOf(hash, n, p.client) == w
  }

  /** A worker only ever holds packets of clients that hash to it. */
  ghost predicate AtHome(hash: Hash, s: State) {
    forall w :: 0 <= w < |s.workers| ==> WorkerAtHome(hash, s, w)
  }

  ghost predicate WorkerAtHome(hash: Hash, s: State, w: nat)
    requires w < |s.workers|
  {
    && AllHashTo(hash, |s.workers|, s.workers[w].queue, w)
    && (s.workers[w].handling.Some? ==> WorkerOf(hash, |s.workers|, s.workers[w].handling.value.client) == w)
  }

  lemma StaysHome(hash: Hash, s: State, step: Step)
    requires AtHome(hash, s) && Enabled(s, step)
    ensures AtHome(hash, Next(hash, s, step)) && |Next(hash, s, step).workers| == |s.workers|
  {
    var s' := Next(hash, s, step);
    forall w | 0 <= w < |s'.workers| ensures WorkerAtHome(hash, s', w) {
      assert WorkerAtHome(hash, s, w);
    }
  }

  /** Handled, then waiting, in the order received; the rest was lost. */
  predicate Balanced(started: seq<Packet>, waiting: seq<Packet>, received: seq<Packet>, lost: seq<Packet>) {
    Subsequence(started + waiting, received) && |received| == |started| + |waiting| + |lost|
  }

  lemma BalancedQueued(started: seq<Packet>, waiting: seq<Packet>, received: seq<Packet>, lost: seq<Packet>, p: Packet)
    requires Balanced(started, waiting, received, lost)
    ensures Balanced(started, waiting + [p], received + [p], lost)
  {
    SubsequenceBoth(started + waiting, received, p);
    Regroup(started, waiting, [p]);
  }

  lemma BalancedLost(started: seq<Packet>, waiting: seq<Packet>, received: seq<Packet>, lost: seq<Packet>, p: Packet)
    requires Balanced(started, waiting, received, lost)
    ensures Balanced(started, waiting, received + [p], lost + [p])
  {
    SubsequenceLonger(started + waiting, received, p);
  }

  lemma BalancedStarted(started: seq<Packet>, waiting: seq<Packet>, received: seq<Packet>, lost: seq<Packet>, p: Packet)
    requires Balanced(started, [p] + waiting, received, lost)
    ensures Balanced(started + [p], waiting, received, lost)
  {
    Regroup(started, [p], waiting);
  }

  function Waiting(hash: Hash, s: State, c: SocketAddr): seq<Packet>
    requires |s.workers| > 0
  {
    Of(s.workers[WorkerOf(hash, |s.workers|, c)].queue, c)
  }

  /** The client's packets are balanced. */
  ghost predicate Accounted(hash: Hash, s: State, c: SocketAddr)
    requires |s.workers| > 0
  {
    Balanced(Of(s.started, c), Waiting(hash, s, c), Of(s.received, c), Of(s.lost, c))
  }

  lemma {:induction false} OfElsewhere(hash: Hash, n: nat, s: seq<Packet>, w: nat, c: SocketAddr)
    requires n > 0 && AllHashTo(hash, n, s, w) && WorkerOf(hash, n, c) != w
    ensures Of(s, c) == []
  {
    if s != [] { OfElsewhere(hash, n, s[..|s| - 1], w, c); }
  }

  lemma WaitingAfter(hash: Hash, s: State, w: nat, worker: Worker, c: SocketAddr)
    requires w < |s.workers|
    ensures Waiting(hash, s.(workers := s.workers[w := worker]), c) ==
            if WorkerOf(hash, |s.workers|, c) == w then Of(worker.queue, c) else Waiting(hash, s, c)
  {
  }

  lemma QueuedAccounted(hash: Hash, s: State, p: Packet, c: SocketAddr, worker: Worker, s': State)
    requires |s.workers| > 0 && Accounted(hash, s, c)
    requires var w := WorkerOf(hash, |s.workers|, p.client);
             && worker == s.workers[w].(queue := s.workers[w].queue + [p])
             && s' == s.(received := s.received + [p], workers := s.workers[w := worker])
    ensures Accounted(hash, s', c)
  {
    var w := WorkerOf(hash, |s.workers|, p.client);
    WaitingAfter(hash, s, w, worker, c);
    OfAppend(s.received, p, c);
    OfAppend(s.workers[w].queue, p, c);
    assert Waiting(hash, s', c) == if p.client == c then Waiting(hash, s, c) + [p] else Waiting(hash, s, c);
    if p.client == c {
      BalancedQueued(Of(s.started, c), Waiting(hash, s, c), Of(s.received, c), Of(s.lost, c), p);
    }
  }

  lemma LostAccounted(hash: Hash, s: State, p: Packet, c: SocketAddr)
    requires |s.workers| > 0 && Accounted(hash, s, c)
    ensures Accounted(hash, s.(received := s.received + [p], lost := s.lost + [p]), c)
  {
    OfAppend(s.received, p, c);
    OfAppend(s.lost, p, c);
    if p.client == c {
      BalancedLost(Of(s.started, c), Waiting(hash, s, c), Of(s.received, c), Of(s.lost, c), p);
    }
  }

  lemma ReceiveAccounted(hash: Hash, s: State, p: Packet, c: SocketAddr)
    requires |s.workers| > 0 && Accounted(hash, s, c)
    ensures Accounted(hash, Next(hash, s, Receive(p)), c)
  {
    var worker := s.workers[WorkerOf(hash, |s.workers|, p.client)];
    if worker.dead || |worker.queue| >= QUEUE_CAPACITY {
      LostAccounted(hash, s, p, c);
    } else {
      QueuedAccounted(hash, s, p, c, worker.(queue := worker.queue + [p]), Next(hash, s, Receive(p)));
    }
  }

  lemma OfTail(queue: seq<Packet>, c: SocketAddr)
    requires queue != []
    ensures Of(queue, c) == if queue[0].client == c then [queue[0]] + Of(queue[1..], c) else Of(queue[1..], c)
  {
    assert queue == [queue[0]] + queue[1..];
    OfConcat([queue[0]], queue[1..], c);
    OfOne(queue[0], c);
    assert [] + Of(queue[1..], c) == Of(queue[1..], c);
  }

  lemma StartAccounted(hash: Hash, s: State, w: nat, c: SocketAddr)
    requires |s.workers| > 0 && Accounted(hash, s, c) && Enabled(s, Start(w)) && AtHome(hash, s)
    ensures Accounted(hash, Next(hash, s, Start(w)), c)
  {
    var s', queue := Next(hash, s, Start(w)), s.workers[w].queue;
    var p := queue[0];
    OfAppend(s.started, p, c);
    OfTail(queue, c);
    WaitingAfter(hash, s, w, s'.workers[w], c);
    assert WorkerAtHome(hash, s, w);
    if p.client == c {
      BalancedStarted(Of(s.started, c), Waiting(hash, s', c), Of(s.received, c), Of(s.lost, c), p);
    }
  }

  lemma PanicAccounted(hash: Hash, s: State, w: nat, c: SocketAddr)
    requires |s.workers| > 0 && Accounted(hash, s, c) && Enabled(s, Panic(w)) && AtHome(hash, s)
    ensures Accounted(hash, Next(hash, s, Panic(w)), c)
  {
    var queue := s.workers[w].queue;
    OfConcat(s.lost, queue, c);
    if WorkerOf(hash, |s.workers|, c) == w {
      SubsequencePrefix(Of(s.started, c), Of(queue, c), Of(s.received, c));
      assert Of(s.started, c) + [] == Of(s.started, c);
    } else {
      assert WorkerAtHome(hash, s, w);
      OfElsewhere(hash, |s.workers|, queue, w, c);
    }
  }

  lemma {:induction false} RunIsAccounted(hash: Hash, n: nat, states: seq<State>, steps: seq<Step>, i: nat,
                                          c: SocketAddr)
    requires Run(hash, n, states, steps) && i <= |steps| && n > 0
    ensures |states[i].workers| == n && AtHome(hash, states[i]) && Accounted(hash, states[i], c)
  {
    if i > 0 {
      RunIsAccounted(hash, n, states, steps, i - 1, c);
      assert StepAt(hash, states, steps, i - 1);
      var s, step := states[i - 1], steps[i - 1];
      StaysHome(hash, s, step);
      match step
      case Receive(p) => ReceiveAccounted(hash, s, p, c);
      case Start(w) => StartAccounted(hash, s, w, c);
      case Finish(w) =>
      case Panic(w) => PanicAccounted(hash, s, w, c);
    }
  }

  // ---------------------------------------------------------------- what is lost, and what is not

  ghost predicate QueuesBounded(s: State) {
    forall w :: 0 <= w < |s.workers| ==> |s.workers[w].queue| <= 1024
  }

  /** A queue never holds more than 1024 packets. */
  lemma {:induction false} QueuesStayBounded(hash: Hash, n: nat, states: seq<State>, steps: seq<Step>, i: nat)
    requires Run(hash, n, states, steps) && i <= |steps|
    ensures QueuesBounded(states[i])
  {
    if i > 0 {
      QueuesStayBounded(hash, n, states, steps, i - 1);
      assert StepAt(hash, states, steps, i - 1);
    }
  }

  /** The worker of a client's packets. */
  predicate IsWorkerOf(hash: Hash, s: State, c: SocketAddr, w: nat) {
    w < |s.workers| && w == hash(c) % |s.workers|
  }

  /**
   * A packet that arrives goes to the end of the queue of the worker that its client's hash picks, and to no other; it
   * is lost exactly when that worker is dead or already has 1024 packets waiting.
   */
  lemma ReceiveLaw(hash: Hash, s: State, p: Packet, w: nat)
    requires IsWorkerOf(hash, s, p.client, w)
    ensures var s' := Next(hash, s, Receive(p));
            if s.workers[w].dead || |s.workers[w].queue| >= 1024
            then s' == s.(received := s.received + [p], lost := s.lost + [p])
            else && s'.workers == s.workers[w := s.workers[w].(queue := s.workers[w].queue + [p])]
                 && s'.received == s.received + [p] && s'.started == s.started && s'.lost == s.lost
  {
  }

  predicate IsGone(s: State, w: nat) {
    w < |s.workers| && s.workers[w] == Worker([], None, true)
  }

  lemma GoneStaysGone(hash: Hash, s: State, step: Step, w: nat)
    requires Enabled(s, step) && (IsGone(s, w) || step == Panic(w))
    ensures IsGone(Next(hash, s, step), w)
  {
  }

  /** In every run, a worker whose handler has panicked is gone for good, with all that waited or will arrive. */
  lemma {:induction false} PanicIsForGood(hash: Hash, n: nat, states: seq<State>, steps: seq<Step>, i: nat, j: nat,
                                          w: nat)
    requires Run(hash, n, states, steps) && i < j <= |steps| && steps[i] == Panic(w)
    ensures IsGone(states[j], w)
    decreases j
  {
    assert StepAt(hash, states, steps, j - 1);
    if i < j - 1 { PanicIsForGood(hash, n, states, steps, i, j - 1, w); }
    GoneStaysGone(hash, states[j - 1], steps[j - 1], w);
  }

  /** `Start` and `Finish`, as often as there are packets. */
  function Serving(w: nat, count: nat): seq<Step> {
    if count == 0 then [] else [Start(w), Finish(w)] + Serving(w, count - 1)
  }

  /** The state after a sequence of steps that can all be taken. */
  function After(hash: Hash, s: State, steps: seq<Step>): Option<State>
    decreases |steps|
  {
    if steps == [] then Some(s)
    else if !Enabled(s, steps[0]) then None
    else After(hash, Next(hash, s, steps[0]), steps[1..])
  }

  lemma ServesOne(hash: Hash, s: State, w: nat, rest: seq<Step>)
    requires w < |s.workers| && !s.workers[w].dead && s.workers[w].handling.None? && s.workers[w].queue != []
    ensures var queue := s.workers[w].queue;
            var s2 := s.(workers := s.workers[w := Worker(queue[1..], None, false)], started := s.started + [queue[0]]);
            After(hash, s, [Start(w), Finish(w)] + rest) == After(hash, s2, rest)
  {
    var steps := [Start(w), Finish(w)] + rest;
    var s1 := Next(hash, s, Start(w));
    assert steps[1..] == [Finish(w)] + rest && steps[1..][1..] == rest;
    assert Next(hash, s1, Finish(w)).workers == s.workers[w := Worker(s.workers[w].queue[1..], None, false)];
  }

  /** A live worker that nothing interrupts handles all that waits for it, in order. */
  lemma {:induction false} WorkerDrains(hash: Hash, s: State, w: nat)
    requires w < |s.workers| && !s.workers[w].dead && s.workers[w].handling.None?
    ensures After(hash, s, Serving(w, |s.workers[w].queue|)) ==
            Some(s.(workers := s.workers[w := Worker([], None, false)], started := s.started + s.workers[w].queue))
    decreases |s.workers[w].queue|
  {
    var queue := s.workers[w].queue;
    if queue == [] {
      assert s.workers[w := Worker([], None, false)] == s.workers && s.started + queue == s.started;
    } else {
      var s2 := s.(workers := s.workers[w := Worker(queue[1..], None, false)], started := s.started + [queue[0]]);
      ServesOne(hash, s, w, Serving(w, |queue| - 1));
      WorkerDrains(hash, s2, w);
      assert s2.workers[w := Worker([], None, false)] == s.workers[w := Worker([], None, false)];
      assert queue == [queue[0]] + queue[1..];
      Regroup(s.started, [queue[0]], queue[1..]);
    }
  }

  // ---------------------------------------------------------------- main results

  /**
   * In every run, for every hash and number of workers, the packets of a client are handled in the order they were
   * received, with none handled twice; and all of them have been handled exactly when none is waiting and none was
   * lost to a full queue or a dead worker.
   */
  lemma ClientOrder(hash: Hash, n: nat, states: seq<State>, steps: seq<Step>, i: nat, c: SocketAddr)
    requires Run(hash, n, states, steps) && i <= |steps| && n > 0
    ensures |states[i].workers| == n && Subsequence(Of(states[i].started, c), Of(states[i].received, c))
    ensures Of(states[i].started, c) == Of(states[i].received, c) <==>
            Waiting(hash, states[i], c) == [] && Of(states[i].lost, c) == []
  {
    RunIsAccounted(hash, n, states, steps, i, c);
    var s := states[i];
    SubsequencePrefix(Of(s.started, c), Waiting(hash, s, c), Of(s.received, c));
    SubsequenceLength(Of(s.started, c), Of(s.received, c));
  }

  /** In every run, two workers are never handling packets of the same client. */
  lemma OneHandlerPerClient(hash: Hash, n: nat, states: seq<State>, steps: seq<Step>, i: nat, w1: nat, w2: nat)
    requires Run(hash, n, states, steps) && i <= |steps| && w1 < n && w2 < n
    requires |states[i].workers| == n && states[i].workers[w1].handling.Some? && states[i].workers[w2].handling.Some?
    requires states[i].workers[w1].handling.value.client == states[i].workers[w2].handling.value.client
    ensures w1 == w2
  {
    RunIsAccounted(hash, n, states, steps, i, states[i].workers[w1].handling.value.client);
    assert WorkerAtHome(hash, states[i], w1) && WorkerAtHome(hash, states[i], w2);
  }
}
