/**
 * The relay port allocator under concurrency: any number of threads inside `allocate` and `release`,
 * interleaved at single atomic operations (src/allocation.rs). A weak compare-and-swap may fail spuriously.
 * Which free bit of a loaded word a thread tries is left open, which covers the random and the lowest bit.
 */
module PortSteps {
  import opened BitWord
  import opened PortAllocator

  type Tid = nat

  datatype Thread =
    | Idle
    | Allocating(word: nat, current: Word)   // has loaded a bitmap word
    | Incrementing(k: nat)                   // took bit k, has not yet counted it
    | Releasing(k: nat, current: Word)       // has loaded the word of bit k
    | Decrementing                           // cleared its bit, has not yet uncounted it

  /** `held` is what each thread was handed by `allocate` and has not yet passed to `release`. */
  datatype State = State(words: seq<Word>, count: int, threads: map<Tid, Thread>, held: map<Tid, set<nat>>)

  datatype Action =
    | Load(t: Tid, word: nat)
    | TryTake(t: Tid, bit: nat, spurious: bool)
    | GiveUp(t: Tid)
    | Increment(t: Tid)
    | StartRelease(t: Tid, k: nat)
    | TryClear(t: Tid, spurious: bool)
    | Decrement(t: Tid)
    | HandOver(t: Tid, to: Tid, k: nat)

  /** Every thread has a set of held ports and looks only at words that exist. */
  predicate Sane(portCount: nat, s: State) {
    && s.held.Keys == s.threads.Keys
    && |s.words| == (portCount + 63) / 64
    && (forall t :: t in s.threads && s.threads[t].Allocating? ==> s.threads[t].word < |s.words|)
    && (forall t :: t in s.threads && s.threads[t].Releasing? ==> s.threads[t].k < portCount)
  }

  predicate Enabled(portCount: nat, s: State, a: Action)
    requires Sane(portCount, s)
  {
    && a.t in s.threads
    && var th := s.threads[a.t];
    match a
    case Load(_, word) => (th.Idle? || th.Allocating?) && word < |s.words|
    case TryTake(_, bit, _) =>
      th.Allocating? && bit < 64 && !Bit(th.current, bit) && 64 * th.word + bit < portCount
    case GiveUp(_) => th.Allocating?
    case Increment(_) => th.Incrementing?
    case StartRelease(_, k) => th.Idle? && k < portCount
    case TryClear(_, _) => th.Releasing?
    case Decrement(_) => th.Decrementing?
    case HandOver(t, to, k) => th.Idle? && to in s.threads && to != t && k in s.held[t]
  }

  function Set(s: State, t: Tid, th: Thread): State {
    s.(threads := s.threads[t := th])
  }

  function Apply(portCount: nat, s: State, a: Action): State
    requires Sane(portCount, s) && Enabled(portCount, s, a)
  {
    var t, th := a.t, s.threads[a.t];
    match a
    case Load(_, word) => Set(s, t, Allocating(word, s.words[word]))
    case TryTake(_, bit, spurious) =>
      if s.words[th.word] == th.current && !spurious then
        var k := 64 * th.word + bit;
        Set(s, t, Incrementing(k)).(words := s.words[th.word := Or(th.current, bit)],
                                    held := s.held[t := s.held[t] + {k}])
      else Set(s, t, Allocating(th.word, s.words[th.word]))
    case GiveUp(_) => Set(s, t, Idle)
    case Increment(_) => Set(s, t, Idle).(count := s.count + 1)
    case StartRelease(_, k) => Set(s, t, Releasing(k, s.words[k / 64])).(held := s.held[t := s.held[t] - {k}])
    case TryClear(_, spurious) =>
      var w := th.k / 64;
      if !Bit(th.current, th.k % 64) then Set(s, t, Idle)
      else if s.words[w] == th.current && !spurious then
        Set(s, t, Decrementing).(words := s.words[w := AndNot(th.current, th.k % 64)])
      else Set(s, t, Releasing(th.k, s.words[w]))
    case Decrement(_) => Set(s, t, Idle).(count := s.count - 1)
    case HandOver(_, to, k) => s.(held := s.held[t := s.held[t] - {k}][to := s.held[to] + {k}])
  }

  ghost function Bits(ws: seq<Word>): set<nat> {
    set k: nat | k < 64 * |ws| && IndexTaken(ws, k)
  }

  ghost function Inc(threads: map<Tid, Thread>): set<Tid> {
    set t | t in threads && threads[t].Incrementing?
  }

  ghost function Dec(threads: map<Tid, Thread>): set<Tid> {
    set t | t in threads && threads[t].Decrementing?
  }

  lemma BitsAfter(ws: seq<Word>, w: nat, b: nat)
    requires w < |ws| && b < 64
    ensures Bits(ws[w := Or(ws[w], b)]) == Bits(ws) + {64 * w + b}
    ensures Bits(ws[w := AndNot(ws[w], b)]) == Bits(ws) - {64 * w + b}
    ensures 64 * w + b in Bits(ws) <==> Bit(ws[w], b)
  {
    forall k: nat
      ensures IndexTaken(ws[w := Or(ws[w], b)], k) <==> IndexTaken(ws, k) || k == 64 * w + b
      ensures IndexTaken(ws[w := AndNot(ws[w], b)], k) <==> IndexTaken(ws, k) && k != 64 * w + b
    {
      SetIndex(ws, w, b, k);
      ClearIndex(ws, w, b, k);
    }
    assert IndexTaken(ws, 64 * w + b) <==> Bit(ws[w], b);
  }

  lemma PendingAfter(threads: map<Tid, Thread>, t: Tid, th: Thread)
    requires t in threads
    ensures Inc(threads[t := th]) == if th.Incrementing? then Inc(threads) + {t} else Inc(threads) - {t}
    ensures Dec(threads[t := th]) == if th.Decrementing? then Dec(threads) + {t} else Dec(threads) - {t}
    ensures t in Inc(threads) <==> threads[t].Incrementing?
    ensures t in Dec(threads) <==> threads[t].Decrementing?
  {
  }

  // ---------------------------------------------------------------- the counter

  /** The counter, corrected by the calls between their exchange and their counter update, counts the set bits. */
  ghost predicate Counted(s: State) {
    s.count + |Inc(s.threads)| == |Bits(s.words)| + |Dec(s.threads)|
  }

  lemma StepKeepsSane(portCount: nat, s: State, a: Action)
    requires Sane(portCount, s) && Enabled(portCount, s, a)
    ensures Sane(portCount, Apply(portCount, s, a))
  {
  }

  lemma TakeKeepsCount(portCount: nat, s: State, a: Action)
    requires Sane(portCount, s) && Enabled(portCount, s, a) && Counted(s) && a.TryTake?
    ensures Counted(Apply(portCount, s, a))
  {
    var th := s.threads[a.t];
    PendingAfter(s.threads, a.t, Apply(portCount, s, a).threads[a.t]);
    BitsAfter(s.words, th.word, a.bit);
  }

  lemma ClearKeepsCount(portCount: nat, s: State, a: Action)
    requires Sane(portCount, s) && Enabled(portCount, s, a) && Counted(s) && a.TryClear?
    ensures Counted(Apply(portCount, s, a))
  {
    var k := s.threads[a.t].k;
    PendingAfter(s.threads, a.t, Apply(portCount, s, a).threads[a.t]);
    BitsAfter(s.words, k / 64, k % 64);
  }

  /** Every atomic operation of any thread keeps the counter law, whoever releases what. */
  lemma StepKeepsCount(portCount: nat, s: State, a: Action)
    requires Sane(portCount, s) && Enabled(portCount, s, a) && Counted(s)
    ensures Counted(Apply(portCount, s, a))
  {
    if a.TryTake? {
      TakeKeepsCount(portCount, s, a);
    } else if a.TryClear? {
      ClearKeepsCount(portCount, s, a);
    } else if !a.HandOver? {
      PendingAfter(s.threads, a.t, Apply(portCount, s, a).threads[a.t]);
    }
  }

  // ---------------------------------------------------------------- ownership

  /** Callers release only ports they hold. */
  predicate Disciplined(portCount: nat, s: State, a: Action)
    requires Sane(portCount, s) && Enabled(portCount, s, a)
  {
    a.StartRelease? ==> a.k in s.held[a.t]
  }

  /** Thread `t` answers for bit `k`: it holds the port or is about to clear its bit. */
  predicate Claims(s: State, t: Tid, k: nat) {
    && t in s.threads && t in s.held
    && (k in s.held[t] || (s.threads[t].Releasing? && s.threads[t].k == k))
  }

  /** The set bits are partitioned among the threads: every set bit is claimed by exactly one of them. */
  ghost predicate Exclusive(s: State) {
    && (forall t, k :: Claims(s, t, k) ==> k in Bits(s.words))
    && (forall k :: k in Bits(s.words) ==> exists t :: Claims(s, t, k))
    && (forall t, u, k :: Claims(s, t, k) && Claims(s, u, k) ==> t == u)
  }

  /** The same with the claimant of each set bit written down, and what a thread in a call knows. */
  ghost predicate Owned(s: State, owner: map<nat, Tid>) {
    && owner.Keys == Bits(s.words)
    && (forall t, k :: Claims(s, t, k) <==> k in owner && owner[k] == t)
    && (forall t :: t in s.threads ==> Informed(s, t))
  }

  predicate Informed(s: State, t: Tid)
    requires t in s.threads
  {
    match s.threads[t]
    case Releasing(k, current) => t in s.held && k !in s.held[t] && Bit(current, k % 64)
    case Incrementing(k) => t in s.held && k in s.held[t]
    case _ => true
  }

  lemma OwnedIsExclusive(s: State, owner: map<nat, Tid>)
    requires Owned(s, owner)
    ensures Exclusive(s)
  {
    forall k | k in Bits(s.words) ensures exists t :: Claims(s, t, k) {
      assert Claims(s, owner[k], k);
    }
  }

  lemma TakeIsOwned(portCount: nat, s: State, a: Action, owner: map<nat, Tid>)
    requires Sane(portCount, s) && Enabled(portCount, s, a) && Owned(s, owner) && a.TryTake?
    requires s.words[s.threads[a.t].word] == s.threads[a.t].current && !a.spurious
    ensures Owned(Apply(portCount, s, a), owner[64 * s.threads[a.t].word + a.bit := a.t])
  {
    BitsAfter(s.words, s.threads[a.t].word, a.bit);
    var s', owner' := Apply(portCount, s, a), owner[64 * s.threads[a.t].word + a.bit := a.t];
    forall t, k ensures Claims(s', t, k) <==> k in owner' && owner'[k] == t {
      assert Claims(s, t, k) <==> k in owner && owner[k] == t;
    }
    forall t | t in s.threads ensures Informed(s', t) {
      assert Informed(s, t);
    }
  }

  lemma ClearIsOwned(portCount: nat, s: State, a: Action, owner: map<nat, Tid>)
    requires Sane(portCount, s) && Enabled(portCount, s, a) && Owned(s, owner) && a.TryClear?
    requires s.words[s.threads[a.t].k / 64] == s.threads[a.t].current && !a.spurious
    ensures Owned(Apply(portCount, s, a), owner - {s.threads[a.t].k})
  {
    var k0 := s.threads[a.t].k;
    BitsAfter(s.words, k0 / 64, k0 % 64);
    var s', owner' := Apply(portCount, s, a), owner - {k0};
    assert Informed(s, a.t);
    assert Claims(s, a.t, k0);
    forall t, k ensures Claims(s', t, k) <==> k in owner' && owner'[k] == t {
      assert Claims(s, t, k) <==> k in owner && owner[k] == t;
    }
    forall t | t in s.threads ensures Informed(s', t) {
      assert Informed(s, t);
    }
  }

  lemma HandOverIsOwned(portCount: nat, s: State, a: Action, owner: map<nat, Tid>)
    requires Sane(portCount, s) && Enabled(portCount, s, a) && Owned(s, owner) && a.HandOver?
    ensures Owned(Apply(portCount, s, a), owner[a.k := a.to])
  {
    var s', owner' := Apply(portCount, s, a), owner[a.k := a.to];
    assert Claims(s, a.t, a.k);
    forall t, k ensures Claims(s', t, k) <==> k in owner' && owner'[k] == t {
      assert Claims(s, t, k) <==> k in owner && owner[k] == t;
    }
    forall t | t in s.threads ensures Informed(s', t) {
      assert Informed(s, t);
      if s.threads[t].Releasing? {
        assert Claims(s, t, s.threads[t].k);
      }
    }
  }

  /** A step that sets and clears no bit and passes no port on changes no claim. */
  lemma QuietIsOwned(portCount: nat, s: State, a: Action, owner: map<nat, Tid>)
    requires Sane(portCount, s) && Enabled(portCount, s, a) && Owned(s, owner) && Disciplined(portCount, s, a)
    requires !a.HandOver? && Apply(portCount, s, a).words == s.words
    requires !Apply(portCount, s, a).threads[a.t].Decrementing?
    requires !(a.TryTake? && Apply(portCount, s, a).threads[a.t].Incrementing?)
    ensures Owned(Apply(portCount, s, a), owner)
  {
    var s' := Apply(portCount, s, a);
    assert Informed(s, a.t);
    forall t, k ensures Claims(s', t, k) <==> Claims(s, t, k) {
    }
    forall t | t in s.threads ensures Informed(s', t) {
      assert Informed(s, t);
      if t == a.t && s'.threads[t].Releasing? {
        var k := s'.threads[t].k;
        assert Claims(s, t, k);
        BitsAfter(s.words, k / 64, k % 64);
      }
    }
  }

  /** Under the discipline, every atomic operation keeps the bits partitioned among the threads. */
  lemma StepIsOwned(portCount: nat, s: State, a: Action, owner: map<nat, Tid>) returns (owner': map<nat, Tid>)
    requires Sane(portCount, s) && Enabled(portCount, s, a) && Owned(s, owner) && Disciplined(portCount, s, a)
    ensures Owned(Apply(portCount, s, a), owner')
  {
    var th := s.threads[a.t];
    owner' := owner;
    assert Informed(s, a.t);
    if a.HandOver? {
      HandOverIsOwned(portCount, s, a, owner);
      owner' := owner[a.k := a.to];
    } else if a.TryTake? && s.words[th.word] == th.current && !a.spurious {
      TakeIsOwned(portCount, s, a, owner);
      owner' := owner[64 * th.word + a.bit := a.t];
    } else if a.TryClear? && s.words[th.k / 64] == th.current && !a.spurious {
      ClearIsOwned(portCount, s, a, owner);
      owner' := owner - {th.k};
    } else {
      QuietIsOwned(portCount, s, a, owner);
    }
  }

  // ---------------------------------------------------------------- whole runs

  lemma {:induction false} Injects(ts: set<Tid>, image: map<Tid, nat>, ks: set<nat>)
    requires ts <= image.Keys
    requires forall t :: t in ts ==> image[t] in ks
    requires forall t, u :: t in ts && u in ts && t != u ==> image[t] != image[u]
    ensures |ts| <= |ks|
  {
    if ts != {} {
      var t :| t in ts;
      Injects(ts - {t}, image, ks - {image[t]});
      assert |ts| == |ts - {t}| + 1 && |ks| == |ks - {image[t]}| + 1;
    }
  }

  lemma CountNeverNegative(s: State, owner: map<nat, Tid>)
    requires Owned(s, owner) && Counted(s)
    ensures s.count >= 0
  {
    var inc := Inc(s.threads);
    var image := map t | t in inc :: s.threads[t].k;
    forall t | t in inc ensures image[t] in owner && owner[image[t]] == t {
      assert Informed(s, t);
      assert Claims(s, t, image[t]);
    }
    Injects(inc, image, Bits(s.words));
  }

  predicate Initial(portCount: nat, s: State) {
    && Sane(portCount, s) && s.count == 0
    && (forall i :: 0 <= i < |s.words| ==> s.words[i] == 0)
    && (forall t :: t in s.threads ==> s.threads[t].Idle? && s.held[t] == {})
  }

  /** A run: each state follows from the one before by one atomic operation of one thread. */
  ghost predicate Run(portCount: nat, states: seq<State>, actions: seq<Action>) {
    && |states| == |actions| + 1 && Initial(portCount, states[0])
    && forall i :: 0 <= i < |actions| ==>
         && Sane(portCount, states[i]) && Enabled(portCount, states[i], actions[i])
         && states[i + 1] == Apply(portCount, states[i], actions[i])
  }

  ghost predicate DisciplinedRun(portCount: nat, states: seq<State>, actions: seq<Action>)
    requires Run(portCount, states, actions)
  {
    forall i :: 0 <= i < |actions| ==> Disciplined(portCount, states[i], actions[i])
  }

  lemma InitialIsFine(portCount: nat, s: State)
    requires Initial(portCount, s)
    ensures Counted(s) && Owned(s, map[])
  {
    forall k: nat ensures !IndexTaken(s.words, k) { ZeroHasNoBits(k % 64); }
    assert Bits(s.words) == {} && Inc(s.threads) == {} && Dec(s.threads) == {};
  }

  /** In every state of every run, count + pending increments = set bits + pending decrements. */
  lemma {:induction false} CounterLaw(portCount: nat, states: seq<State>, actions: seq<Action>, i: nat)
    requires Run(portCount, states, actions) && i < |states|
    ensures Sane(portCount, states[i]) && Counted(states[i])
    ensures Inc(states[i].threads) == Dec(states[i].threads) == {} ==> states[i].count == |Bits(states[i].words)|
  {
    if i == 0 {
      InitialIsFine(portCount, states[0]);
    } else {
      CounterLaw(portCount, states, actions, i - 1);
      StepKeepsSane(portCount, states[i - 1], actions[i - 1]);
      StepKeepsCount(portCount, states[i - 1], actions[i - 1]);
    }
  }

  lemma {:induction false} DisciplinedOwned(portCount: nat, states: seq<State>, actions: seq<Action>, i: nat)
    returns (owner: map<nat, Tid>)
    requires Run(portCount, states, actions) && DisciplinedRun(portCount, states, actions) && i < |states|
    ensures Owned(states[i], owner)
  {
    if i == 0 {
      InitialIsFine(portCount, states[0]);
      owner := map[];
    } else {
      var before := DisciplinedOwned(portCount, states, actions, i - 1);
      owner := StepIsOwned(portCount, states[i - 1], actions[i - 1], before);
    }
  }

  // ---------------------------------------------------------------- a weaker rule for the counter

  /** Thread `t` has taken bit `k` and not yet counted it. */
  predicate Uncounted(s: State, t: Tid, k: nat) {
    t in s.threads && s.threads[t] == Incrementing(k)
  }

  predicate Clears(portCount: nat, s: State, a: Action)
    requires Sane(portCount, s) && Enabled(portCount, s, a)
  {
    a.TryClear? && Apply(portCount, s, a).threads[a.t].Decrementing?
  }

  /** A bit that a thread has taken is not cleared before that thread has counted it. */
  ghost predicate Patient(portCount: nat, s: State, a: Action)
    requires Sane(portCount, s) && Enabled(portCount, s, a)
  {
    Clears(portCount, s, a) ==> forall t :: !Uncounted(s, t, s.threads[a.t].k)
  }

  /** Every bit that is taken and not yet counted is set, and was taken by one thread. */
  ghost predicate Backed(s: State) {
    && (forall t, k :: Uncounted(s, t, k) ==> k in Bits(s.words))
    && (forall t, u, k :: Uncounted(s, t, k) && Uncounted(s, u, k) ==> t == u)
  }

  lemma TakeIsBacked(portCount: nat, s: State, a: Action)
    requires Sane(portCount, s) && Enabled(portCount, s, a) && Backed(s) && a.TryTake?
    ensures Backed(Apply(portCount, s, a))
  {
    var th, s' := s.threads[a.t], Apply(portCount, s, a);
    BitsAfter(s.words, th.word, a.bit);
    var taken := 64 * th.word + a.bit;
    assert Bits(s.words) <= Bits(s'.words) by {
      if s'.words != s.words { assert s'.words == s.words[th.word := Or(s.words[th.word], a.bit)]; }
    }
    forall t, k | Uncounted(s', t, k) ensures k in Bits(s'.words) && (Uncounted(s, t, k) || (t == a.t && k == taken)) {
      if t != a.t { assert Uncounted(s, t, k); }
    }
  }

  lemma ClearIsBacked(portCount: nat, s: State, a: Action)
    requires Sane(portCount, s) && Enabled(portCount, s, a) && Backed(s) && a.TryClear? && Patient(portCount, s, a)
    ensures Backed(Apply(portCount, s, a))
  {
    var k0, s' := s.threads[a.t].k, Apply(portCount, s, a);
    BitsAfter(s.words, k0 / 64, k0 % 64);
    if Clears(portCount, s, a) {
      assert s'.words == s.words[k0 / 64 := AndNot(s.words[k0 / 64], k0 % 64)];
    } else {
      assert s'.words == s.words;
    }
    forall t, k | Uncounted(s', t, k) ensures Uncounted(s, t, k) && k in Bits(s'.words) {
      assert Uncounted(s, t, k);
      assert Clears(portCount, s, a) ==> k != k0;
    }
  }

  lemma OtherIsBacked(portCount: nat, s: State, a: Action)
    requires Sane(portCount, s) && Enabled(portCount, s, a) && Backed(s) && !a.TryTake? && !a.TryClear?
    ensures Backed(Apply(portCount, s, a))
  {
    var s' := Apply(portCount, s, a);
    assert s'.words == s.words;
    forall t, k | Uncounted(s', t, k) ensures Uncounted(s, t, k) {
    }
  }

  lemma StepIsBacked(portCount: nat, s: State, a: Action)
    requires Sane(portCount, s) && Enabled(portCount, s, a) && Backed(s) && Patient(portCount, s, a)
    ensures Backed(Apply(portCount, s, a))
  {
    if a.TryTake? {
      TakeIsBacked(portCount, s, a);
    } else if a.TryClear? {
      ClearIsBacked(portCount, s, a);
    } else {
      OtherIsBacked(portCount, s, a);
    }
  }

  lemma BackedIsCounted(s: State)
    requires Backed(s) && Counted(s)
    ensures s.count >= 0
  {
    var inc := Inc(s.threads);
    var image := map t | t in inc :: s.threads[t].k;
    forall t | t in inc ensures Uncounted(s, t, image[t]) {
    }
    Injects(inc, image, Bits(s.words));
  }

  ghost predicate PatientRun(portCount: nat, states: seq<State>, actions: seq<Action>)
    requires Run(portCount, states, actions)
  {
    forall i :: 0 <= i < |actions| ==> Patient(portCount, states[i], actions[i])
  }

  lemma {:induction false} PatientBacked(portCount: nat, states: seq<State>, actions: seq<Action>, i: nat)
    requires Run(portCount, states, actions) && PatientRun(portCount, states, actions) && i < |states|
    ensures Backed(states[i])
  {
    if i > 0 {
      PatientBacked(portCount, states, actions, i - 1);
      StepIsBacked(portCount, states[i - 1], actions[i - 1]);
    }
  }

  /** If no bit is cleared before its taker has counted it, the counter is never negative, whoever releases what. */
  lemma PatientCount(portCount: nat, states: seq<State>, actions: seq<Action>, i: nat)
    requires Run(portCount, states, actions) && PatientRun(portCount, states, actions) && i < |states|
    ensures states[i].count >= 0
  {
    PatientBacked(portCount, states, actions, i);
    CounterLaw(portCount, states, actions, i);
    BackedIsCounted(states[i]);
  }

  /** Releasing only what one holds is one way to be patient. */
  lemma OwnedIsPatient(portCount: nat, s: State, a: Action, owner: map<nat, Tid>)
    requires Sane(portCount, s) && Enabled(portCount, s, a) && Owned(s, owner)
    ensures Patient(portCount, s, a)
  {
    if a.TryClear? {
      var k := s.threads[a.t].k;
      assert Claims(s, a.t, k);
      forall t ensures !Uncounted(s, t, k) {
        if Uncounted(s, t, k) {
          assert Informed(s, t);
          assert Claims(s, t, k);
        }
      }
    }
  }

  /**
   * In every state of a run whose callers release only what they hold, no port has two holders, every set bit has
   * one, and the counter is not negative.
   */
  lemma NoTwoHolders(portCount: nat, states: seq<State>, actions: seq<Action>, i: nat)
    requires Run(portCount, states, actions) && DisciplinedRun(portCount, states, actions) && i < |states|
    ensures Exclusive(states[i]) && states[i].count >= 0
  {
    var owner := DisciplinedOwned(portCount, states, actions, i);
    OwnedIsExclusive(states[i], owner);
    CounterLaw(portCount, states, actions, i);
    CountNeverNegative(states[i], owner);
  }

  // Two threads and one port: thread 1 releases port 0 before thread 0, which took it, has counted it.
  const EARLY: seq<Action> := [Load(0, 0), TryTake(0, 0, false), StartRelease(1, 0), TryClear(1, false), Decrement(1)]

  function EarlyRelease(i: nat): State {
    match i
    case 0 => State([0], 0, map[0 := Idle, 1 := Idle], map[0 := {}, 1 := {}])
    case 1 => State([0], 0, map[0 := Allocating(0, 0), 1 := Idle], map[0 := {}, 1 := {}])
    case 2 => State([1], 0, map[0 := Incrementing(0), 1 := Idle], map[0 := {0}, 1 := {}])
    case 3 => State([1], 0, map[0 := Incrementing(0), 1 := Releasing(0, 1)], map[0 := {0}, 1 := {}])
    case 4 => State([0], 0, map[0 := Incrementing(0), 1 := Decrementing], map[0 := {0}, 1 := {}])
    case _ => State([0], -1, map[0 := Incrementing(0), 1 := Idle], map[0 := {0}, 1 := {}])
  }

  ghost predicate EarlyStep(i: nat)
    requires i < |EARLY|
  {
    && Sane(1, EarlyRelease(i)) && Enabled(1, EarlyRelease(i), EARLY[i])
    && EarlyRelease(i + 1) == Apply(1, EarlyRelease(i), EARLY[i])
  }

  lemma EarlyLoads()
    ensures EarlyStep(0)
  {
    assert Apply(1, EarlyRelease(0), EARLY[0]).threads == EarlyRelease(1).threads;
  }

  lemma EarlyTakes()
    ensures EarlyStep(1)
  {
    assert Apply(1, EarlyRelease(1), EARLY[1]).threads == EarlyRelease(2).threads;
    var held := EarlyRelease(1).held;
    assert held[0] + {0} == {0};
    assert held[0 := held[0] + {0}] == EarlyRelease(2).held;
  }

  lemma EarlyStartsRelease()
    ensures EarlyStep(2)
  {
    assert Apply(1, EarlyRelease(2), EARLY[2]).threads == EarlyRelease(3).threads;
    var held := EarlyRelease(2).held;
    assert held[1] - {0} == {};
    assert held[1 := held[1] - {0}] == EarlyRelease(3).held;
  }

  lemma EarlyClears()
    ensures EarlyStep(3)
  {
    assert Apply(1, EarlyRelease(3), EARLY[3]).threads == EarlyRelease(4).threads;
  }

  lemma EarlyUncounts()
    ensures EarlyStep(4)
  {
    assert Apply(1, EarlyRelease(4), EARLY[4]).threads == EarlyRelease(5).threads;
  }

  lemma EarlyStepHolds(i: nat)
    requires i < |EARLY|
    ensures EarlyStep(i)
  {
    match i {
      case 0 => EarlyLoads();
      case 1 => EarlyTakes();
      case 2 => EarlyStartsRelease();
      case 3 => EarlyClears();
      case _ => EarlyUncounts();
    }
  }

  /** Without the discipline the counter can go below zero. */
  lemma CountCanGoNegative(states: seq<State>)
    requires |states| == 6 && forall i :: 0 <= i < 6 ==> states[i] == EarlyRelease(i)
    ensures Run(1, states, EARLY) && !DisciplinedRun(1, states, EARLY) && states[5].count == -1
  {
    forall i | 0 <= i < |EARLY|
      ensures Sane(1, states[i]) && Enabled(1, states[i], EARLY[i]) && states[i + 1] == Apply(1, states[i], EARLY[i])
    {
      EarlyStepHolds(i);
    }
    assert !Disciplined(1, states[2], EARLY[2]);
  }
}
