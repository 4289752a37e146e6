/**
 * The token bucket of src/bandwidth.rs with any number of callers at once. A call takes the time, reads the last
 * update, exchanges the tokens and writes the last update, and other calls may come in between. So the time one call is
 * credited for may have been credited to another; this module says exactly when that breaks the rate.
 */
module BandwidthSteps {
  import opened Bytes
  import opened Channels
  import opened Bandwidth

  // ---------------------------------------------------------------- sequences of exchanges

  /** An accepted exchange: the last update its call had read, the time it had taken, and its size. */
  datatype Exchange = Exchange(since: Time, now: Time, size: u64)

  function Earned(x: Exchange): nat {
    Elapsed(x.now, x.since)
  }

  function EarnedSum(xs: seq<Exchange>): nat {
    if xs == [] then 0 else Earned(xs[0]) + EarnedSum(xs[1..])
  }

  function SizeSum(xs: seq<Exchange>): nat {
    if xs == [] then 0 else xs[0].size + SizeSum(xs[1..])
  }

  function Credits(rate: u64, xs: seq<Exchange>): (credits: seq<u64>)
    ensures |credits| == |xs|
  {
    seq(|xs|, i requires 0 <= i < |xs| => Credit(rate, Earned(xs[i])))
  }

  /** The exchanges one after the other with their credits, if all of them are let through. */
  function TakeAll(b: Bucket, credits: seq<u64>, xs: seq<Exchange>): Option<Bucket>
    requires |credits| == |xs|
    decreases |xs|
  {
    if xs == [] then Some(b)
    else match Take(b, credits[0], xs[0].size)
      case None => None
      case Some(b') => TakeAll(b', credits[1..], xs[1..])
  }

  function CreditSum(credits: seq<u64>): nat {
    if credits == [] then 0 else credits[0] + CreditSum(credits[1..])
  }

  lemma {:induction false} TakenIsPaid(b: Bucket, credits: seq<u64>, xs: seq<Exchange>)
    requires |credits| == |xs| && TakeAll(b, credits, xs).Some?
    ensures SizeSum(xs) + TakeAll(b, credits, xs).value.tokens <= b.tokens + CreditSum(credits)
    decreases |xs|
  {
    if xs != [] { TakenIsPaid(Take(b, credits[0], xs[0].size).value, credits[1..], xs[1..]); }
  }

  /** The first exchange and what it leaves fit in the bucket, so only the later credits count. */
  lemma FirstIsBurst(b: Bucket, credits: seq<u64>, xs: seq<Exchange>)
    requires |credits| == |xs| > 0 && TakeAll(b, credits, xs).Some?
    ensures SizeSum(xs) <= b.max + CreditSum(credits[1..])
  {
    TakenIsPaid(Take(b, credits[0], xs[0].size).value, credits[1..], xs[1..]);
  }

  lemma {:induction false} CreditsAreEarned(rate: u64, xs: seq<Exchange>)
    ensures CreditSum(Credits(rate, xs)) * SECOND <= rate * EarnedSum(xs)
  {
    if xs != [] {
      CreditsAreEarned(rate, xs[1..]);
      assert Credits(rate, xs)[1..] == Credits(rate, xs[1..]);
      CreditIsEarned(rate, Earned(xs[0]));
      Distribute(rate, Earned(xs[0]), EarnedSum(xs[1..]));
    }
  }

  predicate AllWithin(xs: seq<Exchange>, start: Time, end: Time) {
    forall x <- xs :: start <= x.now <= end
  }

  function First(xs: seq<Exchange>): Time
    requires xs != []
  {
    if |xs| == 1 then xs[0].now else Min(xs[0].now, First(xs[1..]))
  }

  function Last(xs: seq<Exchange>): Time
    requires xs != []
  {
    if |xs| == 1 then xs[0].now else if xs[0].now >= Last(xs[1..]) then xs[0].now else Last(xs[1..])
  }

  lemma {:induction false} Between(xs: seq<Exchange>, start: Time, end: Time)
    requires xs != []
    ensures AllWithin(xs, start, end) <==> start <= First(xs) && Last(xs) <= end
    ensures First(xs) <= Last(xs)
  {
    if |xs| > 1 {
      Between(xs[1..], start, end);
      assert xs == [xs[0]] + xs[1..];
    }
  }

  /** The same calls, asking for other sizes. */
  predicate SameTimes(xs: seq<Exchange>, ys: seq<Exchange>) {
    |xs| == |ys| && forall i :: 0 <= i < |xs| ==> xs[i].since == ys[i].since && xs[i].now == ys[i].now
  }

  /** Whatever the bucket and the sizes, calls with these times stay within burst + rate x elapsed. */
  ghost predicate KeepsRate(xs: seq<Exchange>) {
    forall b: Bucket, ys: seq<Exchange>, start: Time, end: Time ::
      SameTimes(xs, ys) && AllWithin(ys, start, end) && TakeAll(b, Credits(b.rate, ys), ys).Some? && start <= end ==>
        SizeSum(ys) * SECOND <= b.max * SECOND + b.rate * (end - start)
  }

  /** No more time is credited after the first exchange than passes between the earliest and the latest call. */
  predicate CreditedOnce(xs: seq<Exchange>) {
    xs != [] ==> EarnedSum(xs[1..]) <= Last(xs) - First(xs)
  }

  lemma {:induction false} SameEarned(xs: seq<Exchange>, ys: seq<Exchange>)
    requires SameTimes(xs, ys)
    ensures EarnedSum(xs) == EarnedSum(ys) && (xs != [] ==> First(xs) == First(ys) && Last(xs) == Last(ys))
  {
    if xs != [] { SameEarned(xs[1..], ys[1..]); }
  }

  lemma WithinRate(total: nat, max: nat, credits: nat, rate: nat, earned: nat, whole: nat)
    requires total <= max + credits && credits * SECOND <= rate * earned && earned <= whole
    ensures total * SECOND <= max * SECOND + rate * whole
  {
    LongerEarnsMore(rate, earned, whole);
  }

  lemma PaidByCredits(xs: seq<Exchange>, b: Bucket) returns (credit: nat)
    requires xs != [] && TakeAll(b, Credits(b.rate, xs), xs).Some?
    ensures SizeSum(xs) <= b.max + credit && credit * SECOND <= b.rate * EarnedSum(xs[1..])
  {
    var credits := Credits(b.rate, xs);
    FirstIsBurst(b, credits, xs);
    assert credits[1..] == Credits(b.rate, xs[1..]);
    CreditsAreEarned(b.rate, xs[1..]);
    credit := CreditSum(credits[1..]);
  }

  lemma CreditedOnceKeepsRate(xs: seq<Exchange>, b: Bucket, start: Time, end: Time)
    requires CreditedOnce(xs) && AllWithin(xs, start, end) && start <= end && TakeAll(b, Credits(b.rate, xs), xs).Some?
    ensures SizeSum(xs) * SECOND <= b.max * SECOND + b.rate * (end - start)
  {
    if xs == [] {
      WithinRate(0, b.max, 0, b.rate, 0, end - start);
    } else {
      var credit := PaidByCredits(xs, b);
      Between(xs, start, end);
      WithinRate(SizeSum(xs), b.max, credit, b.rate, EarnedSum(xs[1..]), end - start);
    }
  }

  // ---------------------------------------------------------------- and not otherwise

  predicate TimesFit(xs: seq<Exchange>) {
    forall x <- xs :: x.now <= MAX64
  }

  lemma ByteANanosecond(elapsed: nat)
    requires elapsed <= MAX64
    ensures Credit(SECOND, elapsed) == elapsed
  {
    assert (elapsed % SECOND) * SECOND / SECOND == elapsed % SECOND;
  }

  /** Each call asks for exactly what it is credited at a byte a nanosecond. */
  function Greedy(xs: seq<Exchange>): (ys: seq<Exchange>)
    requires TimesFit(xs)
    ensures SameTimes(xs, ys)
  {
    seq(|xs|, i requires 0 <= i < |xs| => xs[i].(size := Earned(xs[i])))
  }

  lemma {:induction false} GreedyPasses(xs: seq<Exchange>)
    requires TimesFit(xs)
    ensures TakeAll(Bucket(MAX64, SECOND, 0, 0), Credits(SECOND, Greedy(xs)), Greedy(xs)).Some?
    ensures SizeSum(Greedy(xs)) == EarnedSum(xs)
  {
    if xs != [] {
      var ys := Greedy(xs);
      assert ys[1..] == Greedy(xs[1..]);
      assert Credits(SECOND, ys)[1..] == Credits(SECOND, ys[1..]);
      GreedyPasses(xs[1..]);
      ByteANanosecond(Earned(xs[0]));
    }
  }

  /** The first call takes the whole burst, the others all they are credited. */
  function Draining(xs: seq<Exchange>): (ys: seq<Exchange>)
    requires TimesFit(xs) && xs != []
    ensures SameTimes(xs, ys)
  {
    [xs[0].(size := MAX64)] + Greedy(xs[1..])
  }

  lemma DrainingPasses(xs: seq<Exchange>)
    requires TimesFit(xs) && xs != []
    ensures TakeAll(Bucket(MAX64, SECOND, MAX64, 0), Credits(SECOND, Draining(xs)), Draining(xs)).Some?
    ensures SizeSum(Draining(xs)) == MAX64 + EarnedSum(xs[1..])
  {
    var ys := Draining(xs);
    assert ys[1..] == Greedy(xs[1..]);
    assert Credits(SECOND, ys)[1..] == Credits(SECOND, ys[1..]);
    GreedyPasses(xs[1..]);
    FullIsTaken(Credits(SECOND, ys)[0]);
  }

  lemma FullIsTaken(credit: u64)
    ensures Take(Bucket(MAX64, SECOND, MAX64, 0), credit, MAX64) == Some(Bucket(MAX64, SECOND, 0, 0))
  {
  }

  /**
   * Calls with given times keep the rate for every bucket and every sizes if and only if no time is credited twice:
   * overlapping or not, in the order of their times or not.
   */
  lemma KeepsRateIff(xs: seq<Exchange>)
    requires TimesFit(xs)
    ensures KeepsRate(xs) <==> CreditedOnce(xs)
  {
    if CreditedOnce(xs) {
      forall b: Bucket, ys: seq<Exchange>, start: Time, end: Time |
        SameTimes(xs, ys) && AllWithin(ys, start, end) && TakeAll(b, Credits(b.rate, ys), ys).Some? && start <= end
        ensures SizeSum(ys) * SECOND <= b.max * SECOND + b.rate * (end - start)
      {
        SameEarned(xs, ys);
        if xs != [] { SameEarned(xs[1..], ys[1..]); }
        CreditedOnceKeepsRate(ys, b, start, end);
      }
    }
    if KeepsRate(xs) && xs != [] {
      var b, ys := Bucket(MAX64, SECOND, MAX64, 0), Draining(xs);
      DrainingPasses(xs);
      SameEarned(xs, ys);
      Between(ys, First(xs), Last(xs));
      assert SameTimes(xs, ys) && AllWithin(ys, First(xs), Last(xs));
      assert TakeAll(b, Credits(b.rate, ys), ys).Some?;
    }
  }

  // ---------------------------------------------------------------- calls in the order of their times

  predicate InOrder(xs: seq<Exchange>) {
    forall i, j :: 0 <= i <= j < |xs| ==> xs[i].now <= xs[j].now
  }

  /** Every call had read a last update no earlier than the time of the exchange before it, or was credited nothing. */
  predicate NoneTwice(xs: seq<Exchange>) {
    forall k :: 0 < k < |xs| ==> xs[k].since >= xs[k - 1].now || xs[k].since >= xs[k].now
  }

  ghost predicate KeepsRateInWindows(xs: seq<Exchange>) {
    forall i, j :: 0 <= i <= j <= |xs| ==> KeepsRate(xs[i..j])
  }

  lemma {:induction false} Telescopes(xs: seq<Exchange>)
    requires InOrder(xs) && NoneTwice(xs) && xs != []
    ensures First(xs) == xs[0].now && Last(xs) == xs[|xs| - 1].now
    ensures EarnedSum(xs[1..]) <= Last(xs) - First(xs)
  {
    if |xs| > 1 {
      assert Earned(xs[1]) <= xs[1].now - xs[0].now;
      Telescopes(xs[1..]);
    }
  }

  lemma OneMore(x: Exchange, rest: seq<Exchange>)
    ensures var xs := [x] + rest;
            && EarnedSum(xs) == Earned(x) + EarnedSum(rest) && SizeSum(xs) == x.size + SizeSum(rest) && xs[1..] == rest
            && (rest == [] ==> First(xs) == Last(xs) == x.now)
            && (rest != [] ==> First(xs) == Min(x.now, First(rest))
                               && Last(xs) == if x.now >= Last(rest) then x.now else Last(rest))
  {
    var xs := [x] + rest;
    assert xs[1..] == rest;
  }

  lemma OfTwo(x: Exchange, y: Exchange)
    requires x.now <= y.now
    ensures CreditedOnce([x, y]) <==> y.since >= x.now || y.since >= y.now
  {
    OneMore(x, [y]);
    OneMore(y, []);
    assert [x] + [y] == [x, y] && [y] + [] == [y];
  }

  /** For exchanges in the order of their times: the rate is kept in every window exactly when no time counts twice. */
  lemma WindowsIff(xs: seq<Exchange>)
    requires TimesFit(xs) && InOrder(xs)
    ensures KeepsRateInWindows(xs) <==> NoneTwice(xs)
  {
    if NoneTwice(xs) {
      forall i, j | 0 <= i <= j <= |xs| ensures KeepsRate(xs[i..j]) {
        var ys := xs[i..j];
        assert NoneTwice(ys) by {
          forall k | 0 < k < |ys| ensures ys[k].since >= ys[k - 1].now || ys[k].since >= ys[k].now {
            assert ys[k] == xs[i + k] && ys[k - 1] == xs[i + k - 1];
          }
        }
        if ys != [] { Telescopes(ys); }
        KeepsRateIff(ys);
      }
    }
    if KeepsRateInWindows(xs) {
      forall k | 0 < k < |xs| ensures xs[k].since >= xs[k - 1].now || xs[k].since >= xs[k].now {
        assert xs[k - 1..k + 1] == [xs[k - 1], xs[k]] && KeepsRate(xs[k - 1..k + 1]);
        KeepsRateIff([xs[k - 1], xs[k]]);
        OfTwo(xs[k - 1], xs[k]);
      }
    }
  }

  // ---------------------------------------------------------------- calls at once

  type Tid = nat

  datatype Call =
    | Started(now: Time, size: u64)              // has taken the time
    | Read(since: Time, now: Time, size: u64)    // has read the last update
    | Taken(now: Time)                           // has exchanged the tokens, has not yet written the last update

  /** `accepted` is the history of exchanges that were let through. */
  datatype State = State(bucket: Bucket, calls: map<Tid, Call>, clock: Time, accepted: seq<Exchange>)

  datatype Step =
    | Start(t: Tid, now: Time, size: u64)
    | ReadLast(t: Tid)
    | Swap(t: Tid)
    | Publish(t: Tid)

  predicate Enabled(s: State, step: Step) {
    match step
    case Start(t, now, _) => t !in s.calls && s.clock <= now
    case ReadLast(t) => t in s.calls && s.calls[t].Started?
    case Swap(t) => t in s.calls && s.calls[t].Read?
    case Publish(t) => t in s.calls && s.calls[t].Taken?
  }

  /** The exchange succeeds only on the tokens it was computed from, so computing and exchanging are one step. */
  function Next(s: State, step: Step): State
    requires Enabled(s, step)
  {
    match step
    case Start(t, now, size) => s.(calls := s.calls[t := Started(now, size)], clock := now)
    case ReadLast(t) =>
      s.(calls := s.calls[t := Read(s.bucket.lastUpdate, s.calls[t].now, s.calls[t].size)])
    case Swap(t) =>
      var x := Exchange(s.calls[t].since, s.calls[t].now, s.calls[t].size);
      (match Take(s.bucket, Credit(s.bucket.rate, Earned(x)), x.size)
       case None => s.(calls := s.calls - {t})
       case Some(b) => s.(bucket := b, calls := s.calls[t := Taken(x.now)], accepted := s.accepted + [x]))
    case Publish(t) => s.(bucket := s.bucket.(lastUpdate := s.calls[t].now), calls := s.calls - {t})
  }

  predicate Initial(s: State) {
    s.calls == map[] && s.accepted == [] && s.bucket.lastUpdate <= s.clock
  }

  ghost predicate Run(states: seq<State>, steps: seq<Step>) {
    && |states| == |steps| + 1 && Initial(states[0])
    && forall i :: 0 <= i < |steps| ==> StepAt(states, steps, i)
  }

  ghost predicate StepAt(states: seq<State>, steps: seq<Step>, i: nat)
    requires |states| == |steps| + 1 && i < |steps|
  {
    Enabled(states[i], steps[i]) && states[i + 1] == Next(states[i], steps[i])
  }

  /** The tokens are what the accepted exchanges, one after the other, make of the first bucket. */
  ghost predicate Follows(b: Bucket, s: State) {
    && s.bucket.rate == b.rate && s.bucket.max == b.max
    && var taken := TakeAll(b, Credits(b.rate, s.accepted), s.accepted);
       taken.Some? && taken.value.tokens == s.bucket.tokens
  }

  lemma {:induction false} TakeOneMore(b: Bucket, xs: seq<Exchange>, x: Exchange)
    requires TakeAll(b, Credits(b.rate, xs), xs).Some?
    ensures var taken := TakeAll(b, Credits(b.rate, xs), xs).value;
            && taken == b.(tokens := taken.tokens)
            && TakeAll(b, Credits(b.rate, xs + [x]), xs + [x]) == Take(taken, Credit(b.rate, Earned(x)), x.size)
    decreases |xs|
  {
    var all := xs + [x];
    if xs == [] {
      assert all == [x] && Credits(b.rate, all)[1..] == [];
    } else {
      var b' := Take(b, Credit(b.rate, Earned(xs[0])), xs[0].size).value;
      assert Credits(b.rate, xs)[1..] == Credits(b.rate, xs[1..]);
      assert Credits(b.rate, all)[1..] == Credits(b.rate, all[1..]) && all[1..] == xs[1..] + [x];
      TakeOneMore(b', xs[1..], x);
    }
  }

  lemma StepFollows(b: Bucket, s: State, step: Step)
    requires Enabled(s, step) && Follows(b, s)
    ensures Follows(b, Next(s, step))
  {
    if step.Swap? {
      var x := Exchange(s.calls[step.t].since, s.calls[step.t].now, s.calls[step.t].size);
      TakeOneMore(b, s.accepted, x);
    }
  }

  lemma {:induction false} RunFollows(states: seq<State>, steps: seq<Step>, i: nat)
    requires Run(states, steps) && i < |states|
    ensures Follows(states[0].bucket, states[i])
  {
    if i > 0 {
      RunFollows(states, steps, i - 1);
      assert StepAt(states, steps, i - 1);
      StepFollows(states[0].bucket, states[i - 1], steps[i - 1]);
    }
  }

  lemma {:induction false} TakenUpTo(b: Bucket, xs: seq<Exchange>, hi: nat)
    requires hi <= |xs| && TakeAll(b, Credits(b.rate, xs), xs).Some?
    ensures TakeAll(b, Credits(b.rate, xs[..hi]), xs[..hi]).Some?
    decreases |xs|
  {
    if hi > 0 {
      var b' := Take(b, Credit(b.rate, Earned(xs[0])), xs[0].size).value;
      assert Credits(b.rate, xs)[1..] == Credits(b.rate, xs[1..]);
      assert xs[..hi][1..] == xs[1..][..hi - 1];
      assert Credits(b.rate, xs[..hi])[1..] == Credits(b.rate, xs[1..][..hi - 1]);
      TakenUpTo(b', xs[1..], hi - 1);
    }
  }

  lemma {:induction false} TakenFrom(b: Bucket, xs: seq<Exchange>, lo: nat) returns (b': Bucket)
    requires lo <= |xs| && TakeAll(b, Credits(b.rate, xs), xs).Some?
    ensures b' == b.(tokens := b'.tokens) && TakeAll(b', Credits(b.rate, xs[lo..]), xs[lo..]).Some?
    decreases |xs|
  {
    b' := b;
    if lo > 0 {
      var next := Take(b, Credit(b.rate, Earned(xs[0])), xs[0].size).value;
      assert Credits(b.rate, xs)[1..] == Credits(b.rate, xs[1..]);
      b' := TakenFrom(next, xs[1..], lo - 1);
      assert xs[1..][lo - 1..] == xs[lo..];
    }
  }

  /**
   * In every run of any calls at once: any window of accepted exchanges in which no time is credited twice lets through
   * at most burst + rate x elapsed.
   */
  lemma RunKeepsRate(states: seq<State>, steps: seq<Step>, i: nat, lo: nat, hi: nat, start: Time, end: Time)
    requires Run(states, steps) && i < |states| && lo <= hi <= |states[i].accepted| && start <= end
    requires CreditedOnce(states[i].accepted[lo..hi]) && AllWithin(states[i].accepted[lo..hi], start, end)
    ensures var b := states[0].bucket;
            SizeSum(states[i].accepted[lo..hi]) * SECOND <= b.max * SECOND + b.rate * (end - start)
  {
    var b, xs := states[0].bucket, states[i].accepted;
    RunFollows(states, steps, i);
    TakenUpTo(b, xs, hi);
    var b' := TakenFrom(b, xs[..hi], lo);
    assert xs[..hi][lo..] == xs[lo..hi];
    CreditedOnceKeepsRate(xs[lo..hi], b', start, end);
  }

  // ---------------------------------------------------------------- one call at a time

  /** A call starts only when no other is in progress. */
  ghost predicate OneAtATime(states: seq<State>, steps: seq<Step>)
    requires |states| == |steps| + 1
  {
    forall i :: 0 <= i < |steps| && steps[i].Start? ==> states[i].calls == map[]
  }

  /** The last accepted exchange is not after the time. */
  predicate UpTo(xs: seq<Exchange>, time: Time) {
    xs != [] ==> xs[|xs| - 1].now <= time
  }

  /** What holds while calls do not overlap. */
  ghost predicate Alone(s: State) {
    && InOrder(s.accepted) && NoneTwice(s.accepted) && UpTo(s.accepted, s.clock) && s.bucket.lastUpdate <= s.clock
    && (forall t, u :: t in s.calls && u in s.calls ==> t == u)
    && (forall t :: t in s.calls ==> InProgress(s, s.calls[t]))
    && (s.calls == map[] ==> UpTo(s.accepted, s.bucket.lastUpdate))
  }

  predicate InProgress(s: State, call: Call) {
    match call
    case Started(now, _) => now == s.clock && UpTo(s.accepted, s.bucket.lastUpdate)
    case Read(since, now, _) => now == s.clock && UpTo(s.accepted, since) && UpTo(s.accepted, s.bucket.lastUpdate)
    case Taken(now) => now == s.clock && UpTo(s.accepted, now)
  }

  lemma GrowsInOrder(xs: seq<Exchange>, x: Exchange)
    requires InOrder(xs) && NoneTwice(xs) && UpTo(xs, x.since) && UpTo(xs, x.now)
    ensures InOrder(xs + [x]) && NoneTwice(xs + [x]) && UpTo(xs + [x], x.now)
  {
  }

  lemma SwapIsAlone(s: State, t: Tid)
    requires Enabled(s, Swap(t)) && Alone(s)
    ensures Alone(Next(s, Swap(t)))
  {
    var call := s.calls[t];
    assert InProgress(s, call);
    GrowsInOrder(s.accepted, Exchange(call.since, call.now, call.size));
    var s' := Next(s, Swap(t));
    if t in s'.calls {
      assert s'.calls == map[t := Taken(call.now)] && InProgress(s', Taken(call.now));
    }
  }

  lemma StepIsAlone(s: State, step: Step)
    requires Enabled(s, step) && Alone(s) && (step.Start? ==> s.calls == map[])
    ensures Alone(Next(s, step))
  {
    match step
    case Start(t, _, _) => assert t in Next(s, step).calls;
    case ReadLast(t) =>
      assert InProgress(s, s.calls[t]);
      assert t in Next(s, step).calls;
    case Swap(t) => SwapIsAlone(s, t);
    case Publish(t) =>
      assert InProgress(s, s.calls[t]);
      assert s.calls - {t} == map[];
  }

  lemma {:induction false} RunIsAlone(states: seq<State>, steps: seq<Step>, i: nat)
    requires Run(states, steps) && OneAtATime(states, steps) && i < |states|
    ensures Alone(states[i])
  {
    if i > 0 {
      RunIsAlone(states, steps, i - 1);
      assert StepAt(states, steps, i - 1);
      StepIsAlone(states[i - 1], steps[i - 1]);
    }
  }

  /** So calls that do not overlap keep the rate in every window, whatever their times. */
  lemma OneAtATimeKeepsRate(states: seq<State>, steps: seq<Step>, i: nat, lo: nat, hi: nat, start: Time, end: Time)
    requires Run(states, steps) && OneAtATime(states, steps) && i < |states| && lo <= hi <= |states[i].accepted|
    requires start <= end && AllWithin(states[i].accepted[lo..hi], start, end)
    ensures var b := states[0].bucket;
            SizeSum(states[i].accepted[lo..hi]) * SECOND <= b.max * SECOND + b.rate * (end - start)
  {
    RunIsAlone(states, steps, i);
    var xs := states[i].accepted;
    var ys := xs[lo..hi];
    forall k | 0 < k < |ys| ensures ys[k].since >= ys[k - 1].now || ys[k].since >= ys[k].now {
      assert ys[k] == xs[lo + k] && ys[k - 1] == xs[lo + k - 1];
    }
    if ys != [] { Telescopes(ys); }
    RunKeepsRate(states, steps, i, lo, hi, start, end);
  }

  // ---------------------------------------------------------------- two calls that overlap

  /** One call takes the burst; a second later two calls read the same last update before either writes it. */
  function Overlapping(): seq<Step> {
    [Start(0, 0, 10), ReadLast(0), Swap(0), Publish(0), Start(1, SECOND, 1), Start(2, SECOND, 1),
     ReadLast(1), ReadLast(2), Swap(1), Swap(2)]
  }

  const FULL: Bucket := Bucket(10, 1, 10, 0)
  const BURST: Exchange := Exchange(0, 0, 10)
  const LATE: Exchange := Exchange(0, SECOND, 1)

  function OverlappingState(i: nat): State
    requires i <= 10
  {
    var drained := Bucket(10, 1, 0, 0);
    match i
    case 0 => State(FULL, map[], 0, [])
    case 1 => State(FULL, map[0 := Started(0, 10)], 0, [])
    case 2 => State(FULL, map[0 := Read(0, 0, 10)], 0, [])
    case 3 => State(drained, map[0 := Taken(0)], 0, [BURST])
    case 4 => State(drained, map[], 0, [BURST])
    case 5 => State(drained, map[1 := Started(SECOND, 1)], SECOND, [BURST])
    case 6 => State(drained, map[1 := Started(SECOND, 1), 2 := Started(SECOND, 1)], SECOND, [BURST])
    case 7 => State(drained, map[1 := Read(0, SECOND, 1), 2 := Started(SECOND, 1)], SECOND, [BURST])
    case 8 => State(drained, map[1 := Read(0, SECOND, 1), 2 := Read(0, SECOND, 1)], SECOND, [BURST])
    case 9 => State(drained, map[1 := Taken(SECOND), 2 := Read(0, SECOND, 1)], SECOND, [BURST, LATE])
    case _ => State(drained, map[1 := Taken(SECOND), 2 := Taken(SECOND)], SECOND, [BURST, LATE, LATE])
  }

  lemma OverlappingStep(i: nat)
    requires i < 10
    ensures Enabled(OverlappingState(i), Overlapping()[i])
    ensures Next(OverlappingState(i), Overlapping()[i]) == OverlappingState(i + 1)
  {
    var s, t := OverlappingState(i), OverlappingState(i + 1);
    if i == 3 { assert s.calls - {0} == map[]; }
    if i == 8 { assert s.accepted + [LATE] == t.accepted; }
    if i == 9 { assert s.accepted + [LATE] == t.accepted; }
  }

  /** In this run twelve bytes pass within a second where ten and one are allowed: one second is credited twice. */
  lemma OverlappingCallsOverspend() returns (states: seq<State>)
    ensures Run(states, Overlapping()) && states[0].bucket == FULL
    ensures AllWithin(states[10].accepted, 0, SECOND) && !CreditedOnce(states[10].accepted)
    ensures SizeSum(states[10].accepted) * SECOND > FULL.max * SECOND + FULL.rate * SECOND
  {
    states := seq(11, i requires 0 <= i < 11 => OverlappingState(i));
    forall i | 0 <= i < 10 ensures StepAt(states, Overlapping(), i) { OverlappingStep(i); }
    var xs := [BURST, LATE, LATE];
    OneMore(LATE, []);
    OneMore(LATE, [LATE]);
    OneMore(BURST, [LATE, LATE]);
    assert [LATE] + [] == [LATE] && [LATE] + [LATE] == [LATE, LATE] && [BURST] + [LATE, LATE] == xs;
  }
}
