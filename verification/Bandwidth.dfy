/**
 * The token bucket of src/bandwidth.rs, with 64-bit saturation and per-call rounding. Times are in nanoseconds and come
 * with the call.
 */
module Bandwidth {
  import opened Bytes
  import opened Channels

  const MAX64: nat := 0xFFFF_FFFF_FFFF_FFFF
  type u64 = x: nat | x <= MAX64

  datatype Bucket = Bucket(max: u64, rate: u64, tokens: u64, lastUpdate: Time)

  function Min(a: nat, b: nat): nat {
    if a <= b then a else b
  }

  function SatAdd(a: nat, b: nat): u64 {
    Min(a + b, MAX64)
  }

  function SatMul(a: nat, b: nat): u64 {
    Min(a * b, MAX64)
  }

  function Elapsed(now: Time, since: Time): nat {
    if now >= since then now - since else 0
  }

  /** `tokens_to_add`: whole seconds and the remaining nanoseconds are converted and rounded apart. */
  function Credit(rate: u64, elapsed: nat): u64 {
    SatAdd(SatMul(elapsed / SECOND, rate), (elapsed % SECOND) * rate / SECOND)
  }

  /** The exchange on `tokens`, with a credit that was computed before. */
  function Take(b: Bucket, credit: u64, size: u64): Option<Bucket> {
    var available := Min(SatAdd(b.tokens, credit), b.max);
    if available < size then None else Some(b.(tokens := available - size))
  }

  /** `try_consume` by one caller at a time. */
  function Consumed(b: Bucket, size: u64, now: Time): Option<Bucket> {
    match Take(b, Credit(b.rate, Elapsed(now, b.lastUpdate)), size)
    case None => None
    case Some(b') => Some(b'.(lastUpdate := now))
  }

  class BandwidthLimiter {
    const maxTokens: u64
    const rate: u64
    var tokens: u64
    var lastUpdate: Time

    function View(): Bucket
      reads this
    {
      Bucket(maxTokens, rate, tokens, lastUpdate)
    }

    constructor (bytesPerSec: u64, burst: u64, now: Time)
      ensures View() == Bucket(burst, bytesPerSec, burst, now)
    {
      maxTokens, rate, tokens, lastUpdate := burst, bytesPerSec, burst, now;
    }

    /** The exchange is weak: it may fail for no reason, here at most `spurious` times. */
    method TryConsume(size: u64, now: Time, spurious: nat) returns (r: Option<u64>)
      modifies this
      ensures r.Some? <==> old(Consumed(View(), size, now)).Some?
      ensures r.Some? ==> Some(View()) == old(Consumed(View(), size, now)) && r.value == tokens
      ensures r.None? ==> View() == old(View())
    {
      var elapsed := Elapsed(now, lastUpdate);
      var credit := SatAdd(SatMul(elapsed / SECOND, rate), (elapsed % SECOND) * rate / SECOND);
      var current := tokens;
      var budget := spurious;
      while true
        invariant current == tokens == old(tokens) && lastUpdate == old(lastUpdate)
        decreases budget
      {
        var available := Min(SatAdd(current, credit), maxTokens);
        if available < size {
          return None;
        }
        var fails: bool := *;
        if fails && budget > 0 {
          budget := budget - 1;
          current := tokens;
        } else {
          tokens := available - size;
          lastUpdate := now;
          return Some(tokens);
        }
      }
    }
  }

  // ---------------------------------------------------------------- the rate bound

  lemma CreditIsEarned(rate: u64, elapsed: nat)
    ensures Credit(rate, elapsed) * SECOND <= rate * elapsed
  {
    var q, r := elapsed / SECOND, elapsed % SECOND;
    Distribute(rate, q * SECOND, r);
    assert rate * (q * SECOND) == (q * rate) * SECOND;
    assert (r * rate / SECOND) * SECOND <= r * rate;
  }

  lemma Distribute(rate: nat, a: nat, b: nat)
    ensures rate * (a + b) == rate * a + rate * b
  {
  }

  lemma LongerEarnsMore(rate: nat, a: nat, b: nat)
    requires a <= b
    ensures rate * a <= rate * b
  {
  }

  // ---------------------------------------------------------------- exactly how much is credited

  lemma DivideSum(a: nat, b: nat)
    ensures (a * SECOND + b) / SECOND == a + b / SECOND
  {
  }

  /** Converted apart and saturated twice, the credit is still the earned bytes, rounded down and saturated once. */
  lemma CreditIsFloor(rate: u64, elapsed: nat)
    ensures Credit(rate, elapsed) == Min(rate * elapsed / 1_000_000_000, 0xFFFF_FFFF_FFFF_FFFF)
  {
    var q, r := elapsed / SECOND, elapsed % SECOND;
    Distribute(rate, q * SECOND, r);
    assert rate * (q * SECOND) == (q * rate) * SECOND;
    DivideSum(q * rate, rate * r);
  }

  /** What the bucket holds at a time: what was left and what has been earned since, at most the burst. */
  function Available(b: Bucket, now: Time): nat {
    Min(b.tokens + b.rate * Elapsed(now, b.lastUpdate) / 1_000_000_000, b.max)
  }

  /** A call is let through exactly when the bucket holds its size, and then takes exactly its size. */
  lemma ConsumedExactly(b: Bucket, size: u64, now: Time)
    ensures Consumed(b, size, now) ==
            if size <= Available(b, now) then Some(Bucket(b.max, b.rate, Available(b, now) - size, now)) else None
  {
    CreditIsFloor(b.rate, Elapsed(now, b.lastUpdate));
  }

  datatype Call = Call(now: Time, size: u64)

  /** The calls happen in this order between the two times. */
  predicate Within(calls: seq<Call>, start: Time, end: Time) {
    if calls == [] then start <= end else start <= calls[0].now && Within(calls[1..], calls[0].now, end)
  }

  function After(b: Bucket, c: Call): Bucket {
    match Consumed(b, c.size, c.now)
    case None => b
    case Some(b') => b'
  }

  function AfterAll(b: Bucket, calls: seq<Call>): Bucket
    decreases |calls|
  {
    if calls == [] then b else AfterAll(After(b, calls[0]), calls[1..])
  }

  /** The bytes let through. */
  function Spent(b: Bucket, calls: seq<Call>): nat
    decreases |calls|
  {
    if calls == [] then 0
    else (if Consumed(b, calls[0].size, calls[0].now).Some? then calls[0].size else 0)
         + Spent(After(b, calls[0]), calls[1..])
  }

  /** A call that was let through, and the tokens it left. */
  datatype Receipt = Receipt(now: Time, size: nat, tokens: nat)

  function Total(receipts: seq<Receipt>): nat {
    if receipts == [] then 0 else receipts[0].size + Total(receipts[1..])
  }

  /** Each size and what it left were paid from the tokens before it and the time since, and fit in the bucket. */
  predicate Paid(max: nat, rate: nat, tokens: nat, from: Time, receipts: seq<Receipt>, end: Time)
    decreases |receipts|
  {
    if receipts == [] then from <= end
    else
      var r := receipts[0];
      && from <= r.now && r.size + r.tokens <= max
      && (r.size + r.tokens) * SECOND <= tokens * SECOND + rate * (r.now - from)
      && Paid(max, rate, r.tokens, r.now, receipts[1..], end)
  }

  lemma OneCall(b: Bucket, size: u64, now: Time)
    requires Consumed(b, size, now).Some? && b.lastUpdate <= now
    ensures var b' := Consumed(b, size, now).value;
            && (size + b'.tokens) * SECOND <= b.tokens * SECOND + b.rate * (now - b.lastUpdate)
            && size + b'.tokens <= b.max && b' == b.(tokens := b'.tokens, lastUpdate := now)
  {
    CreditIsEarned(b.rate, now - b.lastUpdate);
  }

  predicate NotBefore(receipts: seq<Receipt>, start: Time) {
    receipts != [] ==> start <= receipts[0].now
  }

  /** The receipts of a run of the bucket. */
  lemma {:induction false} Receipts(b: Bucket, calls: seq<Call>, start: Time, end: Time)
    returns (receipts: seq<Receipt>)
    requires Within(calls, start, end) && b.lastUpdate <= start
    ensures Paid(b.max, b.rate, b.tokens, b.lastUpdate, receipts, end)
    ensures Total(receipts) == Spent(b, calls) && start <= end && NotBefore(receipts, start)
    decreases |calls|
  {
    if calls == [] {
      receipts := [];
    } else {
      var c := calls[0];
      var rest := Receipts(After(b, c), calls[1..], c.now, end);
      if Consumed(b, c.size, c.now).Some? {
        OneCall(b, c.size, c.now);
        receipts := [Receipt(c.now, c.size, After(b, c).tokens)] + rest;
        assert receipts[1..] == rest;
      } else {
        receipts := rest;
      }
    }
  }

  lemma {:induction false} PaidFromTokens(max: nat, rate: nat, tokens: nat, from: Time, receipts: seq<Receipt>,
                                          end: Time)
    requires Paid(max, rate, tokens, from, receipts, end)
    ensures from <= end && Total(receipts) * SECOND <= tokens * SECOND + rate * (end - from)
    decreases |receipts|
  {
    if receipts == [] {
      LongerEarnsMore(rate, 0, end - from);
    } else {
      var r := receipts[0];
      PaidFromTokens(max, rate, r.tokens, r.now, receipts[1..], end);
      Distribute(rate, r.now - from, end - r.now);
    }
  }

  /**
   * From any state of the bucket, in any window, the bytes let through are at most the burst and what the rate allows
   * for the length of the window. Everything is scaled by the nanoseconds of a second.
   */
  lemma RateBound(b: Bucket, calls: seq<Call>, start: Time, end: Time)
    requires Within(calls, start, end) && b.lastUpdate <= start
    ensures start <= end && Spent(b, calls) * SECOND <= b.max * SECOND + b.rate * (end - start)
  {
    var receipts := Receipts(b, calls, start, end);
    PaidInWindow(b.max, b.rate, b.tokens, b.lastUpdate, receipts, start, end);
  }

  lemma PaidInWindow(max: nat, rate: nat, tokens: nat, from: Time, receipts: seq<Receipt>, start: Time, end: Time)
    requires Paid(max, rate, tokens, from, receipts, end) && start <= end && NotBefore(receipts, start)
    ensures Total(receipts) * SECOND <= max * SECOND + rate * (end - start)
  {
    if receipts == [] {
      LongerEarnsMore(rate, 0, end - start);
    } else {
      var r := receipts[0];
      PaidFromTokens(max, rate, r.tokens, r.now, receipts[1..], end);
      LongerEarnsMore(rate, end - r.now, end - start);
    }
  }

  lemma TenSecondsEarn(rate: u64, elapsed: nat)
    requires 10 * SECOND <= elapsed
    ensures Credit(rate, elapsed) >= SatMul(rate, 10)
  {
    var q := elapsed / SECOND;
    assert q * rate >= 10 * rate by { LongerEarnsMore(rate, 10, q); }
    assert SatMul(q, rate) >= SatMul(rate, 10);
  }

  /** The other direction: a bucket of ten seconds' worth is full again after ten idle seconds. */
  lemma FullAfterTenSeconds(b: Bucket, size: u64, now: Time)
    requires b.max == SatMul(b.rate, 10) && b.lastUpdate + 10 * SECOND <= now
    ensures Consumed(b, size, now).Some? <==> size <= b.max
  {
    TenSecondsEarn(b.rate, now - b.lastUpdate);
  }
}
