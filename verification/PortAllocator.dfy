/** The relay port allocator of src/allocation.rs, called by one thread at a time. */
module PortAllocator {
  import opened Bytes
  import opened BitWord

  /** Whether bit `k` of the bitmap is set. */
  predicate IndexTaken(ws: seq<Word>, k: nat) {
    k / 64 < |ws| && Bit(ws[k / 64], k % 64)
  }

  predicate PortTaken(ws: seq<Word>, minPort: nat, p: nat) {
    minPort <= p && IndexTaken(ws, p - minPort)
  }

  /** The ports of the range whose bits are set. */
  ghost function TakenPorts(ws: seq<Word>, minPort: nat, portCount: nat): set<nat> {
    set p: nat | minPort <= p < minPort + portCount && PortTaken(ws, minPort, p)
  }

  predicate InRange(minPort: nat, portCount: nat, p: nat) {
    minPort <= p < minPort + portCount
  }

  ghost function Range(minPort: nat, portCount: nat): set<nat> {
    set p: nat | p < minPort + portCount && InRange(minPort, portCount, p)
  }

  /** No port of the range is free in word `w`. */
  ghost predicate Exhausted(ws: seq<Word>, w: nat, portCount: nat) {
    forall k: nat :: k < portCount && k / 64 == w ==> IndexTaken(ws, k)
  }

  lemma SetIndex(ws: seq<Word>, w: nat, b: nat, k: nat)
    requires w < |ws| && b < 64
    ensures IndexTaken(ws[w := Or(ws[w], b)], k) <==> IndexTaken(ws, k) || k == 64 * w + b
  {
    if k / 64 == w { SetBit(ws[w], b, k % 64); }
  }

  lemma ClearIndex(ws: seq<Word>, w: nat, b: nat, k: nat)
    requires w < |ws| && b < 64
    ensures IndexTaken(ws[w := AndNot(ws[w], b)], k) <==> IndexTaken(ws, k) && k != 64 * w + b
  {
    if k / 64 == w { ClearBit(ws[w], b, k % 64); }
  }

  lemma FullWordExhausted(ws: seq<Word>, w: nat, portCount: nat)
    requires w < |ws| && ws[w] == FULL
    ensures Exhausted(ws, w, portCount)
  {
    forall k: nat | k < portCount && k / 64 == w ensures IndexTaken(ws, k) { FullHasAllBits(k % 64); }
  }

  /** When the lowest free bit of a word is past the range, the word has no free port. */
  lemma LowestFreePastRange(ws: seq<Word>, w: nat, b: nat, portCount: nat)
    requires w < |ws| && b < 64 && 64 * w + b >= portCount
    requires forall j: nat :: j < b ==> !Bit(Not(ws[w]), j)
    ensures Exhausted(ws, w, portCount)
  {
    forall k: nat | k < portCount && k / 64 == w ensures IndexTaken(ws, k) { NotBit(ws[w], k % 64); }
  }

  /** The word visited `b` steps after the random start. */
  function Wrapped(start: nat, b: nat, n: nat): nat
    requires n > 0
  {
    (start + b) % n
  }

  lemma ModSmall(r: nat, n: nat)
    requires r < n
    ensures r % n == (n + r) % n == r
  {
  }

  lemma WrapReaches(start: nat, n: nat, w: nat) returns (b: nat)
    requires start < n && w < n
    ensures b < n && Wrapped(start, b, n) == w
  {
    b := if w >= start then w - start else w + n - start;
    ModSmall(w, n);
  }

  /** Starting anywhere and wrapping around visits every word, so a pass without a free port leaves none. */
  lemma AllExhausted(ws: seq<Word>, start: nat, portCount: nat)
    requires |ws| == (portCount + 63) / 64 && start < |ws|
    requires forall b: nat :: b < |ws| ==> Exhausted(ws, Wrapped(start, b, |ws|), portCount)
    ensures forall k: nat :: k < portCount ==> IndexTaken(ws, k)
  {
    forall k: nat | k < portCount ensures IndexTaken(ws, k) {
      var b := WrapReaches(start, |ws|, k / 64);
      assert Exhausted(ws, Wrapped(start, b, |ws|), portCount);
    }
  }

  lemma AllTakenIsRange(ws: seq<Word>, minPort: nat, portCount: nat)
    requires forall k: nat :: k < portCount ==> IndexTaken(ws, k)
    ensures TakenPorts(ws, minPort, portCount) == Range(minPort, portCount)
  {
    forall p: nat | minPort <= p < minPort + portCount ensures PortTaken(ws, minPort, p) {
      assert IndexTaken(ws, p - minPort);
    }
    assert forall p :: p in Range(minPort, portCount) ==> PortTaken(ws, minPort, p);
  }

  class PortAllocator {
    const minPort: u16
    const maxPort: u16
    const portCount: nat
    const words: array<Word>
    var allocatedCount: int

    ghost predicate Valid()
      reads this, words
    {
      && minPort <= maxPort && portCount == maxPort - minPort + 1 < 0x1_0000
      && words.Length == (portCount + 63) / 64
      && (forall k: nat :: k >= portCount ==> !IndexTaken(words[..], k))
      && allocatedCount == |Taken()|
    }

    ghost function Taken(): set<nat>
      reads this, words
    {
      TakenPorts(words[..], minPort, portCount)
    }

    constructor (min: u16, max: u16)
      requires min <= max && max - min + 1 < 0x1_0000
      ensures Valid() && fresh(words) && minPort == min && maxPort == max
      ensures Taken() == {}
    {
      minPort, maxPort, portCount := min, max, max - min + 1;
      words := new Word[(max - min + 64) / 64](_ => 0);
      allocatedCount := 0;
      new;
      forall k: nat ensures !IndexTaken(words[..], k) { ZeroHasNoBits(k % 64); }
      assert TakenPorts(words[..], minPort, portCount) == {};
    }

    /** A successful compare-and-swap that sets a free bit, then the counter increment. */
    method TakeBit(w: nat, b: nat) returns (port: u16)
      requires Valid() && w < words.Length && b < 64 && 64 * w + b < portCount
      requires !IndexTaken(words[..], 64 * w + b)
      modifies this, words
      ensures Valid() && port == minPort + 64 * w + b
      ensures port !in old(Taken()) && Taken() == old(Taken()) + {port as nat}
    {
      ghost var before := words[..];
      words[w] := Or(words[w], b);
      allocatedCount := allocatedCount + 1;
      port := minPort + 64 * w + b;
      assert words[..] == before[w := Or(before[w], b)];
      ghost var after := words[..];
      forall k: nat ensures IndexTaken(after, k) <==> IndexTaken(before, k) || k == 64 * w + b {
        SetIndex(before, w, b, k);
      }
      assert TakenPorts(after, minPort, portCount) == TakenPorts(before, minPort, portCount) + {port as nat};
    }

    /** The loop body of `allocate` for one word; `spurious` bounds the weak exchanges that fail for no reason. */
    method AllocateInWord(w: nat, randomBit: nat, spurious: nat) returns (r: Option<u16>, left: nat)
      requires Valid() && w < words.Length && randomBit < 64
      modifies this, words
      ensures Valid()
      ensures r.None? ==> words[..] == old(words[..]) && Exhausted(words[..], w, portCount)
      ensures r.Some? ==> r.value !in old(Taken()) && Taken() == old(Taken()) + {r.value as nat}
                          && minPort <= r.value <= maxPort
    {
      left := spurious;
      var current := words[w];
      if current == FULL {
        FullWordExhausted(words[..], w, portCount);
        return None, left;
      }
      NotBit(current, randomBit);
      if Bit(Not(current), randomBit) {
        var portIndex := AsU16(64 * w + randomBit);
        if portIndex < portCount {
          var fails: bool := *;
          if fails && left > 0 {
            left := left - 1;
          } else {
            var port := TakeBit(w, randomBit);
            return Some(port), left;
          }
        }
      }
      while true
        invariant words[..] == old(words[..]) && allocatedCount == old(allocatedCount)
        decreases left
      {
        var freeMask := Not(current);
        var freeBit := TrailingZeros(freeMask);
        NotBit(current, freeBit);
        var portIndex := AsU16(64 * w + freeBit);
        if portIndex >= portCount {
          LowestFreePastRange(words[..], w, freeBit, portCount);
          return None, left;
        }
        var fails: bool := *;
        if fails && left > 0 {
          left := left - 1;
        } else {
          var port := TakeBit(w, freeBit);
          return Some(port), left;
        }
      }
    }

    /**
     * `allocate`, for any two random words: None exactly when every port of the range is taken, and otherwise
     * one free port of the range is taken and nothing else changes.
     */
    method Allocate(random0: nat, random1: nat, spurious: nat) returns (r: Option<u16>)
      requires Valid()
      modifies this, words
      ensures Valid()
      ensures r.None? <==> forall p: nat :: minPort <= p <= maxPort ==> p in old(Taken())
      ensures r.None? ==> words[..] == old(words[..])
      ensures r.Some? ==> minPort <= r.value <= maxPort && r.value !in old(Taken())
                          && Taken() == old(Taken()) + {r.value as nat}
    {
      var n := words.Length;
      var start, bitOffset := random0 % n, random1 % 64;
      var left := spurious;
      for i := 0 to n
        invariant Valid() && words[..] == old(words[..])
        invariant forall b: nat :: b < i ==> Exhausted(words[..], Wrapped(start, b, n), portCount)
      {
        var taken;
        taken, left := AllocateInWord(Wrapped(start, i, n), (bitOffset + i) % 64, left);
        if taken.Some? {
          assert minPort <= taken.value <= maxPort && taken.value !in old(Taken());
          return taken;
        }
      }
      AllExhausted(words[..], start, portCount);
      AllTakenIsRange(words[..], minPort, portCount);
      forall p: nat | minPort <= p <= maxPort ensures p in Taken() { assert InRange(minPort, portCount, p); }
      r := None;
    }

    /** `release`: true exactly for a taken port of the range, which becomes free. */
    method Release(port: u16) returns (r: bool)
      requires Valid()
      modifies this, words
      ensures Valid()
      ensures r == (port in old(Taken()))
      ensures Taken() == old(Taken()) - {port as nat}
    {
      if port < minPort || port > maxPort {
        return false;
      }
      var k := port - minPort;
      var w, b := k / 64, k % 64;
      if !Bit(words[w], b) {
        assert !PortTaken(words[..], minPort, port);
        return false;
      }
      ghost var before := words[..];
      assert PortTaken(before, minPort, port);
      words[w] := AndNot(words[w], b);
      allocatedCount := allocatedCount - 1;
      assert words[..] == before[w := AndNot(before[w], b)];
      forall j: nat ensures IndexTaken(words[..], j) <==> IndexTaken(before, j) && j != k {
        ClearIndex(before, w, b, j);
      }
      assert Taken() == TakenPorts(before, minPort, portCount) - {port as nat};
      r := true;
    }

    method IsAllocated(port: u16) returns (r: bool)
      requires Valid()
      ensures r == (port in Taken())
    {
      if port < minPort || port > maxPort {
        return false;
      }
      var k := port - minPort;
      r := Bit(words[k / 64], k % 64);
      assert r == PortTaken(words[..], minPort, port);
    }

    /** The free ports and the taken ones make up the range, so the subtraction never goes below zero. */
    method AvailableCount() returns (n: nat)
      requires Valid()
      ensures n + |Taken()| == maxPort - minPort + 1
    {
      var range := Range(minPort, portCount);
      RangeSize(minPort, portCount);
      assert Taken() <= range;
      assert |range| == |range - Taken()| + |Taken()| by {
        assert range == (range - Taken()) + Taken();
      }
      n := portCount - allocatedCount;
    }
  }

  lemma {:induction false} RangeSize(minPort: nat, portCount: nat)
    ensures |Range(minPort, portCount)| == portCount
  {
    if portCount > 0 {
      RangeSize(minPort, portCount - 1);
      assert Range(minPort, portCount) == Range(minPort, portCount - 1) + {minPort + portCount - 1};
    } else {
      assert Range(minPort, portCount) == {};
    }
  }
}
