/**
 * Access lists whose ranges are printed IPv4 prefixes or addresses: when one rule can overtake another is a matter of
 * prefixes. Two lists loaded lowest priority first show it.
 */
module AclRanges {
  import opened Bytes
  import opened Cidr
  import opened Acl

  /** An address with a mask, or a bare address, which stands for itself alone. */
  datatype Range = Range(base: seq<byte>, mask: nat) | Single(base: seq<byte>) {
    function Bits(): nat {
      if Single? then 32 else mask
    }
  }

  predicate IsRange(r: Range) {
    |r.base| == 4 && r.Bits() <= 0xFFFF_FFFF
  }

  function ShowAddr(x: seq<byte>): string
    requires |x| == 4
  {
    ShowV4(x[0], x[1], x[2], x[3])
  }

  function Printed(r: Range): string
    requires IsRange(r)
  {
    if r.Single? then ShowAddr(r.base) else ShowAddr(r.base) + "/" + Show(r.mask)
  }

  /** The address has the top bits of the base that the mask names. */
  predicate Contains(r: Range, x: seq<byte>)
    requires IsRange(r) && |x| == 4
  {
    ShiftRight(Word(x), HostBits(r.Bits())) == ShiftRight(Word(r.base), HostBits(r.Bits()))
  }

  function Longer(p: Range, q: Range): Range {
    if p.Bits() >= q.Bits() then p else q
  }

  function Shorter(p: Range, q: Range): Range {
    if p.Bits() >= q.Bits() then q else p
  }

  /** The shorter prefix contains the base of the longer one. */
  predicate Nested(p: Range, q: Range)
    requires IsRange(p) && IsRange(q)
  {
    Contains(Shorter(p, q), Longer(p, q).base)
  }

  /** Two prefixes share exactly the longer one when they are nested, and nothing otherwise. */
  lemma OverlapIsNesting(p: Range, q: Range, x: seq<byte>)
    requires IsRange(p) && IsRange(q) && |x| == 4
    ensures Contains(p, x) && Contains(q, x) <==> Nested(p, q) && Contains(Longer(p, q), x)
  {
    var long, short := Longer(p, q), Shorter(p, q);
    if Contains(long, x) {
      ShiftedFurther(Word(x), Word(long.base), HostBits(long.Bits()), HostBits(short.Bits()));
    }
  }

  predicate Prints(log: seq<AclRule>, ranges: seq<Range>) {
    |log| == |ranges| && forall i :: 0 <= i < |log| ==> IsRange(ranges[i]) && log[i].ipRange == Printed(ranges[i])
  }

  lemma WordIsAddr(x: seq<byte>, y: seq<byte>)
    requires |x| == 4 && |y| == 4 && Word(x) == Word(y)
    ensures x == y
  {
    assert x[0] == y[0] && x[1] == y[1] && x[2] == y[2] && x[3] == y[3];
  }

  /** A bare address is compared as text, which is comparing the address. */
  lemma SingleCovers(x: seq<byte>, y: seq<byte>)
    requires |x| == 4 && |y| == 4
    ensures Cidr.InRange(ShowAddr(x), ShowAddr(y)) <==> Word(x) == Word(y)
  {
    SplitV4(y[0], y[1], y[2], y[3]);
    ReadV4(x[0], x[1], x[2], x[3]);
    ReadV4(y[0], y[1], y[2], y[3]);
    assert [x[0], x[1], x[2], x[3]] == x && [y[0], y[1], y[2], y[3]] == y;
    if Word(x) == Word(y) { WordIsAddr(x, y); }
  }

  lemma CoversPrinted(log: seq<AclRule>, ranges: seq<Range>, i: nat, x: seq<byte>)
    requires Prints(log, ranges) && i < |log| && |x| == 4
    ensures Covers(ShowAddr(x))(log[i]) <==> Contains(ranges[i], x)
  {
    var r := ranges[i];
    if r.Single? {
      SingleCovers(x, r.base);
    } else {
      PrintedRange(x, r.base, r.mask);
    }
  }

  predicate ContainedBefore(ranges: seq<Range>, i: nat, x: seq<byte>)
    requires i <= |ranges| && |x| == 4
  {
    exists k :: 0 <= k < i && IsRange(ranges[k]) && Contains(ranges[k], x)
  }

  /** Every address of the prefix lies in some range before `i`. */
  ghost predicate Sheltered(ranges: seq<Range>, i: nat, r: Range)
    requires i <= |ranges| && IsRange(r)
  {
    forall x: seq<byte> :: |x| == 4 && Contains(r, x) ==> ContainedBefore(ranges, i, x)
  }

  lemma CoveredIsContained(log: seq<AclRule>, ranges: seq<Range>, i: nat, x: seq<byte>)
    requires Prints(log, ranges) && i <= |log| && |x| == 4
    ensures CoveredBefore(log, ShowAddr(x), i) <==> ContainedBefore(ranges, i, x)
  {
    forall k: nat | k < i ensures Covers(ShowAddr(x))(log[k]) <==> Contains(ranges[k], x) {
      CoversPrinted(log, ranges, k, x);
    }
  }

  /** The rule at `i` comes before one of higher priority whose prefix is nested with its own. */
  predicate Crosses(log: seq<AclRule>, ranges: seq<Range>, i: nat, j: nat)
    requires Prints(log, ranges)
  {
    i < j < |log| && log[i].priority < log[j].priority && Nested(ranges[i], ranges[j])
  }

  lemma OvertakesIsCrossing(log: seq<AclRule>, ranges: seq<Range>, i: nat, j: nat, x: seq<byte>)
    requires Prints(log, ranges) && i < j < |log| && |x| == 4
    ensures Overtakes(log, ShowAddr(x), i, j) <==>
            Crosses(log, ranges, i, j) && Contains(Longer(ranges[i], ranges[j]), x)
  {
    CoversPrinted(log, ranges, i, x);
    CoversPrinted(log, ranges, j, x);
    OverlapIsNesting(ranges[i], ranges[j], x);
  }

  ghost predicate InOrderForAll(log: seq<AclRule>) {
    forall x: seq<byte> :: |x| == 4 ==> InOrderAt(log, ShowAddr(x))
  }

  ghost predicate PrefixesInOrder(log: seq<AclRule>, ranges: seq<Range>)
    requires Prints(log, ranges)
  {
    forall i: nat, j: nat :: Crosses(log, ranges, i, j) ==> Sheltered(ranges, i, Longer(ranges[i], ranges[j]))
  }

  /**
   * A list of printed prefixes and addresses is in order for every IPv4 address if and only if, wherever a rule stands
   * before one of higher priority with a nested prefix, the longer of the two prefixes lies within the ranges of the
   * rules before. An address is a prefix of all its bits.
   */
  lemma InOrderByPrefixes(log: seq<AclRule>, ranges: seq<Range>)
    requires Prints(log, ranges)
    ensures InOrderForAll(log) <==> PrefixesInOrder(log, ranges)
  {
    if PrefixesInOrder(log, ranges) {
      forall x: seq<byte> | |x| == 4 ensures InOrderAt(log, ShowAddr(x)) {
        PrefixesSuffice(log, ranges, x);
      }
    }
    if InOrderForAll(log) {
      forall i: nat, j: nat | Crosses(log, ranges, i, j) ensures Sheltered(ranges, i, Longer(ranges[i], ranges[j])) {
        PrefixesNeeded(log, ranges, i, j);
      }
    }
  }

  lemma PrefixesSuffice(log: seq<AclRule>, ranges: seq<Range>, x: seq<byte>)
    requires Prints(log, ranges) && PrefixesInOrder(log, ranges) && |x| == 4
    ensures InOrderAt(log, ShowAddr(x))
  {
    forall i: nat, j: nat | Overtakes(log, ShowAddr(x), i, j) ensures CoveredBefore(log, ShowAddr(x), i) {
      OvertakesIsCrossing(log, ranges, i, j, x);
      CoveredIsContained(log, ranges, i, x);
    }
  }

  lemma PrefixesNeeded(log: seq<AclRule>, ranges: seq<Range>, i: nat, j: nat)
    requires Prints(log, ranges) && InOrderForAll(log) && Crosses(log, ranges, i, j)
    ensures Sheltered(ranges, i, Longer(ranges[i], ranges[j]))
  {
    forall x: seq<byte> | |x| == 4 && Contains(Longer(ranges[i], ranges[j]), x) ensures ContainedBefore(ranges, i, x) {
      OvertakesIsCrossing(log, ranges, i, j, x);
      CoveredIsContained(log, ranges, i, x);
      assert InOrderAt(log, ShowAddr(x));
    }
  }

  // ---------------------------------------------------------------- two loaded lists

  const OUT_OF_ORDER: seq<AclRule> := [AclRule("10.0.0.0/8", Allow, 1), AclRule("10.0.0.0/8", Deny, 2)]
  const APART: seq<AclRule> := [AclRule("10.0.0.0/8", Allow, 1), AclRule("11.0.0.0/8", Deny, 2)]

  lemma ShownAddrs()
    ensures ShowAddr([10, 0, 0, 0]) == "10.0.0.0" && ShowAddr([11, 0, 0, 0]) == "11.0.0.0"
    ensures ShowAddr([10, 1, 2, 3]) == "10.1.2.3"
  {
    assert Show(10) == "10" && Show(11) == "11";
    assert Show(0) == "0" && Show(1) == "1" && Show(2) == "2" && Show(3) == "3";
  }

  lemma ShownRanges()
    ensures Printed(Range([10, 0, 0, 0], 8)) == "10.0.0.0/8" && Printed(Range([11, 0, 0, 0], 8)) == "11.0.0.0/8"
  {
    ShownAddrs();
    assert Show(8) == "8";
  }

  lemma Halve(a: nat, half: nat, k: nat)
    requires half == a / 2
    ensures ShiftRight(a, k + 1) == ShiftRight(half, k)
  {
  }

  lemma ShiftOctet(q: nat, r: byte)
    ensures ShiftRight(256 * q + r, 8) == q
  {
    Halve(256 * q + r, 128 * q + r / 2, 7);
    Halve(128 * q + r / 2, 64 * q + r / 4, 6);
    Halve(64 * q + r / 4, 32 * q + r / 8, 5);
    Halve(32 * q + r / 8, 16 * q + r / 16, 4);
    Halve(16 * q + r / 16, 8 * q + r / 32, 3);
    Halve(8 * q + r / 32, 4 * q + r / 64, 2);
    Halve(4 * q + r / 64, 2 * q + r / 128, 1);
    Halve(2 * q + r / 128, q, 0);
  }

  lemma {:induction false} ShiftTwice(a: nat, j: nat, k: nat)
    ensures ShiftRight(a, j + k) == ShiftRight(ShiftRight(a, j), k)
  {
    if j > 0 { ShiftTwice(a / 2, j - 1, k); }
  }

  /** Shifting by three octets leaves the first one. */
  lemma FirstOctet(x: seq<byte>)
    requires |x| == 4
    ensures ShiftRight(Word(x), 24) == x[0]
  {
    var two: nat := 256 * (x[0] as int) + x[1];
    var three: nat := 256 * two + x[2];
    ShiftTwice(Word(x), 8, 16);
    ShiftOctet(three, x[3]);
    ShiftTwice(three, 8, 8);
    ShiftOctet(two, x[2]);
    ShiftOctet(x[0], x[1]);
  }

  lemma TenCoversTen()
    ensures Cidr.InRange("10.1.2.3", "10.0.0.0/8")
  {
    ShownAddrs();
    ShownRanges();
    FirstOctet([10, 1, 2, 3]);
    FirstOctet([10, 0, 0, 0]);
    PrintedRange([10, 1, 2, 3], [10, 0, 0, 0], 8);
  }

  /** Lowest priority first: 10.1.2.3 is let through although the rule of highest priority denies it. */
  lemma LoadedOutOfOrder()
    ensures Best(Log([Load(OUT_OF_ORDER)]), Covers("10.1.2.3"), 1) && OUT_OF_ORDER[1].action == Deny
    ensures Allows(FirstMatch(Rules([Load(OUT_OF_ORDER)]), Covers("10.1.2.3")))
    ensures !AnswersAt(Rules([Load(OUT_OF_ORDER)]), Log([Load(OUT_OF_ORDER)]), "10.1.2.3")
  {
    TenCoversTen();
  }

  const TEN: Range := Range([10, 0, 0, 0], 8)
  const ELEVEN: Range := Range([11, 0, 0, 0], 8)

  lemma TenIsNotEleven()
    ensures !Nested(TEN, ELEVEN)
  {
    FirstOctet([10, 0, 0, 0]);
    FirstOctet([11, 0, 0, 0]);
  }

  lemma TwoPrinted(log: seq<AclRule>, p: Range, q: Range)
    requires |log| == 2 && IsRange(p) && IsRange(q) && !Nested(p, q)
    requires log[0].ipRange == Printed(p) && log[1].ipRange == Printed(q)
    ensures InOrderForAll(log)
  {
    assert Prints(log, [p, q]);
    InOrderByPrefixes(log, [p, q]);
  }

  lemma ApartInOrder()
    ensures InOrderForAll(APART)
  {
    ShownRanges();
    TenIsNotEleven();
    TwoPrinted(APART, TEN, ELEVEN);
  }

  /** Lowest priority first as well, but the prefixes are apart: every IPv4 address is decided by the best rule. */
  lemma LoadedApart(x: seq<byte>)
    requires |x| == 4
    ensures FollowsAt(Rules([Load(APART)]), Log([Load(APART)]), ShowAddr(x))
  {
    ApartInOrder();
    CheckFollowsLog([Load(APART)], ShowAddr(x));
  }
}
