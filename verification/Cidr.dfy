/**
 * The address ranges of src/auth.rs: dotted addresses and masks read from text, and the mask test. Addresses are text
 * on both sides, as in the source.
 */
module Cidr {
  import opened Bytes

  // ---------------------------------------------------------------- text

  /** `split`: the parts between separators, one more than there are separators. */
  function Split(s: string, sep: char): (parts: seq<string>)
    ensures |parts| > 0
  {
    if s == "" then [""]
    else
      var rest := Split(s[1..], sep);
      if s[0] == sep then [""] + rest else [[s[0]] + rest[0]] + rest[1..]
  }

  predicate IsDigit(c: char) {
    '0' <= c <= '9'
  }

  function Digits(s: string): Option<nat> {
    if s == "" then Some(0)
    else
      var n, c := |s| - 1, s[|s| - 1];
      match Digits(s[..n])
      case None => None
      case Some(v) => if IsDigit(c) then Some(10 * v + (c as int - '0' as int)) else None
  }

  /** `parse` for an unsigned type: an optional plus sign, at least one digit, nothing else, and no overflow. */
  function ParseUnsigned(s: string, max: nat): Option<nat> {
    var digits := if s != "" && s[0] == '+' then s[1..] else s;
    if digits == "" then None
    else match Digits(digits)
      case None => None
      case Some(v) => if v <= max then Some(v) else None
  }

  function Show(n: nat): string {
    (if n < 10 then "" else Show(n / 10)) + [('0' as int + n % 10) as char]
  }

  lemma {:induction false} ShowIsDecimal(n: nat)
    ensures Digits(Show(n)) == Some(n) && Show(n) != ""
    ensures forall c <- Show(n) :: IsDigit(c)
  {
    var s, d := if n < 10 then "" else Show(n / 10), ('0' as int + n % 10) as char;
    assert Show(n) == s + [d] && Show(n)[..|s|] == s;
    if n >= 10 {
      ShowIsDecimal(n / 10);
    }
  }

  /** Every number that fits is read back from its decimal form. */
  lemma ParseShow(n: nat, max: nat)
    requires n <= max
    ensures ParseUnsigned(Show(n), max) == Some(n)
  {
    ShowIsDecimal(n);
    assert IsDigit(Show(n)[0]);
  }

  lemma {:induction false} SplitFirst(part: string, rest: string, sep: char)
    requires sep !in part
    ensures Split(part + [sep] + rest, sep) == [part] + Split(rest, sep)
  {
    var s := part + [sep] + rest;
    if part == "" {
      assert s[1..] == rest;
    } else {
      assert s[1..] == part[1..] + [sep] + rest;
      SplitFirst(part[1..], rest, sep);
      assert [part[0]] + part[1..] == part;
    }
  }

  lemma {:induction false} SplitLast(part: string, sep: char)
    requires sep !in part
    ensures Split(part, sep) == [part]
  {
    if part != "" {
      SplitLast(part[1..], sep);
      assert [part[0]] + part[1..] == part;
    }
  }

  // ---------------------------------------------------------------- masks

  /** The bitwise and of the low `n` bits. */
  function And(a: nat, b: nat, n: nat): nat {
    if n == 0 then 0 else 2 * And(a / 2, b / 2, n - 1) + (if a % 2 == 1 && b % 2 == 1 then 1 else 0)
  }

  function ShiftRight(a: nat, k: nat): nat {
    if k == 0 then a else ShiftRight(a / 2, k - 1)
  }

  /** All ones but the low `k` of `n` bits: the complement of `(1 << k) - 1`. */
  function Ones(n: nat, k: nat): nat
    requires k <= n
  {
    LowOnesFit(n, k);
    Pow2(n) - 1 - (Pow2(k) - 1)
  }

  lemma {:induction false} LowOnesFit(n: nat, k: nat)
    requires k <= n
    ensures Pow2(k) <= Pow2(n)
  {
    if k < n { LowOnesFit(n - 1, k); }
  }

  /** Two numbers agree under the mask exactly when they agree once the masked-out bits are shifted away. */
  lemma {:induction false} MaskedIffShifted(a: nat, b: nat, n: nat, k: nat)
    requires k <= n && a < Pow2(n) && b < Pow2(n)
    ensures And(a, Ones(n, k), n) == And(b, Ones(n, k), n) <==> ShiftRight(a, k) == ShiftRight(b, k)
  {
    if k == 0 {
      AllOnes(a, n);
      AllOnes(b, n);
    } else {
      HalfOnes(n, k);
      MaskedIffShifted(a / 2, b / 2, n - 1, k - 1);
    }
  }

  lemma HalfOnes(n: nat, k: nat)
    requires 0 < k <= n
    ensures Ones(n, k) == 2 * Ones(n - 1, k - 1)
  {
  }

  lemma {:induction false} AllOnes(a: nat, n: nat)
    requires a < Pow2(n)
    ensures And(a, Ones(n, 0), n) == a
  {
    if n > 0 {
      AllOnes(a / 2, n - 1);
      assert Ones(n, 0) == 2 * Ones(n - 1, 0) + 1;
    }
  }

  lemma {:induction false} ShiftedFurther(a: nat, b: nat, k: nat, j: nat)
    requires ShiftRight(a, k) == ShiftRight(b, k) && k <= j
    ensures ShiftRight(a, j) == ShiftRight(b, j)
  {
    if k > 0 {
      ShiftedFurther(a / 2, b / 2, k - 1, j - 1);
    }
  }

  function Word(parts: seq<nat>): nat
    requires |parts| == 4
  {
    0x100_0000 * parts[0] + 0x1_0000 * parts[1] + 0x100 * parts[2] + parts[3]
  }

  /** `p.parse().unwrap_or(0)` on every part. */
  function Octet(part: string): byte {
    match ParseUnsigned(part, 255)
    case None => 0
    case Some(v) => if v < 256 then v else 0
  }

  function OctetsOf(parts: seq<string>): (r: seq<byte>)
    ensures |r| == |parts|
  {
    seq(|parts|, i requires 0 <= i < |parts| => Octet(parts[i]))
  }

  /** `ip_matches_subnet`. */
  predicate MatchesSubnet(ip: string, base: string, mask: nat) {
    mask == 0 ||
    var ipParts, baseParts := OctetsOf(Split(ip, '.')), OctetsOf(Split(base, '.'));
    && |ipParts| == 4 && |baseParts| == 4
    && var m := if mask >= 32 then 0xFFFF_FFFF else Ones(32, 32 - mask);
       And(Word(ipParts), m, 32) == And(Word(baseParts), m, 32)
  }

  /** `ip_in_range`. */
  predicate InRange(ip: string, range: string) {
    if '/' in range then
      var parts := Split(range, '/');
      |parts| == 2 &&
      match ParseUnsigned(parts[1], 0xFFFF_FFFF)
      case None => MatchesSubnet(ip, parts[0], 32)
      case Some(mask) => MatchesSubnet(ip, parts[0], mask)
    else ip == range
  }

  lemma Word32()
    ensures Pow2(32) == 0x1_0000_0000
  {
    assert Pow2(8) == 0x100;
    assert Pow2(16) == 0x1_0000;
    assert Pow2(24) == 0x100_0000;
  }

  lemma WordFits(parts: seq<byte>)
    requires |parts| == 4
    ensures Word(parts) < Pow2(32)
  {
    Word32();
  }

  function HostBits(mask: nat): nat {
    if mask >= 32 then 0 else 32 - mask
  }

  predicate FourParts(s: string) {
    |Split(s, '.')| == 4
  }

  function WordOf(s: string): nat
    requires FourParts(s)
  {
    Word(OctetsOf(Split(s, '.')))
  }

  /** The mask test is equality of the top bits, for every mask of at least one; a mask of zero matches any text. */
  lemma SubnetIsPrefix(ip: string, base: string, mask: nat)
    ensures MatchesSubnet(ip, base, mask) <==>
            mask == 0 ||
            (FourParts(ip) && FourParts(base) &&
             ShiftRight(WordOf(ip), HostBits(mask)) == ShiftRight(WordOf(base), HostBits(mask)))
  {
    if FourParts(ip) && FourParts(base) {
      WordFits(OctetsOf(Split(ip, '.')));
      WordFits(OctetsOf(Split(base, '.')));
      Word32();
      assert Ones(32, 0) == 0xFFFF_FFFF;
      MaskedIffShifted(WordOf(ip), WordOf(base), 32, HostBits(mask));
    }
  }

  lemma {:induction false} ShiftedOut(a: nat, k: nat)
    requires a < Pow2(k)
    ensures ShiftRight(a, k) == 0
  {
    if k > 0 { ShiftedOut(a / 2, k - 1); }
  }

  lemma SubnetOfFour(ip: string, base: string, mask: nat)
    requires FourParts(ip) && FourParts(base)
    ensures MatchesSubnet(ip, base, mask) <==>
            ShiftRight(WordOf(ip), HostBits(mask)) == ShiftRight(WordOf(base), HostBits(mask))
  {
    SubnetIsPrefix(ip, base, mask);
    if mask == 0 {
      WordFits(OctetsOf(Split(ip, '.')));
      WordFits(OctetsOf(Split(base, '.')));
      ShiftedOut(WordOf(ip), 32);
      ShiftedOut(WordOf(base), 32);
    }
  }

  /** A longer prefix of a base lies inside every shorter one. */
  lemma LongerPrefixIsInside(ip: string, base: string, shorter: nat, longer: nat)
    requires shorter <= longer && MatchesSubnet(ip, base, longer)
    ensures MatchesSubnet(ip, base, shorter)
  {
    if shorter > 0 {
      SubnetIsPrefix(ip, base, longer);
      SubnetIsPrefix(ip, base, shorter);
      ShiftedFurther(WordOf(ip), WordOf(base), HostBits(longer), HostBits(shorter));
    }
  }

  // ---------------------------------------------------------------- addresses as they are printed

  function ShowV4(a: byte, b: byte, c: byte, d: byte): string {
    Show(a) + "." + (Show(b) + "." + (Show(c) + "." + Show(d)))
  }

  lemma NoDots(n: nat)
    ensures '.' !in Show(n) && '/' !in Show(n)
  {
    ShowIsDecimal(n);
  }

  lemma SplitFour(p: string, q: string, r: string, s: string)
    requires '.' !in p && '.' !in q && '.' !in r && '.' !in s
    ensures Split(p + "." + (q + "." + (r + "." + s)), '.') == [p, q, r, s]
  {
    SplitLast(s, '.');
    SplitFirst(r, s, '.');
    SplitFirst(q, r + "." + s, '.');
    SplitFirst(p, q + "." + (r + "." + s), '.');
  }

  lemma SplitV4(a: byte, b: byte, c: byte, d: byte)
    ensures Split(ShowV4(a, b, c, d), '.') == [Show(a), Show(b), Show(c), Show(d)]
    ensures '/' !in ShowV4(a, b, c, d)
  {
    NoDots(a);
    NoDots(b);
    NoDots(c);
    NoDots(d);
    SplitFour(Show(a), Show(b), Show(c), Show(d));
  }

  /** A printed IPv4 address is read back octet by octet. */
  lemma ReadV4(a: byte, b: byte, c: byte, d: byte)
    ensures FourParts(ShowV4(a, b, c, d)) && WordOf(ShowV4(a, b, c, d)) == Word([a, b, c, d])
  {
    SplitV4(a, b, c, d);
    ParseShow(a, 255);
    ParseShow(b, 255);
    ParseShow(c, 255);
    ParseShow(d, 255);
  }

  lemma SlashRange(ip: string, base: string, mask: nat)
    requires '/' !in base && mask <= 0xFFFF_FFFF
    ensures InRange(ip, base + "/" + Show(mask)) <==> MatchesSubnet(ip, base, mask)
  {
    NoDots(mask);
    SplitFirst(base, Show(mask), '/');
    SplitLast(Show(mask), '/');
    ParseShow(mask, 0xFFFF_FFFF);
    assert (base + "/" + Show(mask))[|base|] == '/';
  }

  /**
   * On printed IPv4 addresses and printed masks the textual check is the prefix check: the top bits that the mask
   * names agree.
   */
  lemma PrintedRange(x: seq<byte>, y: seq<byte>, mask: nat)
    requires |x| == 4 && |y| == 4 && mask <= 0xFFFF_FFFF
    ensures InRange(ShowV4(x[0], x[1], x[2], x[3]), ShowV4(y[0], y[1], y[2], y[3]) + "/" + Show(mask)) <==>
            ShiftRight(Word(x), HostBits(mask)) == ShiftRight(Word(y), HostBits(mask))
  {
    var ip, base := ShowV4(x[0], x[1], x[2], x[3]), ShowV4(y[0], y[1], y[2], y[3]);
    ReadV4(x[0], x[1], x[2], x[3]);
    ReadV4(y[0], y[1], y[2], y[3]);
    assert [x[0], x[1], x[2], x[3]] == x && [y[0], y[1], y[2], y[3]] == y;
    SplitV4(y[0], y[1], y[2], y[3]);
    SlashRange(ip, base, mask);
    SubnetOfFour(ip, base, mask);
  }

  // ---------------------------------------------------------------- prefixes as numbers

  lemma Quotient(a: nat, d: nat, q: nat, r: nat)
    requires d > 0 && a == q * d + r && r < d
    ensures a / d == q
  {
    var k := a / d;
    assert a == k * d + a % d;
    if k < q { Larger(k, q, d); }
    if q < k { Larger(q, k, d); }
  }

  lemma Larger(k: nat, q: nat, d: nat)
    requires k < q
    ensures k * d + d <= q * d
  {
    var more := q - k - 1;
    assert q * d == (k + 1 + more) * d == k * d + d + more * d;
  }

  lemma HalfFirst(a: nat, m: nat)
    requires m > 0
    ensures a / 2 / m == a / (2 * m)
  {
    var q, r := a / 2 / m, a / 2 % m;
    assert a / 2 == q * m + r;
    Quotient(a, 2 * m, q, 2 * r + a % 2);
  }

  lemma {:induction false} ShiftIsDivision(a: nat, k: nat)
    ensures ShiftRight(a, k) == a / Pow2(k)
  {
    if k > 0 {
      ShiftIsDivision(a / 2, k - 1);
      HalfFirst(a, Pow2(k - 1));
    }
  }

  /** `w` is the number of the address, first octet highest. */
  predicate IsNumberOf(w: nat, x: seq<byte>) {
    |x| == 4 && w == 0x100_0000 * (x[0] as int) + 0x1_0000 * (x[1] as int) + 0x100 * (x[2] as int) + x[3]
  }

  /** The numbers of the two addresses agree when divided by two for every bit that the mask leaves open. */
  lemma PrintedPrefix(x: seq<byte>, y: seq<byte>, v: nat, w: nat, mask: nat)
    requires IsNumberOf(v, x) && IsNumberOf(w, y) && mask <= 0xFFFF_FFFF
    ensures InRange(ShowV4(x[0], x[1], x[2], x[3]), ShowV4(y[0], y[1], y[2], y[3]) + "/" + Show(mask)) <==>
            if mask >= 32 then v == w else v / Pow2(32 - mask) == w / Pow2(32 - mask)
  {
    PrintedRange(x, y, mask);
    assert v == Word(x) && w == Word(y);
    ShiftIsDivision(v, HostBits(mask));
    ShiftIsDivision(w, HostBits(mask));
  }

  // ---------------------------------------------------------------- ranges that are not well written

  lemma {:induction false} SplitCount(s: string, sep: char)
    ensures |Split(s, sep)| == multiset(s)[sep] + 1
  {
    if s != "" {
      SplitCount(s[1..], sep);
      assert s == [s[0]] + s[1..];
    }
  }

  /** A range with two slashes or more matches nothing. */
  lemma TooManySlashes(ip: string, range: string)
    requires multiset(range)['/'] >= 2
    ensures !InRange(ip, range)
  {
    SplitCount(range, '/');
  }

  /** Unless the mask is zero, only texts with exactly three dots match. */
  lemma ThreeDots(ip: string, base: string, mask: nat)
    requires mask > 0 && (multiset(ip)['.'] != 3 || multiset(base)['.'] != 3)
    ensures !MatchesSubnet(ip, base, mask)
  {
    SplitCount(ip, '.');
    SplitCount(base, '.');
  }

  predicate NotANumber(s: string) {
    s == "" || (s[0] != '+' && exists c <- s :: !IsDigit(c))
  }

  lemma {:induction false} DigitsOnly(s: string)
    requires exists c <- s :: !IsDigit(c)
    ensures Digits(s) == None
  {
    var n := |s| - 1;
    assert s == s[..n] + [s[n]];
    if IsDigit(s[n]) { DigitsOnly(s[..n]); }
  }

  lemma NotParsed(s: string, max: nat)
    requires NotANumber(s)
    ensures ParseUnsigned(s, max) == None
  {
    if s != "" { DigitsOnly(s); }
  }

  /** A mask that is not a number stands for all 32 bits. */
  lemma BadMask(ip: string, base: string, text: string)
    requires '/' !in base && '/' !in text && NotANumber(text)
    ensures InRange(ip, base + "/" + text) <==> MatchesSubnet(ip, base, 32)
  {
    SplitFirst(base, text, '/');
    SplitLast(text, '/');
    NotParsed(text, 0xFFFF_FFFF);
    assert (base + "/" + text)[|base|] == '/';
  }

  /** A part that is not a number, or not below 256, stands for zero. */
  lemma BadOctet(part: string, n: nat)
    ensures NotANumber(part) ==> Octet(part) == 0
    ensures part == Show(n) ==> Octet(part) == if n < 256 then n else 0
  {
    if NotANumber(part) { NotParsed(part, 255); }
    ShowIsDecimal(n);
    if part == Show(n) { assert IsDigit(part[0]); }
  }
}
