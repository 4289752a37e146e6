/** Octets, big-endian integers and the byte-level XOR used by the wire format. */
module Bytes {
  datatype Option<+T> = None | Some(value: T)

  type byte = x: int | 0 <= x < 256
  type u16 = x: int | 0 <= x < 0x1_0000
  type u32 = x: int | 0 <= x < 0x1_0000_0000
  type Octets = seq<byte>

  function U16At(d: Octets, i: nat): u16
    requires i + 2 <= |d|
  {
    256 * (d[i] as int) + d[i + 1]
  }

  /** A `usize as u16` cast: keeps the low sixteen bits. */
  function AsU16(n: nat): u16 {
    n % 0x1_0000
  }

  function PutU16(n: u16): (d: Octets)
    ensures |d| == 2 && U16At(d, 0) == n
  {
    [n / 256, n % 256]
  }

  function PutU32(n: u32): (d: Octets)
    ensures |d| == 4
  {
    [n / 0x100_0000, n / 0x1_0000 % 256, n / 256 % 256, n % 256]
  }

  function Zeros(n: nat): (d: Octets)
    ensures |d| == n
  {
    seq(n, _ => 0)
  }

  lemma SliceOfSlice<T>(s: seq<T>, a: nat, b: nat, i: nat, j: nat)
    requires a <= b <= |s| && i <= j <= b - a
    ensures s[a..b][i..j] == s[a + i..a + j]
  {
    assert s[a..b][i..] == s[a + i..b];
    assert s[a + i..b][..j - i] == s[a + i..a + j];
  }

  lemma DropOfSlice<T>(s: seq<T>, a: nat, b: nat, i: nat)
    requires a <= b <= |s| && i <= b - a
    ensures s[a..b][i..] == s[a + i..b]
  {
  }

  lemma Regroup<T>(a: seq<T>, b: seq<T>, c: seq<T>)
    ensures a + (b + c) == (a + b) + c
  {
  }

  /** The size and the keys of a map after an entry is put or removed. */
  lemma SizeAfter<K, V>(m: map<K, V>, k: K, v: V)
    ensures |m[k := v]| == if k in m then |m| else |m| + 1
    ensures |m - {k}| == if k in m then |m| - 1 else |m|
    ensures m[k := v].Keys == m.Keys + {k} && (m - {k}).Keys == m.Keys - {k}
  {
    assert m[k := v].Keys == m.Keys + {k};
    assert (m - {k}).Keys == m.Keys - {k};
    assert |m[k := v]| == |m[k := v].Keys| && |m - {k}| == |(m - {k}).Keys|;
  }

  /** `n` rounded up to a multiple of four: `(n + 3) & !3`. */
  function Pad4(n: nat): (p: nat)
    ensures n <= p < n + 4
  {
    (n + 3) / 4 * 4
  }

  /** Octets missing to the next multiple of four; PaddingAsWritten gives the source's `(4 - n % 4) % 4`. */
  function Padding(n: nat): (p: nat)
    ensures p < 4
  {
    if n == 0 then 0 else if n < 4 then 4 - n else Padding(n - 4)
  }

  lemma {:induction false} PaddingAsWritten(n: nat)
    ensures Padding(n) == (4 - n % 4) % 4
  {
    if n >= 4 { PaddingAsWritten(n - 4); }
  }

  lemma ModFour(n: nat, k: nat)
    ensures (n + 4 * k) % 4 == n % 4
  {
  }

  /** The padding is the same for a value, for its header and value, and for its truncated length. */
  lemma PaddingsAgree(n: nat)
    ensures Padding(n) == Padding(4 + n) == Padding(AsU16(n))
  {
    PaddingAsWritten(n);
    PaddingAsWritten(AsU16(n));
    ModFour(AsU16(n), 0x4000 * (n / 0x1_0000));
  }

  lemma PadIsPadding(n: nat)
    ensures Pad4(n) == n + Padding(n)
  {
    PaddingAsWritten(n);
  }

  // ---------------------------------------------------------------- XOR

  /** The exclusive or of the low `n` bits of `a` and `b`, bit by bit. */
  function XorBits(a: nat, b: nat, n: nat): (x: nat)
    ensures n == 0 ==> x == 0
  {
    if n == 0 then 0 else 2 * XorBits(a / 2, b / 2, n - 1) + if a % 2 == b % 2 then 0 else 1
  }

  function Pow2(n: nat): (p: nat)
    ensures p > 0
  {
    if n == 0 then 1 else 2 * Pow2(n - 1)
  }

  lemma {:induction false} XorBitsBound(a: nat, b: nat, n: nat)
    ensures XorBits(a, b, n) < Pow2(n)
  {
    if n > 0 { XorBitsBound(a / 2, b / 2, n - 1); }
  }

  lemma {:induction false} XorBitsCancels(a: nat, b: nat, n: nat)
    requires a < Pow2(n)
    ensures XorBits(XorBits(a, b, n), b, n) == a
  {
    if n > 0 {
      var x, y := XorBits(a, b, n), XorBits(a / 2, b / 2, n - 1);
      XorBitsCancels(a / 2, b / 2, n - 1);
      assert x / 2 == y && (x % 2 == b % 2 <==> a % 2 == 0);
    }
  }

  function Xor(a: byte, b: byte): (x: byte) {
    XorBitsBound(a, b, 8);
    assert Pow2(8) == 256;
    XorBits(a, b, 8)
  }

  /** XOR with the same key twice is the identity. */
  lemma XorCancels(a: byte, k: byte)
    ensures Xor(Xor(a, k), k) == a
  {
    assert Pow2(8) == 256;
    XorBitsCancels(a, k, 8);
  }

  lemma BvRoundTrip(x: bv8)
    ensures (x as int) as bv8 == x
  {
  }
}
