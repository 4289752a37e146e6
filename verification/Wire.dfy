/**
 * What is on the wire, octet by octet and number by number: the layouts that src/message.rs and src/server.rs share
 * with every client, stated without the functions that encode and decode them.
 */
module Wire {
  import opened Bytes
  import BitWord
  import opened Codec
  import opened Integrity

  // ---------------------------------------------------------------- exclusive or

  lemma XorLast(a: nat, b: nat, n: nat) returns (x: nat, last: nat)
    requires n > 0
    ensures x == XorBits(a / 2, b / 2, n - 1) && XorBits(a, b, n) == 2 * x + last
    ensures last == if a % 2 == b % 2 then 0 else 1
  {
    x, last := XorBits(a / 2, b / 2, n - 1), if a % 2 == b % 2 then 0 else 1;
  }

  lemma BitOfDouble(x: nat, last: nat, k: nat)
    requires last < 2
    ensures BitWord.Bit(2 * x + last, k) <==> if k == 0 then last == 1 else BitWord.Bit(x, k - 1)
  {
    assert (2 * x + last) / 2 == x;
  }

  lemma {:induction false} XorBitsAt(a: nat, b: nat, n: nat, k: nat)
    requires k < n
    ensures BitWord.Bit(XorBits(a, b, n), k) <==> BitWord.Bit(a, k) != BitWord.Bit(b, k)
  {
    var x, last := XorLast(a, b, n);
    BitOfDouble(x, last, k);
    if k > 0 { XorBitsAt(a / 2, b / 2, n - 1, k - 1); }
  }

  /** Each of the eight bits is set exactly when the two bits differ. */
  lemma XorIsExclusiveOr(a: byte, b: byte, k: nat)
    requires k < 8
    ensures BitWord.Bit(Xor(a, b), k) <==> BitWord.Bit(a, k) != BitWord.Bit(b, k)
  {
    XorBitsAt(a, b, 8, k);
  }

  /** One where the last bits differ. */
  function Differ(a: nat, b: nat): nat {
    if a % 2 == b % 2 then 0 else 1
  }

  lemma XorTwo(a: nat, b: nat, n: nat, a1: nat, b1: nat, a2: nat, b2: nat)
    requires n >= 2 && a1 == a / 2 && b1 == b / 2 && a2 == a1 / 2 && b2 == b1 / 2
    ensures XorBits(a, b, n) == Differ(a, b) + 2 * Differ(a1, b1) + 4 * XorBits(a2, b2, n - 2)
  {
    var x, d0 := XorLast(a, b, n);
    var y, d1 := XorLast(a1, b1, n - 1);
  }

  lemma Halves(a: byte)
    ensures a / 4 == a / 2 / 2 && a / 8 == a / 4 / 2 && a / 16 == a / 8 / 2 && a / 32 == a / 16 / 2
    ensures a / 64 == a / 32 / 2 && a / 128 == a / 64 / 2 && a / 128 / 2 == 0
  {
  }

  /** The same as one sum over the eight bits. */
  lemma XorByBits(a: byte, b: byte, x: byte)
    requires x == Differ(a, b) + 2 * Differ(a / 2, b / 2) + 4 * Differ(a / 4, b / 4) + 8 * Differ(a / 8, b / 8)
                  + 16 * Differ(a / 16, b / 16) + 32 * Differ(a / 32, b / 32) + 64 * Differ(a / 64, b / 64)
                  + 128 * Differ(a / 128, b / 128)
    ensures Xor(a, b) == x
  {
    Halves(a);
    Halves(b);
    XorTwo(a, b, 8, a / 2, b / 2, a / 4, b / 4);
    XorTwo(a / 4, b / 4, 6, a / 8, b / 8, a / 16, b / 16);
    XorTwo(a / 16, b / 16, 4, a / 32, b / 32, a / 64, b / 64);
    XorTwo(a / 64, b / 64, 2, a / 128, b / 128, 0, 0);
  }

  // ---------------------------------------------------------------- headers

  function MethodNumber(kind: Method): byte {
    match kind
    case Binding => 1
    case Allocate => 3
    case Refresh => 4
    case Send => 6
    case Data => 7
    case CreatePermission => 8
    case ChannelBind => 9
  }

  /** The two octets of the type field: the upper class bit is in the first, the lower one is the bit of value 16. */
  function TypeOctets(kind: Method, e: EventType): Octets {
    match e
    case Request => [0, MethodNumber(kind)]
    case Indication => [0, 16 + MethodNumber(kind)]
    case Success => [1, MethodNumber(kind)]
    case Error => [1, 16 + MethodNumber(kind)]
  }

  lemma TypeOnWire(kind: Method, e: EventType)
    ensures PutType(EncodeType(MethodValue(kind), ClassValue(e))) == TypeOctets(kind, e)
  {
    match e
    case Request => RequestType(kind);
    case Indication => IndicationType(kind);
    case Success => SuccessType(kind);
    case Error => ErrorType(kind);
  }

  lemma RequestType(kind: Method)
    ensures PutType(EncodeType(MethodValue(kind), 0)) == [0, MethodNumber(kind)]
  {
    match kind { case Binding => case Allocate => case Refresh => case Send => case _ => }
  }

  lemma IndicationType(kind: Method)
    ensures PutType(EncodeType(MethodValue(kind), 1)) == [0, 16 + MethodNumber(kind)]
  {
    match kind { case Binding => case Allocate => case Refresh => case Send => case _ => }
  }

  lemma SuccessType(kind: Method)
    ensures PutType(EncodeType(MethodValue(kind), 2)) == [1, MethodNumber(kind)]
  {
    match kind { case Binding => case Allocate => case Refresh => case Send => case _ => }
  }

  lemma ErrorType(kind: Method)
    ensures PutType(EncodeType(MethodValue(kind), 3)) == [1, 16 + MethodNumber(kind)]
  {
    match kind { case Binding => case Allocate => case Refresh => case Send => case _ => }
  }

  function BigEndian(n: u16): Octets {
    [n / 256, n % 256]
  }

  /** Section 6 of RFC 5389: type, length, cookie, transaction. */
  function HeaderOctets(kind: Method, e: EventType, length: u16, tid: TransactionId): (d: Octets)
    ensures |d| == 20
  {
    TypeOctets(kind, e) + BigEndian(length) + [0x21, 0x12, 0xA4, 0x42] + tid
  }

  lemma HeaderOnWire(h: Header)
    ensures EncodeHeader(h) == HeaderOctets(h.kind, h.eventType, h.length, h.transactionId)
  {
    TypeOnWire(h.kind, h.eventType);
  }

  lemma TypeMasked(t: bv16)
    ensures EncodeType(TypeMethod(t), TypeClass(t)) == t & 0x3FFF
  {
  }

  lemma PutMasked(b0: bv8, b1: bv8)
    ensures ((((((b0 as bv16) << 8) | (b1 as bv16)) & 0x3FFF) >> 8) as bv8) == b0 & 0x3F
    ensures (((((b0 as bv16) << 8) | (b1 as bv16)) & 0x3FFF) & 0xFF) as bv8 == b1
  {
  }

  lemma MethodOfValue(v: bv16)
    ensures MethodOf(v).Some? ==> MethodValue(MethodOf(v).value) == v
    ensures ClassOf(v).Some? ==> ClassValue(ClassOf(v).value) == v
  {
  }

  lemma TypeParsed(d: Octets, h: Header)
    requires |d| >= 20 && HasCookie(d) && ParseHeader(d) == Some(h)
    ensures HeaderType(h) == TypeAt(d) & 0x3FFF && h.length == U16At(d, 2) && h.transactionId == d[8..20]
  {
    var t := TypeAt(d);
    MethodOfValue(TypeMethod(t));
    MethodOfValue(TypeClass(t));
    TypeMasked(t);
  }

  lemma MaskedOctets(d: Octets)
    requires |d| >= 2
    ensures var p := PutType(TypeAt(d) & 0x3FFF); p[0] as bv8 == (d[0] as bv8) & 0x3F && p[1] as bv8 == d[1] as bv8
  {
    var t := TypeAt(d) & 0x3FFF;
    PutMasked(d[0] as bv8, d[1] as bv8);
    BvRoundTrip((t >> 8) as bv8);
    BvRoundTrip((t & 0xFF) as bv8);
  }

  lemma SameU16(d: Octets, e: Octets)
    requires |d| >= 4 && |e| >= 4 && U16At(d, 2) == U16At(e, 2)
    ensures d[2..4] == e[2..4]
  {
    assert d[2] == e[2] && d[3] == e[3];
  }

  /** A header with the cookie is accepted only as the encoding of what it is read as, the two top bits apart. */
  lemma ParsedIsEncoded(d: Octets, h: Header)
    requires |d| >= 20 && d[4..8] == [0x21, 0x12, 0xA4, 0x42] && ParseHeader(d) == Some(h)
    ensures var e := EncodeHeader(h);
            && e[0] as bv8 == (d[0] as bv8) & 0x3F && e[1] as bv8 == d[1] as bv8
            && e[2..4] == d[2..4] && e[8..] == d[8..20]
  {
    TypeParsed(d, h);
    MaskedOctets(d);
    var e := EncodeHeader(h);
    HeaderLayout(h, []);
    assert e + [] == e;
    assert e[0] == e[..2][0] && e[1] == e[..2][1];
    SameU16(d, e);
    assert e[8..] == e[8..20];
  }

  /** Without the cookie the class bits are taken the other way round and the transaction starts at the fifth octet. */
  lemma OldHeaderRead(kind: Method, e: EventType, length: u16, tid: TransactionId, rest: Octets)
    requires |rest| >= 4 && tid[..4] != [0x21, 0x12, 0xA4, 0x42]
    ensures var first: byte := if e.Indication? || e.Error? then 1 else 0;
            var second: byte := MethodNumber(kind) + if e.Success? || e.Error? then 16 else 0;
            ParseHeader([first, second] + BigEndian(length) + tid + rest) == Some(Header(kind, e, length, tid))
  {
    var first: byte := if e.Indication? || e.Error? then 1 else 0;
    var second: byte := MethodNumber(kind) + if e.Success? || e.Error? then 16 else 0;
    var d := [first, second] + BigEndian(length) + tid + rest;
    OldLayout(first, second, length, tid, rest);
    OldType(kind, e);
  }

  lemma OldLayout(first: byte, second: byte, length: u16, tid: TransactionId, rest: Octets)
    requires |rest| >= 4
    ensures var d := [first, second] + BigEndian(length) + tid + rest;
            && |d| >= 20 && d[0] == first && d[1] == second && U16At(d, 2) == length
            && d[4..8] == tid[..4] && d[4..16] == tid
  {
    var d := [first, second] + BigEndian(length) + tid + rest;
    assert d[2] == length / 256 && d[3] == length % 256;
  }

  lemma OldType(kind: Method, e: EventType)
    ensures var first: byte := if e.Indication? || e.Error? then 1 else 0;
            var second: byte := MethodNumber(kind) + if e.Success? || e.Error? then 16 else 0;
            var b0, b1 := (first as bv8) as bv16, (second as bv8) as bv16;
            && MethodOf(((b0 & 0x3E) << 7) | (b1 & 0x0F)) == Some(kind)
            && ClassOf((b0 & 0x01) | ((b1 & 0x10) >> 3)) == Some(e)
  {
    match kind { case Binding => case Allocate => case Refresh => case Send => case _ => }
  }

  // ---------------------------------------------------------------- attributes and messages

  function PaddingOf(n: nat): nat {
    (4 - n % 4) % 4
  }

  /** Section 15 of RFC 5389: type, length, value, and zeros up to a multiple of four. */
  function AttributeOctets(t: u16, value: Octets): Octets
    requires |value| < 0x1_0000
  {
    BigEndian(t) + BigEndian(|value|) + value + Zeros(PaddingOf(|value|))
  }

  lemma AttributeOnWire(a: Attribute)
    requires |a.value| < 0x1_0000
    ensures EncodeAttribute(a) == AttributeOctets(a.attrType, a.value)
  {
    NotCut(|a.value|);
    PaddingAsWritten(|a.value|);
  }

  lemma NotCut(n: nat)
    requires n < 0x1_0000
    ensures AsU16(n) == n && PutU16(n) == BigEndian(n)
  {
  }

  /** Every attribute takes whole words, so the next one starts at a multiple of four. */
  lemma AttributeIsAligned(a: Attribute)
    ensures |EncodeAttribute(a)| % 4 == 0
  {
    EncodedSize(a);
    PadIsPadding(4 + |a.value|);
    WholeWords(4 + |a.value|);
  }

  lemma WholeWords(n: nat)
    ensures Pad4(n) % 4 == 0
  {
  }

  predicate AllFit(attrs: seq<Attribute>) {
    forall a <- attrs :: |a.value| < 0x1_0000
  }

  /** Whatever follows encoded attributes is all that is left to decide about. */
  lemma {:induction false} ScanWithTail(attrs: seq<Attribute>, tail: Octets)
    requires AllFit(attrs)
    ensures ScanAttributes(EncodeAttributes(attrs) + tail) == Prepend(attrs, ScanAttributes(tail))
  {
    if attrs == [] {
      assert EncodeAttributes(attrs) + tail == tail;
      PrependIdentities([], Attribute(0, []), ScanAttributes(tail));
    } else {
      var a, rest := attrs[0], EncodeAttributes(attrs[1..]);
      Regroup(EncodeAttribute(a), rest, tail);
      EncodedSize(a);
      DecodeEncoded(a, rest + tail);
      assert (EncodeAttribute(a) + (rest + tail))[WireSize(a)..] == rest + tail;
      ScanWithTail(attrs[1..], tail);
      PrependOne(a, attrs[1..], ScanAttributes(tail));
      assert [a] + attrs[1..] == attrs;
    }
  }

  lemma PrependOne(a: Attribute, more: seq<Attribute>, r: Option<Scan>)
    ensures Prepend([a], Prepend(more, r)) == Prepend([a] + more, r)
  {
    if r.Some? { Regroup([a], more, r.value.attributes); }
  }

  /** What a body that does not end with a whole attribute is good for. */
  datatype Ending = Whole | Ignored | Broken

  /** A last attribute longer than the body is ignored; a stump, or one whose padding is cut, breaks the message. */
  function EndingOf(tail: Octets): Ending {
    if tail == [] then Whole
    else if |tail| < 4 then Broken
    else if 256 * (tail[2] as int) + tail[3] > |tail| - 4 then Ignored
    else Broken
  }

  /** The tail is less than one attribute with its padding. */
  predicate LessThanOne(tail: Octets) {
    |tail| >= 4 ==> var n: nat := 256 * (tail[2] as int) + tail[3]; 4 + n + PaddingOf(n) > |tail|
  }

  lemma TailScanned(tail: Octets)
    requires LessThanOne(tail)
    ensures ScanAttributes(tail) == match EndingOf(tail)
                                    case Whole => Some(Scan([], 0))
                                    case Ignored => Some(Scan([], |tail|))
                                    case Broken => None
  {
    if |tail| >= 4 {
      var n: nat := 256 * (tail[2] as int) + tail[3];
      PaddingAsWritten(n);
      PaddingsAgree(n);
    }
  }

  /**
   * A datagram that declares attributes and a tail of less than one: the attributes are read when the tail is ignored,
   * and nothing is when it is broken. Octets behind the declared length do not matter.
   */
  lemma ParseWithTail(h: Header, attrs: seq<Attribute>, tail: Octets, more: Octets)
    requires AllFit(attrs) && LessThanOne(tail) && |EncodeAttributes(attrs) + tail| == h.length
    ensures ParseMessage(EncodeHeader(h) + (EncodeAttributes(attrs) + tail) + more) ==
            if EndingOf(tail).Broken? then None else Some(Message(h, attrs))
  {
    var body := EncodeAttributes(attrs) + tail;
    var d := EncodeHeader(h) + body + more;
    Regroup(EncodeHeader(h), body, more);
    HeaderRoundTrip(h, body + more);
    assert Body(d, h) == body;
    ScanWithTail(attrs, tail);
    TailScanned(tail);
    assert attrs + [] == attrs;
  }

  /** A datagram shorter than its header says is not a message. */
  lemma CutShort(h: Header, rest: Octets)
    requires |rest| < h.length
    ensures ParseMessage(EncodeHeader(h) + rest) == None
  {
    HeaderRoundTrip(h, rest);
  }

  // ---------------------------------------------------------------- addresses

  /** Bit by bit, the six octets of an IPv4 address and port differ from the plain ones where the cookie has ones. */
  lemma XorAddressBits(addr: SocketAddr, i: nat, k: nat)
    requires addr.ip.V4? && i < 6 && k < 8
    ensures var ip := addr.ip;
            var plain: Octets := [addr.port / 256, addr.port % 256, ip.a, ip.b, ip.c, ip.d];
            var key: Octets := [0x21, 0x12, 0x21, 0x12, 0xA4, 0x42];
            var s := EncodeXorAddress(addr);
            && |s| == 8 && s[0] == 0 && s[1] == 1
            && (BitWord.Bit(s[2 + i], k) <==> BitWord.Bit(plain[i], k) != BitWord.Bit(key[i], k))
  {
    var ip := addr.ip;
    var plain: Octets := [addr.port / 256, addr.port % 256, ip.a, ip.b, ip.c, ip.d];
    var key: Octets := [0x21, 0x12, 0x21, 0x12, 0xA4, 0x42];
    XorIsExclusiveOr(plain[i], key[i], k);
  }

  /** The address in the sample response of section 2.2 of RFC 5769: 192.0.2.1, port 32853. */
  lemma SampleAddress(addr: SocketAddr, s: Octets)
    requires addr.ip.V4? && addr.ip.a == 192 && addr.ip.b == 0 && addr.ip.c == 2 && addr.ip.d == 1 && addr.port == 32853
    requires s == [0x00, 0x01, 0xA1, 0x47, 0xE1, 0x12, 0xA6, 0x43]
    ensures EncodeXorAddress(addr) == s && DecodeXorAddress(s) == Some(addr)
  {
    SampleOctets(addr.port, addr.ip.a, addr.ip.b, addr.ip.c, addr.ip.d);
    XorAddressRoundTrip(addr);
    var e := EncodeXorAddress(addr);
    assert e[0] == s[0] && e[1] == s[1] && e[2] == s[2] && e[3] == s[3];
    assert e[4] == s[4] && e[5] == s[5] && e[6] == s[6] && e[7] == s[7];
    assert e == s;
  }

  lemma SampleOctets(port: u16, a: byte, b: byte, c: byte, d: byte)
    requires port == 32853 && a == 192 && b == 0 && c == 2 && d == 1
    ensures Xor(port / 256, 0x21) == 0xA1 && Xor(port % 256, 0x12) == 0x47
    ensures Xor(a, 0x21) == 0xE1 && Xor(b, 0x12) == 0x12 && Xor(c, 0xA4) == 0xA6 && Xor(d, 0x42) == 0x43
  {
    XorByBits(port / 256, 0x21, 0xA1);
    XorByBits(port % 256, 0x12, 0x47);
    XorByBits(a, 0x21, 0xE1);
    XorByBits(b, 0x12, 0x12);
    XorByBits(c, 0xA4, 0xA6);
    XorByBits(d, 0x42, 0x43);
  }

  // ---------------------------------------------------------------- MESSAGE-INTEGRITY

  predicate NoIntegrity(attrs: seq<Attribute>) {
    forall a <- attrs :: a.attrType != 0x0008
  }

  /** A message of which the last attribute has 20 octets, on the wire: everything before that attribute, and it. */
  lemma LastOnWire(h: Header, attrs: seq<Attribute>, value: Octets)
    requires |value| == 20 && |EncodeAttributes(attrs)| + 24 < 0x1_0000
    ensures var w := EncodeMessage(Message(h, attrs + [Attribute(0x0008, value)]));
            && |w| == 44 + |EncodeAttributes(attrs)|
            && w[..|w| - 24] == HeaderOctets(h.kind, h.eventType, |EncodeAttributes(attrs)| + 24, h.transactionId)
                                + EncodeAttributes(attrs)
            && w[|w| - 24..] == [0x00, 0x08, 0x00, 0x14] + value
  {
    var a, body := Attribute(0x0008, value), EncodeAttributes(attrs);
    EncodeAttributesAppend(attrs, [a]);
    LastAttribute(value);
    var n := |body| + 24;
    NotCut(n);
    HeaderOnWire(h.(length := n));
    SplitLast(EncodeHeader(h.(length := n)), body, EncodeAttribute(a));
  }

  lemma SplitLast(head: Octets, body: Octets, last: Octets)
    requires |last| == 24
    ensures var w := head + (body + last); w[..|w| - 24] == head + body && w[|w| - 24..] == last
  {
    Regroup(head, body, last);
  }

  lemma LastAttribute(value: Octets)
    requires |value| == 20
    ensures EncodeAttribute(Attribute(0x0008, value)) == [0x00, 0x08, 0x00, 0x14] + value
    ensures EncodeAttributes([Attribute(0x0008, value)]) == [0x00, 0x08, 0x00, 0x14] + value
  {
    var a := Attribute(0x0008, value);
    AttributeOnWire(a);
    assert Zeros(PaddingOf(20)) == [];
    assert EncodeAttribute(a) == [0x00, 0x08, 0x00, 0x14] + value;
    assert [a][1..] == [] && EncodeAttributes([a]) == EncodeAttribute(a) + [];
  }

  /**
   * Section 15.4 of RFC 5389: the server signs the octets that stand on the wire before MESSAGE-INTEGRITY, with the
   * length field as it is on the wire.
   */
  lemma SignatureCoversWire(hmac: Hmac, key: Octets, m: Message)
    requires |EncodeAttributes(m.attributes)| + 24 < 0x1_0000
    ensures var w := EncodeMessage(Sign(hmac, key, m));
            && |w| == 44 + |EncodeAttributes(m.attributes)|
            && w[|w| - 24..] == [0x00, 0x08, 0x00, 0x14] + hmac(key, w[..|w| - 24])
  {
    var mac := hmac(key, MacInput(m.header, m.attributes));
    LastOnWire(m.header, m.attributes, mac);
    MacInputOnWire(m.header, m.attributes);
  }

  lemma MacInputOnWire(h: Header, attrs: seq<Attribute>)
    requires |EncodeAttributes(attrs)| + 24 < 0x1_0000
    ensures MacInput(h, attrs) ==
            HeaderOctets(h.kind, h.eventType, |EncodeAttributes(attrs)| + 24, h.transactionId) + EncodeAttributes(attrs)
  {
    NotCut(|EncodeAttributes(attrs)| + 24);
    HeaderOnWire(h.(length := |EncodeAttributes(attrs)| + 24));
  }

  /**
   * And it checks the octets before the first MESSAGE-INTEGRITY in the message cut after it: a value of 20 octets is
   * accepted exactly when it is their MAC, whatever attributes follow and whatever length was received.
   */
  lemma VerdictOnWire(hmac: Hmac, key: Octets, h: Header, before: seq<Attribute>, value: Octets, rest: seq<Attribute>)
    requires NoIntegrity(before) && |value| == 20 && |EncodeAttributes(before)| + 24 < 0x1_0000
    ensures var w := EncodeMessage(Message(h, before + [Attribute(0x0008, value)]));
            |w| >= 24 && Verify(hmac, key, Message(h, before + [Attribute(0x0008, value)] + rest)) ==
            if hmac(key, w[..|w| - 24]) == value then Verified else Refused
  {
    FirstIntegrity(before, Attribute(0x0008, value), rest);
    LastOnWire(h, before, value);
    MacInputOnWire(h, before);
    assert value[..20] == value;
  }

  /** Of a longer value the first 20 octets count, a shorter one makes the handler panic, and none is a refusal. */
  lemma VerdictByLength(hmac: Hmac, key: Octets, h: Header, before: seq<Attribute>, value: Octets, rest: seq<Attribute>)
    requires NoIntegrity(before)
    ensures var verdict := Verify(hmac, key, Message(h, before + [Attribute(0x0008, value)] + rest));
            if |value| < 20 then verdict == Panics
            else verdict == Verify(hmac, key, Message(h, before + [Attribute(0x0008, value[..20])] + rest))
    ensures Verify(hmac, key, Message(h, before)) == Refused
  {
    FirstIntegrity(before, Attribute(0x0008, value), rest);
    if |value| >= 20 {
      FirstIntegrity(before, Attribute(0x0008, value[..20]), rest);
      assert value[..20][..20] == value[..20];
    }
    NoneFound(before, 0x0008);
  }

  lemma {:induction false} NoneFound(attrs: seq<Attribute>, t: u16)
    requires forall a <- attrs :: a.attrType != t
    ensures FindAttribute(attrs, t) == None
  {
    if attrs != [] { NoneFound(attrs[1..], t); }
  }

  /** `get_attribute` finds the first of its type. */
  lemma {:induction false} FirstFound(before: seq<Attribute>, a: Attribute, rest: seq<Attribute>)
    requires forall b <- before :: b.attrType != a.attrType
    ensures FindAttribute(before + [a] + rest, a.attrType) == Some(a)
  {
    var all := before + [a] + rest;
    if before != [] {
      assert all[0] == before[0] && all[1..] == before[1..] + [a] + rest;
      FirstFound(before[1..], a, rest);
    }
  }
}
