/**
 * The STUN/TURN wire codec of src/message.rs: the bit-interleaved message type,
 * TLV attributes padded to four octets, XOR addresses and whole messages.
 */
module Codec {
  import opened Bytes

  datatype Method = Binding | Allocate | Refresh | Send | Data | CreatePermission | ChannelBind
  datatype EventType = Request | Indication | Success | Error

  type TransactionId = t: Octets | |t| == 12 witness Zeros(12)

  const MAGIC_COOKIE: Octets := [0x21, 0x12, 0xA4, 0x42]

  /** The header without its cookie: every writer in the repository sets the cookie to the constant. */
  datatype Header = Header(kind: Method, eventType: EventType, length: u16, transactionId: TransactionId)
  datatype Attribute = Attribute(attrType: u16, value: Octets)
  datatype Message = Message(header: Header, attributes: seq<Attribute>)

  const USERNAME: u16 := 0x0006
  const MESSAGE_INTEGRITY: u16 := 0x0008
  const CHANNEL_NUMBER: u16 := 0x000C
  const LIFETIME: u16 := 0x000D
  const PEER_ADDRESS: u16 := 0x0012
  const DATA: u16 := 0x0013
  const NONCE: u16 := 0x0015
  const XOR_MAPPED_ADDRESS: u16 := 0x0020

  // ---------------------------------------------------------------- message type

  function MethodValue(m: Method): bv16 {
    match m
    case Binding => 0x0001
    case Allocate => 0x0003
    case Refresh => 0x0004
    case Send => 0x0006
    case Data => 0x0007
    case CreatePermission => 0x0008
    case ChannelBind => 0x0009
  }

  function MethodOf(v: bv16): Option<Method> {
    if v == 0x0001 then Some(Binding)
    else if v == 0x0003 then Some(Allocate)
    else if v == 0x0004 then Some(Refresh)
    else if v == 0x0006 then Some(Send)
    else if v == 0x0007 then Some(Data)
    else if v == 0x0008 then Some(CreatePermission)
    else if v == 0x0009 then Some(ChannelBind)
    else None
  }

  function ClassValue(e: EventType): bv16 {
    match e
    case Request => 0
    case Indication => 1
    case Success => 2
    case Error => 3
  }

  function ClassOf(v: bv16): Option<EventType> {
    if v == 0 then Some(Request)
    else if v == 1 then Some(Indication)
    else if v == 2 then Some(Success)
    else if v == 3 then Some(Error)
    else None
  }

  /** Spreads the twelve method bits around the two class bits. */
  function EncodeType(m: bv16, c: bv16): bv16 {
    (m & 0x000F) + ((m & 0x0070) << 1) + ((m & 0x0F80) << 2)
    + ((c & 1) << 4) + ((c & 2) << 7)
  }

  function TypeMethod(v: bv16): bv16 {
    (v & 0x000F) | ((v >> 1) & 0x0070) | ((v >> 2) & 0x0F80)
  }

  function TypeClass(v: bv16): bv16 {
    ((v >> 4) & 1) | ((v >> 7) & 2)
  }

  /** Section 6 of RFC 5389: the type field loses nothing and keeps its two top bits clear. */
  lemma TypeRoundTrip(m: bv16, c: bv16)
    requires m < 0x1000 && c < 4
    ensures TypeMethod(EncodeType(m, c)) == m
    ensures TypeClass(EncodeType(m, c)) == c
    ensures EncodeType(m, c) < 0x4000
  {
  }

  function PutType(t: bv16): (d: Octets)
    ensures |d| == 2
  {
    [((t >> 8) as bv8) as int, ((t & 0xFF) as bv8) as int]
  }

  function TypeAt(d: Octets): bv16
    requires |d| >= 2
  {
    (((d[0] as bv8) as bv16) << 8) | ((d[1] as bv8) as bv16)
  }

  lemma JoinSplit(t: bv16)
    ensures ((((t >> 8) as bv8) as bv16) << 8) | (((t & 0xFF) as bv8) as bv16) == t
  {
  }

  lemma PutTypeAt(t: bv16)
    ensures TypeAt(PutType(t)) == t
  {
    BvRoundTrip((t >> 8) as bv8);
    BvRoundTrip((t & 0xFF) as bv8);
    JoinSplit(t);
  }

  lemma HighByteSmall(t: bv16)
    requires t < 0x4000
    ensures (t >> 8) as bv8 < 0x40
  {
  }

  lemma SmallAsInt(x: bv8)
    requires x < 0x40
    ensures x as int < 0x40
  {
  }

  /** A STUN type field is never in the ChannelData range 0x4000..0x7FFF. */
  lemma PutTypeBelowChannels(t: bv16)
    requires t < 0x4000
    ensures U16At(PutType(t), 0) < 0x4000
  {
    HighByteSmall(t);
    SmallAsInt((t >> 8) as bv8);
  }

  function HeaderType(h: Header): bv16 {
    EncodeType(MethodValue(h.kind), ClassValue(h.eventType))
  }

  lemma MethodClassRoundTrip(m: Method, e: EventType)
    ensures MethodValue(m) < 0x1000 && ClassValue(e) < 4
    ensures MethodOf(MethodValue(m)) == Some(m) && ClassOf(ClassValue(e)) == Some(e)
  {
  }

  // ---------------------------------------------------------------- header

  function EncodeHeader(h: Header): (d: Octets)
    ensures |d| == 20
  {
    PutType(HeaderType(h)) + PutU16(h.length) + MAGIC_COOKIE + h.transactionId
  }

  function HeaderFrom(m: bv16, c: bv16, length: u16, tid: TransactionId): Option<Header> {
    match (MethodOf(m), ClassOf(c))
    case (Some(kind), Some(eventType)) => Some(Header(kind, eventType, length, tid))
    case _ => None
  }

  predicate HasCookie(d: Octets)
    requires |d| >= 20
  {
    d[4..8] == MAGIC_COOKIE
  }

  /** `MessageHeader::parse`: the RFC 5389 layout when the cookie is present, the RFC 3489 layout otherwise. */
  function ParseHeader(d: Octets): Option<Header> {
    if |d| < 20 then None
    else if HasCookie(d) then
      HeaderFrom(TypeMethod(TypeAt(d)), TypeClass(TypeAt(d)), U16At(d, 2), d[8..20])
    else
      var b0, b1 := (d[0] as bv8) as bv16, (d[1] as bv8) as bv16;
      HeaderFrom(((b0 & 0x3E) << 7) | (b1 & 0x0F), (b0 & 0x01) | ((b1 & 0x10) >> 3), U16At(d, 2), d[4..16])
  }

  lemma HeaderLayout(h: Header, rest: Octets)
    ensures var d := EncodeHeader(h) + rest;
            && d[..2] == PutType(HeaderType(h))
            && U16At(d, 2) == h.length
            && HasCookie(d)
            && d[8..20] == h.transactionId
  {
    var d := EncodeHeader(h) + rest;
    assert d[..2] == PutType(HeaderType(h));
    assert d[2] == PutU16(h.length)[0] && d[3] == PutU16(h.length)[1];
    assert d[4..8] == MAGIC_COOKIE;
    assert d[8..20] == h.transactionId;
  }

  /** Decoding the type field gives back the method and the class. */
  lemma HeaderTypeRoundTrip(h: Header)
    ensures HeaderFrom(TypeMethod(HeaderType(h)), TypeClass(HeaderType(h)), h.length, h.transactionId) == Some(h)
    ensures HeaderType(h) < 0x4000
  {
    MethodClassRoundTrip(h.kind, h.eventType);
    TypeRoundTrip(MethodValue(h.kind), ClassValue(h.eventType));
  }

  lemma TypeAtLocal(d: Octets)
    requires |d| >= 2
    ensures TypeAt(d) == TypeAt(d[..2]) && U16At(d, 0) == U16At(d[..2], 0)
  {
  }

  lemma HeaderRoundTrip(h: Header, rest: Octets)
    ensures ParseHeader(EncodeHeader(h) + rest) == Some(h)
    ensures HasCookie(EncodeHeader(h) + rest)
    ensures U16At(EncodeHeader(h) + rest, 0) < 0x4000
  {
    HeaderLayout(h, rest);
    TypeAtLocal(EncodeHeader(h) + rest);
    HeaderTypeRoundTrip(h);
    PutTypeAt(HeaderType(h));
    PutTypeBelowChannels(HeaderType(h));
  }

  // ---------------------------------------------------------------- attributes

  /** The length is truncated to sixteen bits before the padding is taken from it. */
  function EncodeAttribute(a: Attribute): Octets {
    var len := AsU16(|a.value|);
    PutU16(a.attrType) + PutU16(len) + a.value + Zeros(Padding(len))
  }

  function EncodeAttributes(attrs: seq<Attribute>): Octets {
    if attrs == [] then [] else EncodeAttribute(attrs[0]) + EncodeAttributes(attrs[1..])
  }

  function DecodeAttribute(s: Octets): Option<Attribute> {
    if |s| < 4 || U16At(s, 2) > |s| - 4 then None
    else Some(Attribute(U16At(s, 0), s[4..4 + U16At(s, 2)]))
  }

  /** Octets an attribute takes on the wire: its header, its value and the padding. */
  function WireSize(a: Attribute): nat {
    4 + |a.value| + Padding(4 + |a.value|)
  }

  /** What the strict attribute loop leaves: the attributes read and how many octets it did not consume. */
  datatype Scan = Scan(attributes: seq<Attribute>, unread: nat)

  /** The attribute loop of `Message::parse` on the octets between the header and the declared end. */
  function ScanAttributes(s: Octets): (r: Option<Scan>)
    ensures r.Some? ==> r.value.unread <= |s|
  {
    if |s| == 0 then Some(Scan([], 0))
    else if |s| < 4 then None
    else match DecodeAttribute(s)
      case None => Some(Scan([], |s|))
      case Some(a) =>
        if WireSize(a) > |s| then None
        else match ScanAttributes(s[WireSize(a)..])
          case None => None
          case Some(r) => Some(Scan([a] + r.attributes, r.unread))
  }

  function Body(d: Octets, h: Header): Octets
    requires 20 + h.length <= |d|
  {
    d[20..20 + h.length]
  }

  /** `Message::parse`, together with the octets its attribute loop left unread. */
  function ScanMessage(d: Octets): Option<(Message, nat)> {
    match ParseHeader(d)
    case None => None
    case Some(h) =>
      if 20 + h.length > |d| then None
      else match ScanAttributes(Body(d, h))
        case None => None
        case Some(r) => Some((Message(h, r.attributes), r.unread))
  }

  function ParseMessage(d: Octets): Option<Message> {
    match ScanMessage(d)
    case None => None
    case Some(r) => Some(r.0)
  }

  function EncodeMessage(m: Message): Octets {
    var body := EncodeAttributes(m.attributes);
    EncodeHeader(m.header.(length := AsU16(|body|))) + body
  }

  // ---------------------------------------------------------------- round trip

  lemma EncodedParts(a: Attribute, rest: Octets) returns (head: Octets, padding: Octets)
    requires |a.value| < 0x1_0000
    ensures |head| == 4 && U16At(head, 0) == a.attrType && U16At(head, 2) == |a.value|
    ensures EncodeAttribute(a) + rest == head + (a.value + (padding + rest))
  {
    head, padding := PutU16(a.attrType) + PutU16(|a.value|), Zeros(Padding(|a.value|));
    Regroup(head + a.value, padding, rest);
    Regroup(head, a.value, padding + rest);
  }

  lemma DecodeParts(head: Octets, a: Attribute, rest: Octets)
    requires |head| == 4 && U16At(head, 0) == a.attrType && U16At(head, 2) == |a.value|
    ensures DecodeAttribute(head + (a.value + rest)) == Some(a)
  {
    var s := head + (a.value + rest);
    assert s[4..4 + |a.value|] == a.value;
  }

  lemma DecodeEncoded(a: Attribute, rest: Octets)
    requires |a.value| < 0x1_0000
    ensures DecodeAttribute(EncodeAttribute(a) + rest) == Some(a)
  {
    var head, padding := EncodedParts(a, rest);
    DecodeParts(head, a, padding + rest);
  }

  lemma EncodedSize(a: Attribute)
    ensures |EncodeAttribute(a)| == WireSize(a) >= 4 + |a.value|
  {
    PaddingsAgree(|a.value|);
  }

  /** The strict loop reads back exactly the attributes that were written, to the last octet. */
  lemma {:induction false} ScanEncoded(attrs: seq<Attribute>)
    requires |EncodeAttributes(attrs)| < 0x1_0000
    ensures ScanAttributes(EncodeAttributes(attrs)) == Some(Scan(attrs, 0))
  {
    if attrs != [] {
      var a, tail := attrs[0], EncodeAttributes(attrs[1..]);
      EncodedSize(a);
      DecodeEncoded(a, tail);
      assert EncodeAttributes(attrs)[WireSize(a)..] == tail;
      ScanEncoded(attrs[1..]);
      assert [a] + attrs[1..] == attrs;
    }
  }

  /** Whatever octets the strict loop accepts, the attributes it returns re-encode to what it consumed. */
  lemma {:induction false} ScannedSize(s: Octets)
    requires ScanAttributes(s).Some?
    ensures var r := ScanAttributes(s).value;
            |EncodeAttributes(r.attributes)| == |s| - r.unread
  {
    if |s| >= 4 && DecodeAttribute(s).Some? {
      var a := DecodeAttribute(s).value;
      ScannedSize(s[WireSize(a)..]);
      EncodedSize(a);
      var r := ScanAttributes(s[WireSize(a)..]).value;
      assert ([a] + r.attributes)[1..] == r.attributes;
    }
  }

  predicate RoundTrips(m: Message) {
    var p := ParseMessage(EncodeMessage(m));
    p.Some? && p.value.attributes == m.attributes
    && p.value.header == m.header.(length := AsU16(|EncodeAttributes(m.attributes)|))
  }

  /** `Message::parse` inverts `Message::encode` exactly for the bodies whose size fits the length field. */
  lemma MessageRoundTrip(m: Message)
    ensures RoundTrips(m) <==> |EncodeAttributes(m.attributes)| < 0x1_0000
    ensures RoundTrips(m) ==> ScanMessage(EncodeMessage(m)).value.1 == 0
  {
    var body := EncodeAttributes(m.attributes);
    var h := m.header.(length := AsU16(|body|));
    HeaderRoundTrip(h, body);
    var d := EncodeMessage(m);
    assert d[20..] == body;
    if |body| < 0x1_0000 {
      assert Body(d, h) == body;
      ScanEncoded(m.attributes);
    } else if ParseMessage(d).Some? {
      ScannedSize(Body(d, h));
    }
  }

  // ---------------------------------------------------------------- the loops as written

  function Prepend(done: seq<Attribute>, r: Option<Scan>): Option<Scan> {
    match r
    case None => None
    case Some(r) => Some(Scan(done + r.attributes, r.unread))
  }

  /** A stop of the strict loop: what has been collected is the result. */
  lemma PrependStop(done: seq<Attribute>, unread: nat)
    ensures Prepend(done, Some(Scan([], unread))) == Some(Scan(done, unread))
  {
    assert done + [] == done;
  }

  lemma PrependIdentities(done: seq<Attribute>, a: Attribute, r: Option<Scan>)
    ensures Prepend([], r) == r
    ensures Prepend(done, Prepend([a], r)) == Prepend(done + [a], r)
  {
    if r.Some? {
      assert [] + r.value.attributes == r.value.attributes;
      Regroup(done, [a], r.value.attributes);
    }
  }

  /** One turn of the strict loop at `offset`. */
  lemma ScanStep(d: Octets, offset: nat, end: nat)
    requires offset + 4 <= end <= |d|
    ensures ScanAttributes(d[offset..end]) ==
            match DecodeAttribute(d[offset..end])
            case None => Some(Scan([], end - offset))
            case Some(a) =>
              if offset + WireSize(a) > end then None
              else Prepend([a], ScanAttributes(d[offset + WireSize(a)..end]))
  {
    var s := d[offset..end];
    if DecodeAttribute(s).Some? && WireSize(DecodeAttribute(s).value) <= |s| {
      DropOfSlice(d, offset, end, WireSize(DecodeAttribute(s).value));
    }
  }

  lemma ScanTurn(done: seq<Attribute>, d: Octets, offset: nat, end: nat, a: Attribute, next: nat)
    requires offset + 4 <= end <= |d| && DecodeAttribute(d[offset..end]) == Some(a)
    requires next == offset + WireSize(a) <= end
    ensures Prepend(done, ScanAttributes(d[offset..end])) == Prepend(done + [a], ScanAttributes(d[next..end]))
  {
    ScanStep(d, offset, end);
    PrependIdentities(done, a, ScanAttributes(d[next..end]));
  }

  /** The attribute loop of the strict parser, over offsets into the datagram. */
  method ScanLoop(d: Octets, end: nat) returns (r: Option<Scan>)
    requires 20 <= end <= |d|
    ensures r == ScanAttributes(d[20..end])
  {
    var offset, attributes := 20, [];
    ghost var goal := ScanAttributes(d[20..end]);
    PrependIdentities([], Attribute(0, []), goal);
    while offset < end
      invariant 20 <= offset <= end
      invariant goal == Prepend(attributes, ScanAttributes(d[offset..end]))
    {
      if offset + 4 > end {
        return None;
      }
      var attr := DecodeAttribute(d[offset..end]);
      if attr.None? {
        PrependStop(attributes, end - offset);
        return Some(Scan(attributes, end - offset));
      }
      var attrLen := |attr.value.value| + 4;
      var next := offset + attrLen + Padding(attrLen);
      if next > end {
        return None;
      }
      ScanTurn(attributes, d, offset, end, attr.value, next);
      attributes := attributes + [attr.value];
      offset := next;
    }
    PrependStop(attributes, 0);
    r := Some(Scan(attributes, 0));
  }

  method Parse(d: Octets) returns (r: Option<Message>)
    ensures r == ParseMessage(d)
  {
    var header := ParseHeader(d);
    if header.None? || 20 + header.value.length > |d| {
      return None;
    }
    var scan := ScanLoop(d, 20 + header.value.length);
    r := if scan.None? then None else Some(Message(header.value, scan.value.attributes));
  }

  lemma {:induction false} EncodeAttributesAppend(attrs: seq<Attribute>, more: seq<Attribute>)
    ensures EncodeAttributes(attrs + more) == EncodeAttributes(attrs) + EncodeAttributes(more)
  {
    if attrs == [] {
      assert attrs + more == more;
    } else {
      assert (attrs + more)[1..] == attrs[1..] + more;
      var x, y, z := EncodeAttribute(attrs[0]), EncodeAttributes(attrs[1..]), EncodeAttributes(more);
      EncodeAttributesAppend(attrs[1..], more);
      assert x + (y + z) == (x + y) + z;
    }
  }

  method Encode(m: Message) returns (d: Octets)
    ensures d == EncodeMessage(m)
  {
    var attrBuf := [];
    for i := 0 to |m.attributes|
      invariant attrBuf == EncodeAttributes(m.attributes[..i])
    {
      EncodeAttributesAppend(m.attributes[..i], [m.attributes[i]]);
      assert m.attributes[..i + 1] == m.attributes[..i] + [m.attributes[i]];
      attrBuf := attrBuf + EncodeAttribute(m.attributes[i]);
    }
    assert m.attributes[..|m.attributes|] == m.attributes;
    d := EncodeHeader(m.header.(length := AsU16(|attrBuf|))) + attrBuf;
  }

  // ---------------------------------------------------------------- addresses

  datatype IpAddr = V4(a: byte, b: byte, c: byte, d: byte) | V6(octets: Octets)
  datatype SocketAddr = SocketAddr(ip: IpAddr, port: u16)

  /** `encode_xor_address` with the magic cookie; an IPv6 address is written as a placeholder. */
  function EncodeXorAddress(addr: SocketAddr): Octets {
    var head := [Xor(addr.port / 256, 0x21), Xor(addr.port % 256, 0x12)];
    match addr.ip
    case V4(a, b, c, d) => [0, 0x01] + head + [Xor(a, 0x21), Xor(b, 0x12), Xor(c, 0xA4), Xor(d, 0x42)]
    case V6(_) => [0, 0x02] + head + Zeros(4)
  }

  function DecodeXorAddress(s: Octets): Option<SocketAddr> {
    if |s| < 8 || s[1] != 0x01 then None
    else
      var port := 256 * (Xor(s[2], 0x21) as int) + Xor(s[3], 0x12);
      Some(SocketAddr(V4(Xor(s[4], 0x21), Xor(s[5], 0x12), Xor(s[6], 0xA4), Xor(s[7], 0x42)), port))
  }

  lemma DecodeLaidOut(s: Octets, addr: SocketAddr)
    requires |s| == 8 && s[1] == 0x01 && addr.ip.V4?
    requires Xor(s[2], 0x21) == addr.port / 256 && Xor(s[3], 0x12) == addr.port % 256
    requires Xor(s[4], 0x21) == addr.ip.a && Xor(s[5], 0x12) == addr.ip.b
    requires Xor(s[6], 0xA4) == addr.ip.c && Xor(s[7], 0x42) == addr.ip.d
    ensures DecodeXorAddress(s) == Some(addr)
  {
  }

  /** Section 15.2 of RFC 5389: XOR with the cookie is undone for IPv4, and only for IPv4. */
  lemma XorAddressRoundTrip(addr: SocketAddr)
    ensures DecodeXorAddress(EncodeXorAddress(addr)) == if addr.ip.V4? then Some(addr) else None
    ensures |EncodeXorAddress(addr)| == 8
  {
    var s := EncodeXorAddress(addr);
    if addr.ip.V4? {
      XorCancels(addr.port / 256, 0x21);
      XorCancels(addr.port % 256, 0x12);
      XorCancels(addr.ip.a, 0x21);
      XorCancels(addr.ip.b, 0x12);
      XorCancels(addr.ip.c, 0xA4);
      XorCancels(addr.ip.d, 0x42);
      DecodeLaidOut(s, addr);
    }
  }

  /** `create_binding_response_fast` for an IPv4 client: every octet laid out by hand. */
  function BindingResponseFast(tid: TransactionId, ip: IpAddr, port: u16): Octets
    requires ip.V4?
  {
    [0x01, 0x01] + PutU16(12) + PutU32(0x2112A442) + tid + PutU16(0x0020) + PutU16(8)
    + [0, 0x01, Xor(port / 256, 0x21), Xor(port % 256, 0x12)]
    + [Xor(ip.a, 0x21), Xor(ip.b, 0x12), Xor(ip.c, 0xA4), Xor(ip.d, 0x42)]
  }

  function BindingResponse(tid: TransactionId, client: SocketAddr): Message {
    Message(Header(Binding, Success, 0, tid), [Attribute(XOR_MAPPED_ADDRESS, EncodeXorAddress(client))])
  }

  lemma BindingSuccessType()
    ensures PutType(EncodeType(MethodValue(Binding), ClassValue(Success))) == [0x01, 0x01]
  {
  }

  lemma BindingSuccessHeader(tid: TransactionId)
    ensures EncodeHeader(Header(Binding, Success, 12, tid)) == [0x01, 0x01] + PutU16(12) + PutU32(0x2112A442) + tid
  {
    BindingSuccessType();
    assert PutU32(0x2112A442) == MAGIC_COOKIE;
  }

  lemma SingleAttribute(a: Attribute)
    requires |a.value| == 8
    ensures EncodeAttributes([a]) == PutU16(a.attrType) + PutU16(8) + a.value
  {
    assert [a][1..] == [];
    assert EncodeAttributes([a]) == EncodeAttribute(a) + [];
  }

  /** The hot-path Binding reply is the generic encoder's output, so a client reads its own address from it. */
  lemma BindingFastIsEncoded(tid: TransactionId, client: SocketAddr)
    requires client.ip.V4?
    ensures BindingResponseFast(tid, client.ip, client.port) == EncodeMessage(BindingResponse(tid, client))
    ensures ParseMessage(BindingResponseFast(tid, client.ip, client.port))
         == Some(Message(Header(Binding, Success, 12, tid), BindingResponse(tid, client).attributes))
    ensures DecodeXorAddress(BindingResponse(tid, client).attributes[0].value) == Some(client)
  {
    var m := BindingResponse(tid, client);
    XorAddressRoundTrip(client);
    BindingSuccessHeader(tid);
    SingleAttribute(m.attributes[0]);
    assert |EncodeAttributes(m.attributes)| == 12;
    BindingFastLayout(tid, client);
    MessageRoundTrip(m);
  }

  lemma BindingFastLayout(tid: TransactionId, client: SocketAddr)
    requires client.ip.V4?
    ensures BindingResponseFast(tid, client.ip, client.port)
         == ([0x01, 0x01] + PutU16(12) + PutU32(0x2112A442) + tid)
            + (PutU16(0x0020) + PutU16(8) + EncodeXorAddress(client))
  {
  }
}
