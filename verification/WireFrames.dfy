/**
 * The frames that travel between client and server, octet by octet: ChannelData and messages on a stream, the frames
 * built for a client, and the requests that the fallback parser understands.
 */
module WireFrames {
  import opened Bytes
  import opened Codec
  import opened Framing
  import opened ClientFrames
  import opened Wire
  import Lenient

  // ---------------------------------------------------------------- ChannelData

  /** Section 11.4 of RFC 5766: channel number, length, application data. */
  function ChannelOctets(channel: u16, payload: Octets): Octets
    requires |payload| < 0x1_0000
  {
    BigEndian(channel) + BigEndian(|payload|) + payload
  }

  /** On a stream it takes whole words. */
  function PaddedOctets(channel: u16, payload: Octets): (d: Octets)
    requires |payload| < 0x1_0000
    ensures |d| == 4 + |payload| + PaddingOf(|payload|)
  {
    ChannelOctets(channel, payload) + Zeros(PaddingOf(|payload|))
  }

  lemma ChannelFields(channel: u16, payload: Octets, rest: Octets)
    requires |payload| < 0x1_0000
    ensures var d := ChannelOctets(channel, payload) + rest; U16At(d, 0) == channel && U16At(d, 2) == |payload|
  {
    var d := ChannelOctets(channel, payload) + rest;
    assert d[0] == channel / 256 && d[1] == channel % 256 && d[2] == |payload| / 256 && d[3] == |payload| % 256;
  }

  lemma WholeFrame(n: nat)
    ensures Pad4(n) == n + PaddingOf(n)
  {
    PadIsPadding(n);
    PaddingAsWritten(n);
  }

  /** ChannelData on numbers 0x4000 to 0x7FFF is cut off a stream with its padding, whatever follows. */
  lemma ChannelDataIsRead(channel: u16, payload: Octets, more: Octets)
    requires 0x4000 <= channel <= 0x7FFF && |payload| < 0x1_0000
    ensures Extract(PaddedOctets(channel, payload) + more) == Some((PaddedOctets(channel, payload), more))
  {
    var padding := Zeros(PaddingOf(|payload|));
    Regroup(ChannelOctets(channel, payload), padding, more);
    ChannelFields(channel, payload, padding + more);
    WholeFrame(|payload|);
    CutAt(PaddedOctets(channel, payload), more);
  }

  lemma CutAt(a: Octets, b: Octets)
    ensures (a + b)[..|a|] == a && (a + b)[|a|..] == b
  {
  }

  /** And not before it is all there. */
  lemma ChannelDataIsAwaited(channel: u16, payload: Octets, n: nat)
    requires 0x4000 <= channel <= 0x7FFF && |payload| < 0x1_0000 && n < |PaddedOctets(channel, payload)|
    ensures Extract(PaddedOctets(channel, payload)[..n]) == None
  {
    var d := PaddedOctets(channel, payload);
    ChannelFields(channel, payload, Zeros(PaddingOf(|payload|)));
    WholeFrame(|payload|);
    if n >= 4 { assert U16At(d[..n], 0) == U16At(d, 0) && U16At(d[..n], 2) == U16At(d, 2); }
  }

  /** The writer adds exactly that padding. */
  lemma ChannelDataIsPadded(channel: u16, payload: Octets)
    requires 0x4000 <= channel <= 0x7FFF && |payload| < 0x1_0000
    ensures WriteFrame(ChannelOctets(channel, payload)) == PaddedOctets(channel, payload)
  {
    var d := ChannelOctets(channel, payload);
    ChannelFields(channel, payload, []);
    assert d + [] == d;
    WholeFrame(|payload|);
  }

  /** Anything else on a stream has a header of 20 octets that says how much follows. */
  lemma OtherIsRead(head: Octets, rest: Octets)
    requires |head| == 20 && !(0x40 <= head[0] < 0x80)
    ensures var n: nat := 256 * (head[2] as int) + head[3];
            Extract(head + rest) == if |rest| < n then None else Some((head + rest[..n], rest[n..]))
  {
    var n: nat := 256 * (head[2] as int) + head[3];
    assert U16At(head + rest, 2) == n && U16At(head + rest, 0) == U16At(head, 0);
    if |rest| >= n {
      assert rest == rest[..n] + rest[n..];
      Regroup(head, rest[..n], rest[n..]);
      CutAt(head + rest[..n], rest[n..]);
    }
  }

  // ---------------------------------------------------------------- frames for the client

  /** What a client gets as ChannelData. */
  lemma ChannelFrameOctets(channel: u16, payload: Octets)
    requires |payload| < 0x1_0000
    ensures ChannelFrame(channel, payload) == ChannelOctets(channel, payload)
  {
    NotCut(|payload|);
    NotCut(channel);
  }

  /** Of a ChannelData datagram that was cut short, what is there is the payload. */
  lemma CutPayload(channel: u16, payload: Octets, n: nat)
    requires n <= |payload| < 0x1_0000
    ensures ChannelPayload(ChannelOctets(channel, payload)[..4 + n]) == payload[..n]
  {
    var d := ChannelOctets(channel, payload);
    ChannelFields(channel, payload, []);
    assert d + [] == d;
    var cut := d[..4 + n];
    assert U16At(cut, 2) == U16At(d, 2);
    assert cut[4..] == payload[..n];
  }

  lemma TwoAttributes(a: Attribute, b: Attribute)
    ensures EncodeAttributes([a, b]) == EncodeAttribute(a) + EncodeAttribute(b)
  {
    assert [a, b][1..] == [b] && [b][1..] == [];
    assert EncodeAttributes([b]) == EncodeAttribute(b) + [];
  }

  lemma PeerAttribute(v: Octets)
    requires |v| == 8
    ensures EncodeAttribute(Attribute(0x0012, v)) == [0x00, 0x12, 0x00, 0x08] + v
  {
    AttributeOnWire(Attribute(0x0012, v));
    assert Zeros(PaddingOf(8)) == [];
  }

  lemma IndicationSize(tid: TransactionId, peer: SocketAddr, payload: Octets)
    requires |payload| <= 65516
    ensures var n := |EncodeAttributes(DataIndication(tid, peer, payload).attributes)|;
            n == 16 + |payload| + PaddingOf(|payload|) < 0x1_0000
  {
    IndicationBody(tid, peer, payload);
    LargestPayload(|payload|);
    WholeFrame(|payload|);
  }

  /** What a client gets as a Data indication: XOR-PEER-ADDRESS, then DATA. */
  lemma IndicationOctets(tid: TransactionId, peer: SocketAddr, payload: Octets, n: nat)
    requires |payload| <= 65516 && n == 16 + |payload| + PaddingOf(|payload|)
    ensures n < 0x1_0000
    ensures EncodeMessage(DataIndication(tid, peer, payload)) ==
            [0x00, 0x17] + BigEndian(n) + [0x21, 0x12, 0xA4, 0x42] + tid
            + (([0x00, 0x12, 0x00, 0x08] + EncodeXorAddress(peer)) + AttributeOctets(0x0013, payload))
  {
    IndicationSize(tid, peer, payload);
    var m := DataIndication(tid, peer, payload);
    XorAddressRoundTrip(peer);
    TwoAttributes(m.attributes[0], m.attributes[1]);
    PeerAttribute(EncodeXorAddress(peer));
    AttributeOnWire(m.attributes[1]);
    NotCut(n);
    HeaderOnWire(m.header.(length := n));
  }

  /** Traffic from the server's own bind address is shown under the external one, and nothing else is changed. */
  lemma PeerAsSeen(peer: SocketAddr, relayBind: SocketAddr, relayed: SocketAddr)
    ensures var seen := NormalizePeer(peer, relayBind, relayed);
            && seen.port == peer.port
            && seen.ip == if peer.ip == relayBind.ip then relayed.ip else peer.ip
  {
  }

  // ---------------------------------------------------------------- the fallback parser

  lemma RequestNumber(kind: Method)
    ensures Lenient.RawMethod(MethodNumber(kind)) == if kind.CreatePermission? then None else Some(kind)
  {
  }

  lemma OtherNumber(kind: Method, e: EventType)
    requires !e.Request?
    ensures Lenient.RawMethod(U16At(TypeOctets(kind, e), 0)) == None
  {
  }

  /**
   * The fallback reads an encoded message exactly when it is a request other than CreatePermission with a body of 1 to
   * 1499 octets, and then as it was written.
   */
  lemma FallbackReads(m: Message)
    requires |EncodeAttributes(m.attributes)| < 0x1_0000
    ensures var n := |EncodeAttributes(m.attributes)|;
            Lenient.LenientMessage(EncodeMessage(m)) ==
            if m.header.eventType.Request? && !m.header.kind.CreatePermission? && 0 < n < 1500
            then Some(m.(header := m.header.(length := n))) else None
  {
    var n, d := |EncodeAttributes(m.attributes)|, EncodeMessage(m);
    var h := m.header.(length := n);
    NotCut(n);
    HeaderLayout(h, EncodeAttributes(m.attributes));
    HeaderOnWire(h);
    FirstTwo(h, EncodeAttributes(m.attributes));
    if h.eventType.Request? { RequestNumber(h.kind); } else { OtherNumber(h.kind, h.eventType); }
    MessageRoundTrip(m);
    Lenient.StrictIsPrefixOfLenient(d);
  }

  lemma FirstTwo(h: Header, rest: Octets)
    ensures U16At(EncodeHeader(h) + rest, 0) == U16At(TypeOctets(h.kind, h.eventType), 0)
    ensures h.eventType.Request? ==> U16At(EncodeHeader(h) + rest, 0) == MethodNumber(h.kind)
  {
    HeaderOnWire(h);
    var d := EncodeHeader(h) + rest;
    assert d[0] == TypeOctets(h.kind, h.eventType)[0] && d[1] == TypeOctets(h.kind, h.eventType)[1];
  }
}
