/**
 * Frames between the client and the relay task (src/allocation.rs and `handle_channel_data` in
 * src/server.rs): peer traffic goes to the client as ChannelData when a channel is bound to the
 * peer and as a Data indication otherwise.
 */
module ClientFrames {
  import opened Bytes
  import opened Codec
  import opened Framing
  import Integrity
  import Channels

  /** `normalize_peer_addr_for_client`. */
  function NormalizePeer(peer: SocketAddr, relayBind: SocketAddr, relayed: SocketAddr): SocketAddr {
    if peer.ip == relayBind.ip && relayBind.ip != relayed.ip then SocketAddr(relayed.ip, peer.port) else peer
  }

  function DataIndication(tid: TransactionId, peer: SocketAddr, payload: Octets): Message {
    Message(Header(Codec.Data, Indication, 0, tid),
            [Attribute(PEER_ADDRESS, EncodeXorAddress(peer)), Attribute(DATA, payload)])
  }

  function ChannelFrame(channel: u16, payload: Octets): Octets {
    PutU16(channel) + PutU16(AsU16(|payload|)) + payload
  }

  /** The payload `handle_channel_data` takes from a frame: at most the declared length, at most what is there. */
  function ChannelPayload(d: Octets): Octets
    requires |d| >= 4
  {
    var n := U16At(d, 2);
    d[4..4 + if n <= |d| - 4 then n else |d| - 4]
  }

  /** What a client reads from a Data indication: the peer and the payload. */
  function ReadIndication(d: Octets): Option<(SocketAddr, Octets)> {
    match ParseMessage(d)
    case None => None
    case Some(m) =>
      match (Integrity.FindAttribute(m.attributes, PEER_ADDRESS), Integrity.FindAttribute(m.attributes, DATA))
      case (Some(p), Some(a)) =>
        if DecodeXorAddress(p.value).None? then None else Some((DecodeXorAddress(p.value).value, a.value))
      case _ => None
  }

  lemma IndicationBody(tid: TransactionId, peer: SocketAddr, payload: Octets)
    ensures |EncodeAttributes(DataIndication(tid, peer, payload).attributes)| == 16 + Pad4(|payload|)
  {
    var attrs := DataIndication(tid, peer, payload).attributes;
    XorAddressRoundTrip(peer);
    EncodeAttributesAppend([attrs[0]], [attrs[1]]);
    assert attrs == [attrs[0]] + [attrs[1]];
    SingleAttribute(attrs[0]);
    assert EncodeAttributes([attrs[1]]) == EncodeAttribute(attrs[1]) + [];
    EncodedSize(attrs[1]);
    PaddingsAgree(|payload|);
    PadIsPadding(|payload|);
  }

  lemma LargestPayload(n: nat)
    ensures 16 + Pad4(n) < 0x1_0000 <==> n <= 65516
  {
  }

  lemma ReadsPeerAndData(d: Octets, h: Header, v: Octets, payload: Octets)
    requires ParseMessage(d) == Some(Message(h, [Attribute(PEER_ADDRESS, v), Attribute(DATA, payload)]))
    requires DecodeXorAddress(v).Some?
    ensures ReadIndication(d) == Some((DecodeXorAddress(v).value, payload))
  {
    var attrs := [Attribute(PEER_ADDRESS, v), Attribute(DATA, payload)];
    assert Integrity.FindAttribute(attrs, PEER_ADDRESS) == Some(attrs[0]);
    assert attrs[1..][0] == attrs[1];
    assert Integrity.FindAttribute(attrs, DATA) == Some(attrs[1]);
  }

  /** Section 11.7 of RFC 5766: an IPv4 peer and its payload are read back exactly up to 65516 octets. */
  lemma IndicationRoundTrip(tid: TransactionId, peer: SocketAddr, payload: Octets)
    requires peer.ip.V4?
    ensures RoundTrips(DataIndication(tid, peer, payload)) <==> |payload| <= 65516
    ensures |payload| <= 65516 ==>
            ReadIndication(EncodeMessage(DataIndication(tid, peer, payload))) == Some((peer, payload))
  {
    var m := DataIndication(tid, peer, payload);
    IndicationBody(tid, peer, payload);
    LargestPayload(|payload|);
    MessageRoundTrip(m);
    if |payload| <= 65516 {
      XorAddressRoundTrip(peer);
      var p := ParseMessage(EncodeMessage(m)).value;
      ReadsPeerAndData(EncodeMessage(m), p.header, EncodeXorAddress(peer), payload);
    }
  }

  lemma ChannelFrameRoundTrip(channel: u16, payload: Octets)
    ensures U16At(ChannelFrame(channel, payload), 0) == channel
    ensures ChannelPayload(ChannelFrame(channel, payload)) == payload <==> |payload| < 0x1_0000
    ensures IsChannelData(ChannelFrame(channel, payload)) <==> IsChannelNumber(channel)
  {
    var d := ChannelFrame(channel, payload);
    assert d[0] == PutU16(channel)[0] && d[1] == PutU16(channel)[1];
    var n := AsU16(|payload|);
    assert d[2] == PutU16(n)[0] && d[3] == PutU16(n)[1];
    assert d[4..4 + n] == payload[..n];
  }

  /** The writer's padding is not part of the payload. */
  lemma PaddingIsNotPayload(d: Octets)
    requires WellFormed(d) && IsChannelData(d)
    ensures ChannelPayload(WriteFrame(d)) == ChannelPayload(d)
  {
    var w := WriteFrame(d);
    assert U16At(w, 2) == U16At(d, 2);
    assert w[4..4 + U16At(d, 2)] == d[4..4 + U16At(d, 2)];
  }

  /** A channel frame that fits its length field is read back from a stream with its own payload. */
  lemma ChannelFrameOnStream(channel: u16, payload: Octets)
    requires IsChannelNumber(channel) && |payload| < 0x1_0000
    ensures var w := WriteFrame(ChannelFrame(channel, payload));
            IsChannelData(w) && U16At(w, 0) == channel && ChannelPayload(w) == payload
  {
    var d := ChannelFrame(channel, payload);
    ChannelFrameRoundTrip(channel, payload);
    assert d[2] == PutU16(|payload|)[0] && d[3] == PutU16(|payload|)[1];
    assert WellFormed(d);
    PaddingIsNotPayload(d);
    assert WriteFrame(d)[..4] == d[..4];
  }

  /** Every message the encoder lays out within the length field is a well-formed stream frame. */
  lemma EncodedIsWellFormed(m: Message)
    requires |EncodeAttributes(m.attributes)| < 0x1_0000
    ensures WellFormed(EncodeMessage(m)) && !IsChannelData(EncodeMessage(m))
  {
    var body := EncodeAttributes(m.attributes);
    HeaderRoundTrip(m.header.(length := AsU16(|body|)), body);
    HeaderLayout(m.header.(length := AsU16(|body|)), body);
  }

  /** What the relay task hands to the client transport. */
  datatype ToClient = ToClient(channel: Option<u16>, octets: Octets)

  /** The receive branch of `spawn_allocation_task`. */
  method RelayFromPeer(table: Channels.ChannelTable, tid: TransactionId, peer: SocketAddr, relayBind: SocketAddr,
                       relayed: SocketAddr, payload: Octets) returns (r: ToClient)
    requires peer.ip.V4? && relayed.ip.V4?
    ensures var effective := NormalizePeer(peer, relayBind, relayed);
            match r.channel
            case None =>
              && (forall c: u16 :: (relayed, c) in table.channels ==> table.channels[(relayed, c)].peer != effective)
              && r.octets == EncodeMessage(DataIndication(tid, effective, payload))
              && (|payload| <= 65516 ==> ReadIndication(r.octets) == Some((effective, payload)))
            case Some(c) =>
              && (relayed, c) in table.channels && table.channels[(relayed, c)].peer == effective
              && r.octets == ChannelFrame(c, payload) && U16At(r.octets, 0) == c
              && (|payload| < 0x1_0000 ==> ChannelPayload(r.octets) == payload)
  {
    var effective := NormalizePeer(peer, relayBind, relayed);
    var channel := table.GetByPeerForRelayed(relayed, effective);
    if channel.Some? {
      ChannelFrameRoundTrip(channel.value, payload);
      r := ToClient(channel, ChannelFrame(channel.value, payload));
    } else {
      IndicationRoundTrip(tid, effective, payload);
      var octets := Encode(DataIndication(tid, effective, payload));
      r := ToClient(None, octets);
    }
  }
}
