/**
 * MESSAGE-INTEGRITY of src/server.rs: the MAC covers the header, with a length field that counts the
 * integrity attribute itself, and every attribute before it. HMAC-SHA1 is an arbitrary function.
 */
module Integrity {
  import opened Bytes
  import opened Codec

  type Mac = s: Octets | |s| == 20 witness Zeros(20)
  type Hmac = (Octets, Octets) -> Mac

  /** The comparison slices twenty octets out of the received value, which panics on a shorter one. */
  datatype Verdict = Verified | Refused | Panics

  function FindAttribute(attrs: seq<Attribute>, attrType: u16): Option<Attribute> {
    if attrs == [] then None
    else if attrs[0].attrType == attrType then Some(attrs[0])
    else FindAttribute(attrs[1..], attrType)
  }

  function BeforeIntegrity(attrs: seq<Attribute>): seq<Attribute> {
    if attrs == [] || attrs[0].attrType == MESSAGE_INTEGRITY then []
    else [attrs[0]] + BeforeIntegrity(attrs[1..])
  }

  predicate Unsigned(attrs: seq<Attribute>) {
    forall a <- attrs :: a.attrType != MESSAGE_INTEGRITY
  }

  function MacInput(h: Header, attrs: seq<Attribute>): Octets {
    var body := EncodeAttributes(attrs);
    EncodeHeader(h.(length := AsU16(|body| + 24))) + body
  }

  function Verify(hmac: Hmac, key: Octets, m: Message): Verdict {
    match FindAttribute(m.attributes, MESSAGE_INTEGRITY)
    case None => Refused
    case Some(a) =>
      if |a.value| < 20 then Panics
      else if hmac(key, MacInput(m.header, BeforeIntegrity(m.attributes))) == a.value[..20] then Verified
      else Refused
  }

  function Sign(hmac: Hmac, key: Octets, m: Message): Message {
    m.(attributes := m.attributes + [Attribute(MESSAGE_INTEGRITY, hmac(key, MacInput(m.header, m.attributes)))])
  }

  /** The loop that encodes the attributes up to the first MESSAGE-INTEGRITY. */
  method EncodePrefix(attrs: seq<Attribute>) returns (body: Octets)
    ensures body == EncodeAttributes(BeforeIntegrity(attrs))
  {
    ghost var before := [];
    var i := 0;
    body := [];
    while i < |attrs| && attrs[i].attrType != MESSAGE_INTEGRITY
      invariant 0 <= i <= |attrs|
      invariant body == EncodeAttributes(before)
      invariant BeforeIntegrity(attrs) == before + BeforeIntegrity(attrs[i..])
    {
      var a := attrs[i];
      EncodeAttributesAppend(before, [a]);
      Regroup(before, [a], BeforeIntegrity(attrs[i + 1..]));
      before, body, i := before + [a], body + EncodeAttribute(a), i + 1;
    }
    assert before + [] == before;
  }

  /** `verify_message_integrity`. */
  method VerifyMessageIntegrity(hmac: Hmac, key: Octets, m: Message) returns (v: Verdict)
    ensures v == Verify(hmac, key, m)
  {
    var integrity := FindAttribute(m.attributes, MESSAGE_INTEGRITY);
    if integrity.None? {
      return Refused;
    }
    var body := EncodePrefix(m.attributes);
    var computed := hmac(key, EncodeHeader(m.header.(length := AsU16(|body| + 24))) + body);
    if |integrity.value.value| < 20 {
      return Panics;
    }
    v := if computed == integrity.value.value[..20] then Verified else Refused;
  }

  /** `add_response_message_integrity` with its encoding loop. */
  method AddMessageIntegrity(hmac: Hmac, key: Octets, m: Message) returns (signed: Message)
    ensures signed == Sign(hmac, key, m)
  {
    var body := [];
    for i := 0 to |m.attributes|
      invariant body == EncodeAttributes(m.attributes[..i])
    {
      EncodeAttributesAppend(m.attributes[..i], [m.attributes[i]]);
      assert m.attributes[..i + 1] == m.attributes[..i] + [m.attributes[i]];
      body := body + EncodeAttribute(m.attributes[i]);
    }
    assert m.attributes[..|m.attributes|] == m.attributes;
    var computed := hmac(key, EncodeHeader(m.header.(length := AsU16(|body| + 24))) + body);
    signed := m.(attributes := m.attributes + [Attribute(MESSAGE_INTEGRITY, computed)]);
  }

  // ---------------------------------------------------------------- what a verdict depends on

  lemma {:induction false} FirstIntegrity(attrs: seq<Attribute>, a: Attribute, rest: seq<Attribute>)
    requires Unsigned(attrs) && a.attrType == MESSAGE_INTEGRITY
    ensures FindAttribute(attrs + [a] + rest, MESSAGE_INTEGRITY) == Some(a)
    ensures BeforeIntegrity(attrs + [a] + rest) == attrs
  {
    var all := attrs + [a] + rest;
    if attrs != [] {
      assert all[0] == attrs[0] && all[1..] == attrs[1..] + [a] + rest;
      FirstIntegrity(attrs[1..], a, rest);
      assert [attrs[0]] + attrs[1..] == attrs;
    }
  }

  /** Nothing after the first MESSAGE-INTEGRITY, nor the received length field, changes the verdict. */
  lemma VerdictIgnoresTail(hmac: Hmac, key: Octets, h: Header, length: u16, attrs: seq<Attribute>, a: Attribute,
                           rest: seq<Attribute>, other: seq<Attribute>)
    requires Unsigned(attrs) && a.attrType == MESSAGE_INTEGRITY
    ensures Verify(hmac, key, Message(h, attrs + [a] + rest))
         == Verify(hmac, key, Message(h.(length := length), attrs + [a] + other))
  {
    FirstIntegrity(attrs, a, rest);
    FirstIntegrity(attrs, a, other);
    assert MacInput(h, attrs) == MacInput(h.(length := length), attrs);
  }

  /** A signature added to an unsigned message is accepted, under any MAC function and any key. */
  lemma SignedVerifies(hmac: Hmac, key: Octets, m: Message, length: u16)
    requires Unsigned(m.attributes)
    ensures Verify(hmac, key, Sign(hmac, key, m).(header := m.header.(length := length))) == Verified
  {
    var mac := hmac(key, MacInput(m.header, m.attributes));
    var a := Attribute(MESSAGE_INTEGRITY, mac);
    assert m.attributes + [a] + [] == m.attributes + [a];
    FirstIntegrity(m.attributes, a, []);
    assert MacInput(m.header.(length := length), m.attributes) == MacInput(m.header, m.attributes);
    assert mac[..20] == mac;
  }

  lemma {:induction false} SplitAtIntegrity(attrs: seq<Attribute>) returns (a: Attribute, rest: seq<Attribute>)
    requires !Unsigned(attrs)
    ensures a.attrType == MESSAGE_INTEGRITY && Unsigned(BeforeIntegrity(attrs))
    ensures attrs == BeforeIntegrity(attrs) + [a] + rest
  {
    if attrs[0].attrType == MESSAGE_INTEGRITY {
      a, rest := attrs[0], attrs[1..];
    } else {
      a, rest := SplitAtIntegrity(attrs[1..]);
      assert attrs == [attrs[0]] + attrs[1..];
    }
  }

  /** Signing again is inert: exactly the unsigned messages are made to verify by signing them. */
  lemma SigningTwiceIsInert(hmac: Hmac, key: Octets, m: Message)
    ensures Verify(hmac, key, Sign(hmac, key, m))
         == if Unsigned(m.attributes) then Verified else Verify(hmac, key, m)
  {
    if Unsigned(m.attributes) {
      SignedVerifies(hmac, key, m, m.header.length);
    } else {
      var a, rest := SplitAtIntegrity(m.attributes);
      var before := BeforeIntegrity(m.attributes);
      var added := Sign(hmac, key, m).attributes[|m.attributes|];
      assert Sign(hmac, key, m).attributes == before + [a] + (rest + [added]);
      VerdictIgnoresTail(hmac, key, m.header, m.header.length, before, a, rest, rest + [added]);
    }
  }

  /** Section 15.4 of RFC 5389 end to end: sign, encode, parse and verify under the same key. */
  lemma SignedOnTheWire(hmac: Hmac, key: Octets, m: Message)
    requires Unsigned(m.attributes) && |EncodeAttributes(m.attributes)| + 24 < 0x1_0000
    ensures var p := ParseMessage(EncodeMessage(Sign(hmac, key, m)));
            p.Some? && p.value.attributes == Sign(hmac, key, m).attributes && Verify(hmac, key, p.value) == Verified
  {
    var signed := Sign(hmac, key, m);
    var a := signed.attributes[|m.attributes|];
    EncodeAttributesAppend(m.attributes, [a]);
    EncodedSize(a);
    PaddingAsWritten(24);
    MessageRoundTrip(signed);
    SignedVerifies(hmac, key, m, AsU16(|EncodeAttributes(signed.attributes)|));
  }

  // ---------------------------------------------------------------- what a MAC binds

  /** Two different messages never share a MAC input while their bodies fit the length field. */
  lemma MacInputInjective(h: Header, attrs: seq<Attribute>, h': Header, attrs': seq<Attribute>)
    requires |EncodeAttributes(attrs)| + 24 < 0x1_0000 && |EncodeAttributes(attrs')| + 24 < 0x1_0000
    requires MacInput(h, attrs) == MacInput(h', attrs')
    ensures h.kind == h'.kind && h.eventType == h'.eventType && h.transactionId == h'.transactionId
    ensures attrs == attrs'
  {
    var body, body' := EncodeAttributes(attrs), EncodeAttributes(attrs');
    HeaderRoundTrip(h.(length := AsU16(|body| + 24)), body);
    HeaderRoundTrip(h'.(length := AsU16(|body'| + 24)), body');
    assert body == MacInput(h, attrs)[20..] && body' == MacInput(h', attrs')[20..];
    ScanEncoded(attrs);
    ScanEncoded(attrs');
  }
}
