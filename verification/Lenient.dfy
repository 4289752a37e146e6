/**
 * The second parser of `handle_udp_message` in src/server.rs: it takes over when the strict parser
 * refuses a datagram, bounds attributes by the datagram instead of the declared length, and reads
 * the method from the raw type field.
 */
module Lenient {
  import opened Bytes
  import opened Codec

  predicate Fits(d: Octets, offset: nat) {
    offset + 4 <= |d| && offset + 4 + U16At(d, offset + 2) <= |d|
  }

  function AttributeAt(d: Octets, offset: nat): Attribute
    requires Fits(d, offset)
  {
    Attribute(U16At(d, offset), d[offset + 4..offset + 4 + U16At(d, offset + 2)])
  }

  /** What the fallback loop pushes from `offset` on: an attribute only has to fit the datagram. */
  function LenientFrom(d: Octets, offset: nat, end: nat): seq<Attribute>
    decreases end - offset
  {
    if offset >= end || !Fits(d, offset) then []
    else [AttributeAt(d, offset)] + LenientFrom(d, offset + WireSize(AttributeAt(d, offset)), end)
  }

  function RawMethod(v: u16): Option<Method> {
    match v
    case 0x0001 => Some(Binding)
    case 0x0003 => Some(Allocate)
    case 0x0004 => Some(Refresh)
    case 0x0006 => Some(Send)
    case 0x0007 => Some(Data)
    case 0x0009 => Some(ChannelBind)
    case _ => None
  }

  /** The message the fallback builds, if it accepts the datagram at all. */
  function LenientMessage(d: Octets): Option<Message> {
    if |d| < 20 || !(0 < U16At(d, 2) < 1500) || !HasCookie(d) then None
    else match RawMethod(U16At(d, 0))
      case None => None
      case Some(kind) =>
        Some(Message(Header(kind, Request, U16At(d, 2), d[8..20]), LenientFrom(d, 20, 20 + U16At(d, 2))))
  }

  lemma LenientStep(d: Octets, offset: nat, end: nat, a: Attribute)
    requires offset < end && Fits(d, offset) && a == AttributeAt(d, offset)
    ensures LenientFrom(d, offset, end) == [a] + LenientFrom(d, offset + WireSize(a), end)
  {
  }

  /** One turn of the fallback loop. */
  lemma LenientTurn(done: seq<Attribute>, d: Octets, offset: nat, end: nat, a: Attribute)
    requires offset < end && Fits(d, offset) && a == AttributeAt(d, offset)
    ensures done + LenientFrom(d, offset, end) == (done + [a]) + LenientFrom(d, offset + WireSize(a), end)
  {
    LenientStep(d, offset, end, a);
    Regroup(done, [a], LenientFrom(d, offset + WireSize(a), end));
  }

  /** The fallback loop: every access is in bounds and no u16 sum overflows. */
  method LenientLoop(d: Octets, length: u16) returns (attributes: seq<Attribute>)
    requires 20 <= |d| <= 0x1_0000
    ensures attributes == LenientFrom(d, 20, 20 + length)
  {
    var offset, end := 20, 20 + length;
    attributes := [];
    while offset < end && offset + 4 <= |d|
      invariant 20 <= offset
      invariant LenientFrom(d, 20, end) == attributes + LenientFrom(d, offset, end)
      decreases end - offset
    {
      var attrLen := U16At(d, offset + 2);
      if offset + 4 + attrLen > |d| {
        break;
      }
      assert attrLen + 4 < 0x1_0000;
      var a := AttributeAt(d, offset);
      LenientTurn(attributes, d, offset, end, a);
      attributes := attributes + [a];
      offset := offset + 4 + attrLen + Padding(attrLen + 4);
    }
  }

  /** The whole fallback of `handle_udp_message`. */
  method Fallback(d: Octets) returns (m: Option<Message>)
    requires |d| <= 0x1_0000
    ensures m == LenientMessage(d)
  {
    if |d| < 20 || !(0 < U16At(d, 2) < 1500) || !HasCookie(d) {
      return None;
    }
    var kind := RawMethod(U16At(d, 0));
    if kind.None? {
      return None;
    }
    var attributes := LenientLoop(d, U16At(d, 2));
    m := Some(Message(Header(kind.value, Request, U16At(d, 2), d[8..20]), attributes));
  }

  lemma DecodeWithin(d: Octets, offset: nat, end: nat)
    requires offset <= end <= |d| && DecodeAttribute(d[offset..end]).Some?
    ensures Fits(d, offset) && DecodeAttribute(d[offset..end]) == Some(AttributeAt(d, offset))
  {
    var s := d[offset..end];
    assert U16At(s, 0) == U16At(d, offset) && U16At(s, 2) == U16At(d, offset + 2);
    SliceOfSlice(d, offset, end, 4, 4 + U16At(s, 2));
  }

  /** The strict attributes are a prefix of the lenient ones, and all of them when nothing was left unread. */
  predicate Covered(strict: Scan, lenient: seq<Attribute>) {
    strict.attributes <= lenient && (strict.unread == 0 ==> strict.attributes == lenient)
  }

  lemma CoveredCons(a: Attribute, strict: Scan, lenient: seq<Attribute>)
    requires Covered(strict, lenient)
    ensures Covered(Scan([a] + strict.attributes, strict.unread), [a] + lenient)
  {
  }

  lemma NothingRead(s: Octets)
    requires |s| > 0 && ScanAttributes(s).Some? && ScanAttributes(s).value.unread == |s|
    ensures ScanAttributes(s).value.attributes == []
  {
  }

  lemma ScanHead(s: Octets, strict: Scan) returns (a: Attribute, rest: Scan)
    requires |s| >= 4 && ScanAttributes(s) == Some(strict) && strict.unread != |s|
    ensures DecodeAttribute(s) == Some(a) && WireSize(a) <= |s|
    ensures ScanAttributes(s[WireSize(a)..]) == Some(rest) && strict == Scan([a] + rest.attributes, rest.unread)
  {
    a := DecodeAttribute(s).value;
    rest := ScanAttributes(s[WireSize(a)..]).value;
  }

  /** One attribute of the strict loop. */
  lemma StrictStep(d: Octets, offset: nat, end: nat, strict: Scan) returns (a: Attribute, next: nat, rest: Scan)
    requires offset + 4 <= end <= |d| && ScanAttributes(d[offset..end]) == Some(strict)
    requires strict.unread != end - offset
    ensures DecodeAttribute(d[offset..end]) == Some(a) && next == offset + WireSize(a) <= end
    ensures ScanAttributes(d[next..end]) == Some(rest) && strict == Scan([a] + rest.attributes, rest.unread)
  {
    a, rest := ScanHead(d[offset..end], strict);
    next := offset + WireSize(a);
    assert d[offset..end][WireSize(a)..] == d[next..end] by { DropOfSlice(d, offset, end, WireSize(a)); }
  }

  lemma {:induction false} StrictWithinLenient(d: Octets, offset: nat, end: nat, strict: Scan)
    requires offset <= end <= |d| && ScanAttributes(d[offset..end]) == Some(strict)
    ensures Covered(strict, LenientFrom(d, offset, end))
    decreases end - offset
  {
    if offset + 4 <= end && strict.unread != end - offset {
      var a, next, rest := StrictStep(d, offset, end, strict);
      StrictWithinLenient(d, next, end, rest);
      CoveredCons(a, rest, LenientFrom(d, next, end));
      DecodeWithin(d, offset, end);
      LenientStep(d, offset, end, a);
    } else if offset < end {
      NothingRead(d[offset..end]);
    }
  }

  /**
   * Whenever the strict parser accepts a cookie-bearing datagram, its attribute list is a prefix of the
   * list the lenient loop reads from the same octets, and the whole list when nothing was left unread.
   */
  lemma StrictIsPrefixOfLenient(d: Octets)
    requires |d| >= 20 && HasCookie(d) && ScanMessage(d).Some?
    ensures var (m, unread) := ScanMessage(d).value;
            Covered(Scan(m.attributes, unread), LenientFrom(d, 20, 20 + U16At(d, 2)))
  {
    StrictWithinLenient(d, 20, 20 + U16At(d, 2), ScanAttributes(d[20..20 + U16At(d, 2)]).value);
  }
}
