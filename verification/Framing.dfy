/**
 * Framing of STUN messages and ChannelData on TCP and TLS streams (src/server.rs): the writer pads
 * ChannelData to four octets, the reader cuts one frame at a time off a growing buffer.
 */
module Framing {
  import opened Bytes

  predicate IsChannelNumber(n: u16) {
    0x4000 <= n <= 0x7FFF
  }

  predicate IsChannelData(d: Octets) {
    |d| >= 4 && IsChannelNumber(U16At(d, 0))
  }

  /** Length of the frame at the head of the buffer, once enough of it is there to tell. */
  function FrameLength(buf: Octets): (n: Option<nat>)
    ensures n.Some? ==> 4 <= n.value <= 65555
  {
    if |buf| < 4 then None
    else if IsChannelNumber(U16At(buf, 0)) then Some(4 + Pad4(U16At(buf, 2)))
    else if |buf| < 20 then None
    else Some(20 + U16At(buf, 2))
  }

  /** `extract_stream_frame`: the frame split off and the buffer that stays. */
  function Extract(buf: Octets): (r: Option<(Octets, Octets)>)
    ensures r.Some? ==> r.value.0 + r.value.1 == buf && |r.value.0| >= 4
  {
    match FrameLength(buf)
    case None => None
    case Some(n) => if |buf| < n then None else Some((buf[..n], buf[n..]))
  }

  /** All frames a drained buffer yields, and the leftover. */
  datatype Drained = Drained(frames: seq<Octets>, rest: Octets)

  function Drain(buf: Octets): Drained
    decreases |buf|
  {
    match Extract(buf)
    case None => Drained([], buf)
    case Some((frame, rest)) =>
      var d := Drain(rest);
      Drained([frame] + d.frames, d.rest)
  }

  /** The stream buffer of one connection, as the read loop of `run_tcp` keeps it. */
  class StreamBuffer {
    var buf: Octets

    constructor ()
      ensures buf == []
    {
      buf := [];
    }

    /** `extract_stream_frame` splits the head frame off in place. */
    method ExtractFrame() returns (frame: Option<Octets>)
      modifies this
      ensures frame.Some? <==> old(Extract(buf)).Some?
      ensures frame.None? ==> buf == old(buf)
      ensures frame.Some? ==> (frame.value, buf) == old(Extract(buf)).value
    {
      if |buf| < 4 {
        return None;
      }
      var payloadLen: nat := U16At(buf, 2);
      var frameLen: nat;
      if IsChannelNumber(U16At(buf, 0)) {
        frameLen := 4 + Pad4(payloadLen);
      } else {
        if |buf| < 20 {
          return None;
        }
        frameLen := 20 + payloadLen;
      }
      if |buf| < frameLen {
        return None;
      }
      frame := Some(buf[..frameLen]);
      buf := buf[frameLen..];
    }

    /** One read: append the octets, then extract until no whole frame is left. */
    method Receive(chunk: Octets) returns (frames: seq<Octets>)
      modifies this
      ensures Drained(frames, buf) == Drain(old(buf) + chunk)
      ensures |buf| < 65555
    {
      buf := buf + chunk;
      frames := [];
      ghost var goal := Drain(buf);
      PrefixedIdentities([], [], goal);
      var more := true;
      while more
        invariant goal == Prefixed(frames, Drain(buf))
        invariant !more ==> Extract(buf).None?
        decreases more, |buf|
      {
        var frame := ExtractFrame();
        if frame.Some? {
          PrefixedIdentities(frames, frame.value, Drain(buf));
          frames := frames + [frame.value];
        } else {
          more := false;
        }
      }
      assert frames + [] == frames;
    }
  }

  function Prefixed(frames: seq<Octets>, d: Drained): Drained {
    Drained(frames + d.frames, d.rest)
  }

  lemma PrefixedIdentities(frames: seq<Octets>, frame: Octets, d: Drained)
    ensures Prefixed([], d) == d
    ensures Prefixed(frames, Prefixed([frame], d)) == Prefixed(frames + [frame], d)
  {
    assert [] + d.frames == d.frames;
    Regroup(frames, [frame], d.frames);
  }

  // ---------------------------------------------------------------- chunking does not matter

  /** A frame found in a buffer is found unchanged when more octets follow. */
  lemma ExtractLonger(buf: Octets, more: Octets)
    requires Extract(buf).Some?
    ensures Extract(buf + more) == Some((Extract(buf).value.0, Extract(buf).value.1 + more))
  {
    assert U16At(buf + more, 0) == U16At(buf, 0) && U16At(buf + more, 2) == U16At(buf, 2);
    var n := FrameLength(buf).value;
    assert FrameLength(buf + more) == Some(n);
    assert (buf + more)[..n] == buf[..n] && (buf + more)[n..] == buf[n..] + more;
  }

  /** Draining, then draining again once more octets have come, is draining everything at once. */
  lemma {:induction false} DrainInTwo(buf: Octets, more: Octets)
    ensures Drain(buf + more) == Prefixed(Drain(buf).frames, Drain(Drain(buf).rest + more))
    decreases |buf|
  {
    if Extract(buf).None? {
      PrefixedIdentities([], [], Drain(buf + more));
    } else {
      var (frame, rest) := Extract(buf).value;
      ExtractLonger(buf, more);
      DrainInTwo(rest, more);
      Regroup([frame], Drain(rest).frames, Drain(Drain(rest).rest + more).frames);
    }
  }

  function Joined(parts: seq<Octets>): Octets {
    if parts == [] then [] else parts[0] + Joined(parts[1..])
  }

  /** What a connection delivers over a run of reads, starting from the octets already buffered. */
  function ReceiveAll(buf: Octets, chunks: seq<Octets>): Drained
    decreases |chunks|
  {
    if chunks == [] then Drained([], buf)
    else
      var d := Drain(buf + chunks[0]);
      Prefixed(d.frames, ReceiveAll(d.rest, chunks[1..]))
  }

  /** However the stream is cut into reads, the frames delivered and the leftover are the same. */
  lemma {:induction false} ChunkingIrrelevant(buf: Octets, chunks: seq<Octets>)
    requires Extract(buf).None?
    ensures ReceiveAll(buf, chunks) == Drain(buf + Joined(chunks))
    decreases |chunks|
  {
    if chunks == [] {
      assert buf + [] == buf;
    } else {
      var head, tail := chunks[0], Joined(chunks[1..]);
      Regroup(buf, head, tail);
      DrainInTwo(buf + head, tail);
      DrainLeavesNoFrame(buf + head);
      ChunkingIrrelevant(Drain(buf + head).rest, chunks[1..]);
    }
  }

  lemma {:induction false} DrainLeavesNoFrame(buf: Octets)
    ensures Extract(Drain(buf).rest).None? && |Drain(buf).rest| < 65555
    ensures Joined(Drain(buf).frames) + Drain(buf).rest == buf
    decreases |buf|
  {
    if Extract(buf).Some? {
      var (frame, rest) := Extract(buf).value;
      DrainLeavesNoFrame(rest);
      var d := Drain(rest);
      assert ([frame] + d.frames)[1..] == d.frames;
      Regroup(frame, Joined(d.frames), d.rest);
    }
  }

  // ---------------------------------------------------------------- the writer

  /** `missing_stream_channel_padding`. */
  function MissingPadding(d: Octets): (n: nat)
    ensures n <= 3
  {
    if |d| < 4 || !IsChannelNumber(U16At(d, 0)) || |d| < 4 + U16At(d, 2) then 0
    else if |d| < 4 + Pad4(U16At(d, 2)) then 4 + Pad4(U16At(d, 2)) - |d|
    else 0
  }

  /** The octets `write_stream_frame` puts on the stream. */
  function WriteFrame(d: Octets): Octets {
    d + Zeros(MissingPadding(d))
  }

  /** A whole STUN message, or ChannelData with at most its own padding behind the payload. */
  predicate WellFormed(d: Octets) {
    if IsChannelData(d) then 4 + U16At(d, 2) <= |d| <= 4 + Pad4(U16At(d, 2))
    else |d| >= 20 && |d| == 20 + U16At(d, 2)
  }

  lemma WrittenIsExtracted(d: Octets, more: Octets)
    requires WellFormed(d)
    ensures Extract(WriteFrame(d) + more) == Some((WriteFrame(d), more))
  {
    var w := WriteFrame(d) + more;
    assert U16At(w, 0) == U16At(d, 0) && U16At(w, 2) == U16At(d, 2);
    assert FrameLength(w) == Some(|WriteFrame(d)|);
    assert w[..|WriteFrame(d)|] == WriteFrame(d) && w[|WriteFrame(d)|..] == more;
  }

  function Written(ds: seq<Octets>): seq<Octets> {
    seq(|ds|, i requires 0 <= i < |ds| => WriteFrame(ds[i]))
  }

  lemma {:induction false} DrainWritten(ds: seq<Octets>)
    requires forall d <- ds :: WellFormed(d)
    ensures Drain(Joined(Written(ds))) == Drained(Written(ds), [])
  {
    if ds != [] {
      var w := Written(ds);
      assert w[1..] == Written(ds[1..]);
      WrittenIsExtracted(ds[0], Joined(w[1..]));
      DrainWritten(ds[1..]);
      assert [w[0]] + w[1..] == w;
    }
  }

  /**
   * Section 11.5 of RFC 5766: every list of well-formed frames put on a stream by the writer is read back
   * by the drain loop in order, padded and with nothing left over, whatever the reads look like.
   */
  lemma StreamDeliversWrittenFrames(ds: seq<Octets>, chunks: seq<Octets>)
    requires forall d <- ds :: WellFormed(d)
    requires Joined(chunks) == Joined(Written(ds))
    ensures ReceiveAll([], chunks) == Drained(Written(ds), [])
  {
    ChunkingIrrelevant([], chunks);
    assert [] + Joined(chunks) == Joined(chunks);
    DrainWritten(ds);
  }
}
