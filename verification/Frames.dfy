/** Framed messages over a byte stream that sends and receives in arbitrary pieces. */
module Frames {
  import opened Basics
  import opened Checksums
  import opened Codecs

  const FRAME_MAGIC := 0x5447_564E
  const FRAME_VERSION := 1
  const MAX_FRAME := 512 * 1024
  const FRAME_HEADER := 14

  function FrameHeader(payload: seq<byte>): (r: seq<byte>)
    ensures |r| == FRAME_HEADER
  {
    LittleEndian(FRAME_MAGIC, 4) + LittleEndian(FRAME_VERSION, 2) + LittleEndian(|payload|, 4) + CrcBytes(Crc(payload))
  }

  function FrameOf(payload: seq<byte>): seq<byte> {
    FrameHeader(payload) + payload
  }

  function FramesOf(payloads: seq<seq<byte>>): seq<byte> {
    if payloads == [] then [] else FrameOf(payloads[0]) + FramesOf(payloads[1..])
  }

  predicate GoodHeader(h: seq<byte>)
    requires |h| == FRAME_HEADER
  {
    Unsigned(h[..4]) == FRAME_MAGIC && Unsigned(h[4..6]) == FRAME_VERSION && Unsigned(h[6..10]) <= MAX_FRAME
  }

  /** The first frame of a stream and the bytes after it. */
  function ParseFrame(s: seq<byte>): Option<(seq<byte>, seq<byte>)> {
    if |s| < FRAME_HEADER || !GoodHeader(s[..FRAME_HEADER]) then None
    else
      var len := Unsigned(s[6..10]);
      if |s| < FRAME_HEADER + len then None
      else
        var payload := s[FRAME_HEADER..FRAME_HEADER + len];
        if Crc(payload) != CrcOf(s[10..14]) then None else Some((payload, s[FRAME_HEADER + len..]))
  }

  function ParseFrames(s: seq<byte>, n: nat): Option<(seq<seq<byte>>, seq<byte>)> {
    if n == 0 then Some(([], s))
    else match ParseFrame(s)
      case None => None
      case Some((payload, rest)) =>
        match ParseFrames(rest, n - 1)
        case None => None
        case Some((more, end)) => Some(([payload] + more, end))
  }

  lemma FourPieces(a: seq<byte>, b: seq<byte>, c: seq<byte>, d: seq<byte>, e: seq<byte>)
    requires |a| == 4 && |b| == 2 && |c| == 4 && |d| == 4
    ensures var s := (a + b + c + d) + e;
      && s[..14][..4] == a && s[..14][4..6] == b && s[..14][6..10] == c && s[6..10] == c && s[10..14] == d
        && s[14..] == e
  {
  }

  /** The header of a payload in front of any bytes announces the payload's length and
      checksum. */
  lemma HeaderReads(payload: seq<byte>, after: seq<byte>)
    requires |payload| <= MAX_FRAME
    ensures var s := FrameHeader(payload) + after;
      && GoodHeader(s[..FRAME_HEADER]) && Unsigned(s[6..10]) == |payload| && CrcOf(s[10..14]) == Crc(payload)
      && s[FRAME_HEADER..] == after
  {
    FourPieces(LittleEndian(FRAME_MAGIC, 4), LittleEndian(FRAME_VERSION, 2), LittleEndian(|payload|, 4),
      CrcBytes(Crc(payload)), after);
    Powers();
    LittleEndianValue(FRAME_MAGIC, 4);
    LittleEndianValue(FRAME_VERSION, 2);
    LittleEndianValue(|payload|, 4);
    CrcRoundTrip(Crc(payload));
  }

  lemma ParseOwnFrame(payload: seq<byte>, rest: seq<byte>)
    requires |payload| <= MAX_FRAME
    ensures ParseFrame(FrameOf(payload) + rest) == Some((payload, rest))
  {
    hide GoodHeader, FrameHeader, Crc, CrcOf, Unsigned;
    HeaderReads(payload, payload + rest);
    var s := FrameHeader(payload) + (payload + rest);
    assert FrameOf(payload) + rest == s;
    assert s[FRAME_HEADER..FRAME_HEADER + |payload|] == s[FRAME_HEADER..][..|payload|] == payload;
    assert s[FRAME_HEADER + |payload|..] == s[FRAME_HEADER..][|payload|..] == rest;
  }

  /** Any list of payloads within the limit comes back exactly, in order, and the reader
      stops where the next frame would start. */
  lemma {:induction false} FramesRoundTrip(payloads: seq<seq<byte>>, rest: seq<byte>)
    requires forall i :: 0 <= i < |payloads| ==> |payloads[i]| <= MAX_FRAME
    ensures ParseFrames(FramesOf(payloads) + rest, |payloads|) == Some((payloads, rest))
  {
    hide ParseFrame, FrameOf;
    if payloads == [] {
      assert [] + rest == rest;
    } else {
      FramesRoundTrip(payloads[1..], rest);
      ParseOwnFrame(payloads[0], FramesOf(payloads[1..]) + rest);
      assert FramesOf(payloads) + rest == FrameOf(payloads[0]) + (FramesOf(payloads[1..]) + rest);
      assert [payloads[0]] + payloads[1..] == payloads;
    }
  }

  /** A frame whose payload was altered in up to four consecutive bytes is refused. */
  lemma AlteredFrameRefused(before: seq<byte>, x: seq<byte>, y: seq<byte>, after: seq<byte>, rest: seq<byte>)
    requires |x| == |y| <= 4 && x != y && |before + x + after| <= MAX_FRAME
    ensures ParseFrame(FrameHeader(before + x + after) + ((before + y + after) + rest)) == None
  {
    hide GoodHeader, FrameHeader, Crc, CrcOf, Unsigned;
    var sent, got := before + x + after, before + y + after;
    HeaderReads(sent, got + rest);
    BurstDetected(before, x, y, after);
    var s := FrameHeader(sent) + (got + rest);
    assert s[FRAME_HEADER..FRAME_HEADER + |sent|] == s[FRAME_HEADER..][..|sent|] == got;
  }

  // ---- what a broken connection can deliver -----------------------------------------------

  predicate IsPrefix<T(==)>(a: seq<T>, b: seq<T>) {
    |a| <= |b| && b[..|a|] == a
  }

  /** A stream that starts like a frame parses to that frame or not at all. */
  lemma PrefixOfFrame(payload: seq<byte>, rest: seq<byte>, got: seq<byte>)
    requires |payload| <= MAX_FRAME && IsPrefix(got, FrameOf(payload) + rest)
    ensures ParseFrame(got).Some? ==>
      ParseFrame(got).value.0 == payload && IsPrefix(ParseFrame(got).value.1, rest)
  {
    hide GoodHeader, FrameHeader, Crc, CrcOf, Unsigned;
    var all := FrameHeader(payload) + (payload + rest);
    assert FrameOf(payload) + rest == all;
    HeaderReads(payload, payload + rest);
    if |got| >= FRAME_HEADER {
      assert got[..FRAME_HEADER] == all[..FRAME_HEADER] && got[6..10] == all[6..10];
      var end := FRAME_HEADER + |payload|;
      if |got| >= end {
        assert all[FRAME_HEADER..end] == all[FRAME_HEADER..][..|payload|] == payload;
        assert got[FRAME_HEADER..end] == all[FRAME_HEADER..end];
        assert all[end..] == all[FRAME_HEADER..][|payload|..] == rest;
        assert all[end..][..|got| - end] == got[end..];
      }
    }
  }

  /** Whatever part of a series of frames has arrived: frames parsed out of it are the first
      payloads, unaltered and in order. */
  lemma {:induction false} PrefixOfFrames(payloads: seq<seq<byte>>, got: seq<byte>, n: nat)
    requires forall i :: 0 <= i < |payloads| ==> |payloads[i]| <= MAX_FRAME
    requires IsPrefix(got, FramesOf(payloads)) && ParseFrames(got, n).Some?
    ensures IsPrefix(ParseFrames(got, n).value.0, payloads) && |ParseFrames(got, n).value.0| == n
    decreases n
  {
    hide ParseFrame, FrameOf;
    if n > 0 {
      var first := ParseFrame(got).value;
      if payloads == [] {
        ShortStream(got);
      } else {
        PrefixOfFrame(payloads[0], FramesOf(payloads[1..]), got);
        PrefixOfFrames(payloads[1..], first.1, n - 1);
        var more := ParseFrames(first.1, n - 1).value.0;
        assert payloads == [payloads[0]] + payloads[1..];
        assert ([payloads[0]] + payloads[1..])[..n] == [payloads[0]] + payloads[1..][..n - 1];
      }
    }
  }

  lemma ShortStream(s: seq<byte>)
    ensures |s| < FRAME_HEADER ==> ParseFrame(s).None?
  {
  }

  // ---- the socket and the loops around it --------------------------------------------------

  /** One direction of a connection: the bytes on their way, and whether it has failed. It may
      fail at any call, so that what is on its way can end inside a frame. */
  class Stream {
    var pending: seq<byte>
    var broken: bool

    constructor ()
      ensures pending == [] && !broken
    {
      pending, broken := [], false;
    }

    /** Takes some of the bytes, or none and fails. */
    method Send(data: seq<byte>) returns (sent: nat)
      requires data != []
      modifies this
      ensures sent <= |data| && pending == old(pending) + data[..sent]
      ensures (sent == 0 <==> broken) && (old(broken) ==> broken)
    {
      var fails: bool := *;
      if broken || fails {
        broken := true;
        assert pending + data[..0] == pending;
        return 0;
      }
      sent :| 1 <= sent <= |data|;
      pending := pending + data[..sent];
    }

    /** Hands over some of the pending bytes; or none, and fails or has nothing more to come. */
    method Recv(n: nat) returns (chunk: seq<byte>)
      requires n > 0
      modifies this
      ensures |chunk| <= n && old(pending) == chunk + pending
      ensures (chunk == [] <==> broken || old(pending) == []) && (old(broken) ==> broken)
    {
      var fails: bool := *;
      if broken || fails {
        broken := true;
        return [];
      }
      if pending == [] {
        return [];
      }
      var k :| 1 <= k <= n && k <= |pending|;
      chunk := pending[..k];
      pending := pending[k..];
    }
  }

  /** Sends everything, or fails after some strict part of it. */
  method SendAll(s: Stream, data: seq<byte>) returns (ok: bool, ghost sent: nat)
    modifies s
    ensures ok <==> data == [] || !s.broken
    ensures sent <= |data| && (ok <==> sent == |data|) && s.pending == old(s.pending) + data[..sent]
    ensures old(s.broken) ==> s.broken && (data != [] ==> sent == 0)
  {
    var off := 0;
    while off < |data|
      invariant 0 <= off <= |data|
      invariant s.pending == old(s.pending) + data[..off]
      invariant s.broken <==> old(s.broken)
      invariant s.broken ==> off == 0
    {
      var r := s.Send(data[off..]);
      if r == 0 {
        assert data[off..][..0] == [];
        return false, off;
      }
      assert data[..off] + data[off..][..r] == data[..off + r];
      off := off + r;
    }
    return true, off;
  }

  /** Receives exactly n bytes, or fails because the connection does or the bytes run out. */
  method RecvExact(s: Stream, n: nat) returns (ok: bool, data: seq<byte>)
    modifies s
    ensures ok <==> n == 0 || (!s.broken && |old(s.pending)| >= n)
    ensures old(s.pending) == data + s.pending && (ok <==> |data| == n) && |data| <= n
    ensures (old(s.broken) ==> s.broken) && (ok ==> s.broken == old(s.broken))
  {
    data := [];
    while |data| < n
      invariant |data| <= n
      invariant old(s.pending) == data + s.pending
      invariant s.broken <==> old(s.broken)
      invariant s.broken ==> data == []
      decreases n - |data|
    {
      var chunk := s.Recv(n - |data|);
      if chunk == [] {
        return false, data;
      }
      data := data + chunk;
    }
    return true, data;
  }

  /** Sends one frame, or fails leaving on its way nothing (error 1), a part of the header
      (error 2), or the header and a part of the payload (error 3). */
  method SendFrame(s: Stream, payload: seq<byte>) returns (ok: bool, sendErr: nat, ghost sent: nat)
    modifies s
    ensures ok <==> |payload| <= MAX_FRAME && !s.broken
    ensures sent <= |FrameOf(payload)| && s.pending == old(s.pending) + FrameOf(payload)[..sent]
    ensures ok <==> sent == |FrameOf(payload)|
    ensures sendErr == (if ok then 0 else if |payload| > MAX_FRAME then 1 else if sent < FRAME_HEADER then 2 else 3)
    ensures |payload| > MAX_FRAME ==> sent == 0 && s.broken == old(s.broken)
    ensures old(s.broken) ==> s.broken
  {
    hide Crc, LittleEndian;
    if |payload| > MAX_FRAME {
      assert FrameOf(payload)[..0] == [];
      return false, 1, 0;
    }
    var crc := Crc32(payload);
    var header := LittleEndian(FRAME_MAGIC, 4) + LittleEndian(FRAME_VERSION, 2) + LittleEndian(|payload|, 4)
      + CrcBytes(crc);
    assert header == FrameHeader(payload);
    var headed, k := SendAll(s, header);
    assert FrameOf(payload)[..k] == header[..k];
    if !headed {
      return false, 2, k;
    }
    if payload != [] {
      var rest, m := SendAll(s, payload);
      assert header[..k] + payload[..m] == FrameOf(payload)[..k + m];
      if !rest {
        return false, 3, k + m;
      }
      return true, 0, k + m;
    }
    return true, 0, k;
  }

  /** Receives the first pending frame, whatever pieces it arrives in, and fails exactly when
      the connection fails or the pending bytes do not start with a frame. */
  method RecvFrame(s: Stream) returns (ok: bool, payload: seq<byte>)
    modifies s
    ensures ok <==> !s.broken && ParseFrame(old(s.pending)).Some?
    ensures ok ==> ParseFrame(old(s.pending)).value == (payload, s.pending)
    ensures old(s.broken) ==> s.broken
  {
    hide Crc, CrcOf, Unsigned;
    payload := [];
    ghost var all := s.pending;
    var got, header := RecvExact(s, FRAME_HEADER);
    if !got {
      return false, payload;
    }
    assert all[..FRAME_HEADER] == header && all[FRAME_HEADER..] == s.pending;
    assert header[6..10] == all[6..10] && header[10..14] == all[10..14];
    if Unsigned(header[..4]) != FRAME_MAGIC {
      return false, payload;
    }
    if Unsigned(header[4..6]) != FRAME_VERSION {
      return false, payload;
    }
    var len := Unsigned(header[6..10]);
    if len > MAX_FRAME {
      return false, payload;
    }
    var received, body := RecvExact(s, len);
    if !received {
      return false, payload;
    }
    payload := body;
    assert all[FRAME_HEADER..][..len] == payload && all[FRAME_HEADER..][len..] == s.pending;
    assert all[FRAME_HEADER..FRAME_HEADER + len] == all[FRAME_HEADER..][..len];
    assert all[FRAME_HEADER + len..] == all[FRAME_HEADER..][len..];
    var crc := Crc32(payload);
    ok := crc == CrcOf(header[10..14]);
  }

  lemma {:induction false} OneMoreFrame(payloads: seq<seq<byte>>, payload: seq<byte>)
    ensures FramesOf(payloads + [payload]) == FramesOf(payloads) + FrameOf(payload)
  {
    hide FrameOf;
    if payloads == [] {
      assert [] + [payload] == [payload];
    } else {
      OneMoreFrame(payloads[1..], payload);
      assert (payloads + [payload])[1..] == payloads[1..] + [payload];
    }
  }

  lemma PartOfNext(payloads: seq<seq<byte>>, k: nat, sent: nat)
    requires k < |payloads| && sent <= |FrameOf(payloads[k])|
    ensures IsPrefix(FramesOf(payloads[..k]) + FrameOf(payloads[k])[..sent], FramesOf(payloads))
    decreases k
  {
    hide FrameOf;
    if k == 0 {
      assert FramesOf(payloads[..0]) == [];
    } else {
      PartOfNext(payloads[1..], k - 1, sent);
      assert payloads[1..][..k - 1] == payloads[..k][1..];
    }
  }

  /** Sends the payloads one after the other until one fails; what is on its way is always a
      prefix of their frames. */
  method SendFrames(s: Stream, payloads: seq<seq<byte>>) returns (ok: bool)
    requires s.pending == []
    requires forall i :: 0 <= i < |payloads| ==> |payloads[i]| <= MAX_FRAME
    modifies s
    ensures IsPrefix(s.pending, FramesOf(payloads))
    ensures ok <==> payloads == [] || !s.broken
    ensures ok ==> s.pending == FramesOf(payloads)
  {
    hide FrameOf;
    for i := 0 to |payloads|
      invariant s.pending == FramesOf(payloads[..i]) && (i > 0 ==> !s.broken)
    {
      var sent, _, k := SendFrame(s, payloads[i]);
      if !sent {
        PartOfNext(payloads, i, k);
        return false;
      }
      OneMoreFrame(payloads[..i], payloads[i]);
      assert payloads[..i + 1] == payloads[..i] + [payloads[i]];
      assert FrameOf(payloads[i])[..k] == FrameOf(payloads[i]);
    }
    assert payloads[..|payloads|] == payloads;
    return true;
  }

  /** Receives frames until one fails, at most n. Whatever part of a series of frames was on
      its way and wherever the connection fails, the frames accepted are the first payloads. */
  method RecvFrames(s: Stream, n: nat, ghost payloads: seq<seq<byte>>) returns (received: seq<seq<byte>>)
    requires forall i :: 0 <= i < |payloads| ==> |payloads[i]| <= MAX_FRAME
    requires IsPrefix(s.pending, FramesOf(payloads))
    modifies s
    ensures IsPrefix(received, payloads) && (old(s.broken) ==> s.broken)
    ensures !s.broken && old(s.pending) == FramesOf(payloads) && n >= |payloads| ==> received == payloads
  {
    hide FrameOf, ParseFrame;
    received := [];
    ghost var whole := s.pending == FramesOf(payloads);
    for i := 0 to n
      invariant i <= |payloads| && received == payloads[..i] && IsPrefix(s.pending, FramesOf(payloads[i..]))
      invariant whole ==> s.pending == FramesOf(payloads[i..])
      invariant old(s.broken) ==> s.broken
    {
      if i < |payloads| {
        ghost var after := FramesOf(payloads[i + 1..]);
        assert payloads[i..][1..] == payloads[i + 1..];
        PrefixOfFrame(payloads[i], after, s.pending);
        ParseOwnFrame(payloads[i], after);
      } else {
        ShortStream(s.pending);
      }
      var ok, payload := RecvFrame(s);
      if !ok {
        return;
      }
      received := received + [payload];
    }
  }

  /** Payloads sent over a connection that may fail at any byte on either side: what is accepted
      is an initial part of them, unaltered and in order, and all of them unless it failed. */
  method Deliver(s: Stream, payloads: seq<seq<byte>>) returns (received: seq<seq<byte>>)
    requires s.pending == []
    requires forall i :: 0 <= i < |payloads| ==> |payloads[i]| <= MAX_FRAME
    modifies s
    ensures IsPrefix(received, payloads)
    ensures !s.broken ==> received == payloads
  {
    hide FrameOf, ParseFrame;
    var _ := SendFrames(s, payloads);
    received := RecvFrames(s, |payloads|, payloads);
  }
}
