/** Length-prefixed frames on byte streams: one datagram per u16 frame on the data plane, one
    message per u32 frame on the control plane. */
module Framing {
  import opened Basics
  import opened ByteStream

  const MAX_DATAGRAM: nat := 65_535
  const MAX_CONTROL_MSG: nat := 64 * 1024

  // ---------------------------------------------------------------------------
  // Datagrams
  // ---------------------------------------------------------------------------

  predicate FitsDatagram(p: bytes) {
    |p| <= MAX_DATAGRAM
  }

  function EncodeDatagram(p: bytes): bytes
    requires FitsDatagram(p)
  {
    U16Le(|p|) + p
  }

  function EncodeDatagrams(ps: seq<bytes>): bytes
    requires forall p | p in ps :: FitsDatagram(p)
  {
    if ps == [] then [] else EncodeDatagram(ps[0]) + EncodeDatagrams(ps[1..])
  }

  /** The first whole frame of a stream and what follows it. */
  function DecodeDatagram(s: bytes): (r: Option<(bytes, bytes)>)
    ensures r.Some? ==> |r.value.1| < |s|
  {
    if |s| < 2 then None
    else
      var len := FromU16Le(s[0], s[1]);
      if |s| < 2 + len then None else Some((s[2..2 + len], s[2 + len..]))
  }

  /** Every whole frame of a stream. */
  function DecodeDatagrams(s: bytes): seq<bytes>
    decreases |s|
  {
    match DecodeDatagram(s)
    case None => []
    case Some((p, rest)) => [p] + DecodeDatagrams(rest)
  }

  /** `write_datagram`: refuses payloads that the prefix cannot express, before writing. */
  method WriteDatagram(send: SendStream, payload: bytes) returns (ok: bool)
    modifies send
    ensures !FitsDatagram(payload) ==>
              !ok && send.written == old(send.written) && send.budget == old(send.budget)
    ensures FitsDatagram(payload) ==>
              var frame := EncodeDatagram(payload);
              var n := Min(|frame|, old(send.budget));
              && (ok <==> n == |frame|)
              && send.written == old(send.written) + frame[..n]
              && send.budget == old(send.budget) - n
  {
    if |payload| > 0xFFFF {
      return false;
    }
    ghost var frame := EncodeDatagram(payload);
    ok := send.WriteAll(U16Le(|payload|));
    if ok {
      ok := send.WriteAll(payload);
      ghost var n := Min(|frame|, old(send.budget));
      assert frame[..n] == frame[..2] + payload[..n - 2];
    } else {
      assert U16Le(|payload|)[..old(send.budget)] == frame[..old(send.budget)];
    }
  }

  datatype ReadError = Truncated | ExceedsBuffer

  /** `read_datagram` into a buffer of `capacity` bytes. */
  method ReadDatagram(recv: RecvStream, capacity: nat) returns (r: Result<bytes, ReadError>)
    modifies recv
    ensures r.Ok? ==> DecodeDatagram(old(recv.Unread())) == Some((r.value, recv.Unread()))
    ensures r.Err? && r.error.Truncated? ==> DecodeDatagram(old(recv.Unread())).None?
    ensures r.Err? && r.error.ExceedsBuffer? ==> capacity < 65_535
  {
    ghost var s := recv.Unread();
    var prefix := recv.ReadExact(2);
    if prefix.None? {
      return Err(Truncated);
    }
    var len := FromU16Le(prefix.value[0], prefix.value[1]);
    if len > capacity {
      return Err(ExceedsBuffer);
    }
    var body := recv.ReadExact(len);
    if body.None? {
      return Err(Truncated);
    }
    assert s[2..][..len] == s[2..2 + len] && s[2..][len..] == s[2 + len..];
    r := Ok(body.value);
  }

  /** The stream-to-socket pump: re-emits datagrams until the stream ends or breaks off. */
  method PumpStreamToSocket(recv: RecvStream) returns (emitted: seq<bytes>)
    modifies recv
    ensures emitted == DecodeDatagrams(old(recv.Unread()))
  {
    emitted := [];
    while true
      invariant DecodeDatagrams(old(recv.Unread())) == emitted + DecodeDatagrams(recv.Unread())
      decreases |recv.Unread()|
    {
      ghost var before, s := emitted, recv.Unread();
      var r := ReadDatagram(recv, MAX_DATAGRAM);
      if r.Err? {
        assert DecodeDatagrams(s) == [];
        return;
      }
      emitted := emitted + [r.value];
      assert before + ([r.value] + DecodeDatagrams(recv.Unread())) ==
             emitted + DecodeDatagrams(recv.Unread());
    }
  }

  /** The bytes that a transport with room for `n` takes of a run of frames. */
  function Taken(ps: seq<bytes>, n: nat): bytes
    requires forall p | p in ps :: FitsDatagram(p)
  {
    EncodeDatagrams(ps)[..Min(|EncodeDatagrams(ps)|, n)]
  }

  lemma TakenStep(ps: seq<bytes>, n: nat)
    requires ps != [] && (forall p | p in ps :: FitsDatagram(p))
    ensures var frame := EncodeDatagram(ps[0]);
      if n < |frame| then Taken(ps, n) == frame[..n] && WholeFrames(ps, n) == 0
      else
        && Taken(ps, n) == frame + Taken(ps[1..], n - |frame|)
        && WholeFrames(ps, n) == 1 + WholeFrames(ps[1..], n - |frame|)
  {
    var frame, tail := EncodeDatagram(ps[0]), EncodeDatagrams(ps[1..]);
    var k := Min(|frame + tail|, n);
    if n < |frame| {
      assert (frame + tail)[..n] == frame[..n];
    } else {
      assert (frame + tail)[..k] == frame + tail[..k - |frame|];
    }
  }

  /** The payloads that came from `peer`, in order of arrival. */
  function FromPeer<A(==)>(arrivals: seq<(A, bytes)>, peer: A): seq<bytes> {
    if arrivals == [] then []
    else (if arrivals[0].0 == peer then [arrivals[0].1] else []) + FromPeer(arrivals[1..], peer)
  }

  lemma {:induction false} FromPeerFits<A>(arrivals: seq<(A, bytes)>, peer: A)
    requires forall a | a in arrivals :: FitsDatagram(a.1)
    ensures forall p | p in FromPeer(arrivals, peer) :: FitsDatagram(p)
  {
    if arrivals != [] {
      assert arrivals[0] in arrivals;
      FromPeerFits(arrivals[1..], peer);
    }
  }

  /** Of the frames of `ps` for a transport with room for `n`, `sent` went out and made it
      `written`; those of `rest` have the room `m` left. */
  ghost predicate Sending(ps: seq<bytes>, n: nat, sent: nat, written: bytes, rest: seq<bytes>, m: nat) {
    && (forall p | p in ps :: FitsDatagram(p)) && (forall p | p in rest :: FitsDatagram(p))
    && Taken(ps, n) == written + Taken(rest, m)
    && WholeFrames(ps, n) == sent + WholeFrames(rest, m)
  }

  lemma SendingStep(ps: seq<bytes>, n: nat, sent: nat, written: bytes, rest: seq<bytes>, m: nat)
    requires Sending(ps, n, sent, written, rest, m) && rest != []
    ensures FitsDatagram(rest[0])
    ensures var frame := EncodeDatagram(rest[0]);
      if m < |frame| then Sending(ps, n, sent, written + frame[..m], [], 0)
      else Sending(ps, n, sent + 1, written + frame, rest[1..], m - |frame|)
  {
    TakenStep(rest, m);
    var frame := EncodeDatagram(rest[0]);
    if m >= |frame| {
      assert written + (frame + Taken(rest[1..], m - |frame|)) == written + frame + Taken(rest[1..], m - |frame|);
    }
  }

  /** Writes the next frame of a run. */
  method WriteNext(send: SendStream, ghost start: bytes, ghost ps: seq<bytes>, ghost n: nat,
                   ghost sent: nat, ghost out: bytes, ghost rest: seq<bytes>, payload: bytes)
    returns (ok: bool, ghost out': bytes)
    requires send.written == start + out && rest != [] && rest[0] == payload
    requires Sending(ps, n, sent, out, rest, send.budget)
    modifies send
    ensures send.written == start + out'
    ensures if ok then Sending(ps, n, sent + 1, out', rest[1..], send.budget)
            else out' == Taken(ps, n) && sent == WholeFrames(ps, n)
  {
    SendingStep(ps, n, sent, out, rest, send.budget);
    ghost var frame, m := EncodeDatagram(payload), send.budget;
    ok := WriteDatagram(send, payload);
    out' := out + frame[..Min(|frame|, m)];
    if ok {
      assert frame[..|frame|] == frame;
    } else {
      assert Taken([], 0) == [];
    }
  }

  /** The socket-to-stream pump on a given run of arrivals: skips those that are not from
      `peer` and stops at the first failed write. `sent` counts the frames that went out. */
  method PumpSocketToStream<A(==)>(send: SendStream, arrivals: seq<(A, bytes)>, peer: A) returns (sent: nat)
    requires forall a | a in arrivals :: FitsDatagram(a.1)
    modifies send
    ensures forall p | p in FromPeer(arrivals, peer) :: FitsDatagram(p)
    ensures send.written == old(send.written) + Taken(FromPeer(arrivals, peer), old(send.budget))
    ensures sent == WholeFrames(FromPeer(arrivals, peer), old(send.budget))
  {
    sent := 0;
    var i := 0;
    ghost var start, n, ps := send.written, send.budget, FromPeer(arrivals, peer);
    ghost var rest, out := ps, [];
    FromPeerFits(arrivals, peer);
    assert arrivals[0..] == arrivals;
    while i < |arrivals|
      invariant 0 <= i <= |arrivals| && rest == FromPeer(arrivals[i..], peer)
      invariant Sending(ps, n, sent, out, rest, send.budget)
      invariant send.written == start + out
    {
      assert arrivals[i..][1..] == arrivals[i + 1..];
      if arrivals[i].0 == peer {
        var ok;
        ok, out := WriteNext(send, start, ps, n, sent, out, rest, arrivals[i].1);
        if !ok {
          return;
        }
        rest := rest[1..];
        sent := sent + 1;
      }
      i := i + 1;
    }
  }

  lemma EncodedLength(p: bytes)
    requires FitsDatagram(p)
    ensures var f := EncodeDatagram(p);
      |f| == 2 + |p| && FromU16Le(f[0], f[1]) == |p| && f[2..] == p
  {
  }

  /** A whole frame in front of any bytes is read exactly. */
  lemma DecodeOfEncode(p: bytes, rest: bytes)
    requires FitsDatagram(p)
    ensures DecodeDatagram(EncodeDatagram(p) + rest) == Some((p, rest))
  {
    EncodedLength(p);
    var f := EncodeDatagram(p);
    assert (f + rest)[2..2 + |p|] == f[2..] && (f + rest)[2 + |p|..] == rest;
  }

  /** A frame that is cut short is not read at all. */
  lemma DecodeOfCut(p: bytes, n: nat)
    requires FitsDatagram(p) && n < |EncodeDatagram(p)|
    ensures DecodeDatagrams(EncodeDatagram(p)[..n]) == []
  {
    EncodedLength(p);
    var f := EncodeDatagram(p);
    if n >= 2 {
      assert f[..n][0] == f[0] && f[..n][1] == f[1];
    }
  }

  /** How many of the frames lie wholly within the first `n` bytes. */
  function WholeFrames(ps: seq<bytes>, n: nat): (k: nat)
    ensures k <= |ps|
  {
    if ps == [] || n < 2 + |ps[0]| then 0 else 1 + WholeFrames(ps[1..], n - 2 - |ps[0]|)
  }

  /** However the stream is cut off, the reader yields exactly the payloads whose frames are
      whole: a prefix of what was sent. */
  lemma {:induction false} DecodeOfTruncated(ps: seq<bytes>, n: nat)
    requires forall p | p in ps :: FitsDatagram(p)
    requires n <= |EncodeDatagrams(ps)|
    ensures DecodeDatagrams(EncodeDatagrams(ps)[..n]) == ps[..WholeFrames(ps, n)]
  {
    if ps != [] {
      var f, tail := EncodeDatagram(ps[0]), EncodeDatagrams(ps[1..]);
      EncodedLength(ps[0]);
      if n < |f| {
        assert (f + tail)[..n] == f[..n];
        DecodeOfCut(ps[0], n);
      } else {
        var m := n - |f|;
        DecodeOfTruncated(ps[1..], m);
        assert (f + tail)[..n] == f + tail[..m];
        DecodeOfEncode(ps[0], tail[..m]);
        var k := WholeFrames(ps[1..], m);
        assert [ps[0]] + ps[1..][..k] == ps[..k + 1];
      }
    }
  }

  lemma {:induction false} AllFramesWhole(ps: seq<bytes>)
    requires forall p | p in ps :: FitsDatagram(p)
    ensures WholeFrames(ps, |EncodeDatagrams(ps)|) == |ps|
  {
    if ps != [] {
      EncodedLength(ps[0]);
      AllFramesWhole(ps[1..]);
    }
  }

  /** For every list of payloads and every chunking of the stream, the reader yields exactly
      that list; on a stream that breaks off, exactly the whole frames of it. */
  lemma FramingIsTransparent(ps: seq<bytes>, chunks: seq<bytes>, n: nat)
    requires forall p | p in ps :: FitsDatagram(p)
    requires n <= |EncodeDatagrams(ps)| && Flatten(chunks) == EncodeDatagrams(ps)[..n]
    ensures DecodeDatagrams(Flatten(chunks)) <= ps
    ensures DecodeDatagrams(Flatten(chunks)) == ps[..WholeFrames(ps, n)]
    ensures n == |EncodeDatagrams(ps)| ==> DecodeDatagrams(Flatten(chunks)) == ps
  {
    DecodeOfTruncated(ps, n);
    AllFramesWhole(ps);
  }

  lemma {:induction false} EncodeAppend(ps: seq<bytes>, p: bytes)
    requires (forall q | q in ps :: FitsDatagram(q)) && FitsDatagram(p)
    ensures EncodeDatagrams(ps + [p]) == EncodeDatagrams(ps) + EncodeDatagram(p)
  {
    if ps == [] {
      assert EncodeDatagrams([p]) == EncodeDatagram(p) + EncodeDatagrams([]);
    } else {
      EncodeAppend(ps[1..], p);
      assert (ps + [p])[1..] == ps[1..] + [p];
    }
  }

  lemma {:induction false} WholeFramesAppend(ps: seq<bytes>, p: bytes, n: nat)
    requires (forall q | q in ps :: FitsDatagram(q)) && FitsDatagram(p)
    requires n < |EncodeDatagrams(ps + [p])|
    ensures WholeFrames(ps + [p], n) <= |ps|
    ensures n >= |EncodeDatagrams(ps)| ==> WholeFrames(ps + [p], n) == |ps|
  {
    EncodeAppend(ps, p);
    if ps == [] {
      assert (ps + [p])[0] == p;
    } else {
      assert (ps + [p])[1..] == ps[1..] + [p] && (ps + [p])[0] == ps[0];
      EncodeAppend(ps[1..], p);
      if n >= |EncodeDatagram(ps[0])| {
        WholeFramesAppend(ps[1..], p, n - |EncodeDatagram(ps[0])|);
      }
    }
  }

  /** A frame that is cut short behind whole ones is never emitted, and takes nothing from them. */
  lemma TornFrame(ps: seq<bytes>, p: bytes, chunks: seq<bytes>, n: nat)
    requires (forall q | q in ps :: FitsDatagram(q)) && FitsDatagram(p)
    requires n < |EncodeDatagrams(ps + [p])| && Flatten(chunks) == EncodeDatagrams(ps + [p])[..n]
    ensures var k := WholeFrames(ps + [p], n);
      && k <= |ps| && DecodeDatagrams(Flatten(chunks)) == ps[..k]
      && (n >= |EncodeDatagrams(ps)| ==> DecodeDatagrams(Flatten(chunks)) == ps)
  {
    var k := WholeFrames(ps + [p], n);
    FramingIsTransparent(ps + [p], chunks, n);
    WholeFramesAppend(ps, p, n);
    assert (ps + [p])[..k] == ps[..k];
    assert k == |ps| ==> ps[..k] == ps;
  }

  // ---------------------------------------------------------------------------
  // Control messages
  // ---------------------------------------------------------------------------

  datatype FrameError = NoLength | LengthOverCap | NoBody | BadBody

  function EncodeFrame(body: bytes): bytes
    requires |body| <= U32_MAX
  {
    U32Le(|body|) + body
  }

  function DecodeFrame(s: bytes): Result<(bytes, bytes), FrameError> {
    if |s| < 4 then Err(NoLength)
    else
      var len := FromU32Le(s[..4]);
      if len > MAX_CONTROL_MSG then Err(LengthOverCap)
      else if |s| < 4 + len then Err(NoBody)
      else Ok((s[4..4 + len], s[4 + len..]))
  }

  /** The length stands in front, low byte first: two bytes for a datagram, four for a control
      message. */
  lemma LengthsInFront(p: bytes, body: bytes)
    requires |p| <= 65_535 && |body| <= U32_MAX
    ensures FitsDatagram(p) && EncodeDatagram(p) == [|p| % 256, |p| / 256] + p
    ensures EncodeFrame(body) ==
            [|body| % 256, |body| / 256 % 256, |body| / 65_536 % 256, |body| / 16_777_216] + body
  {
    var n := |body|;
    assert n % 65_536 % 256 == n % 256 && n % 65_536 / 256 == n / 256 % 256;
    assert n / 65_536 / 256 == n / 16_777_216;
  }

  /** The message encoding (MessagePack) as a parameter. */
  datatype Codec<!T> = Codec(encode: T -> Option<bytes>, decode: bytes -> Option<T>)

  ghost predicate LawfulCodec<T(!new)>(c: Codec<T>) {
    forall m: T :: c.encode(m).Some? ==> c.decode(c.encode(m).value) == Some(m)
  }

  /** `write_framed` */
  method WriteFramed<T>(send: SendStream, codec: Codec<T>, msg: T) returns (ok: bool)
    modifies send
    ensures var body := codec.encode(msg);
      if body.None? || |body.value| > U32_MAX
      then !ok && send.written == old(send.written)
      else
        var frame := EncodeFrame(body.value);
        && (ok <==> |frame| <= old(send.budget))
        && send.written == old(send.written) + frame[..Min(|frame|, old(send.budget))]
  {
    var body := codec.encode(msg);
    if body.None? || |body.value| > U32_MAX {
      return false;
    }
    ghost var frame := EncodeFrame(body.value);
    ok := send.WriteAll(U32Le(|body.value|));
    if ok {
      ok := send.WriteAll(body.value);
      ghost var n := Min(|frame|, old(send.budget));
      assert frame[..n] == frame[..4] + body.value[..n - 4];
    } else {
      assert U32Le(|body.value|)[..old(send.budget)] == frame[..old(send.budget)];
    }
  }

  /** `read_framed` */
  method ReadFramed<T>(recv: RecvStream, codec: Codec<T>) returns (r: Result<T, FrameError>)
    modifies recv
    ensures match DecodeFrame(old(recv.Unread()))
            case Err(e) => r == Err(e)
            case Ok((body, rest)) =>
              && recv.Unread() == rest
              && r == match codec.decode(body) { case Some(m) => Ok(m) case None => Err(BadBody) }
  {
    ghost var s := recv.Unread();
    var prefix := recv.ReadExact(4);
    if prefix.None? {
      return Err(NoLength);
    }
    var len := FromU32Le(prefix.value);
    if len > MAX_CONTROL_MSG {
      return Err(LengthOverCap);
    }
    var body := recv.ReadExact(len);
    if body.None? {
      return Err(NoBody);
    }
    assert s[4..][..len] == s[4..4 + len] && s[4..][len..] == s[4 + len..];
    match codec.decode(body.value) {
      case Some(m) => r := Ok(m);
      case None => r := Err(BadBody);
    }
  }

  lemma FrameLength(body: bytes)
    requires |body| <= U32_MAX
    ensures var f := EncodeFrame(body);
      |f| == 4 + |body| && FromU32Le(f[..4]) == |body| && f[4..] == body
  {
    var f := EncodeFrame(body);
    assert f[..4] == U32Le(|body|);
    assert U16Le(|body| % 0x1_0000) == [|body| % 0x1_0000 % 0x100, |body| % 0x1_0000 / 0x100];
  }

  /** The writer accepts bodies that every reader refuses: a control frame comes through, with
      the bytes behind it intact, exactly when its body is within the reader's cap. */
  lemma FrameRoundTrip(body: bytes, rest: bytes)
    requires |body| <= U32_MAX
    ensures DecodeFrame(EncodeFrame(body) + rest) == Ok((body, rest)) <==> |body| <= 65_536
    ensures |body| > 65_536 ==> DecodeFrame(EncodeFrame(body) + rest) == Err(LengthOverCap)
  {
    FrameLength(body);
    var f := EncodeFrame(body);
    assert (f + rest)[..4] == f[..4];
    assert (f + rest)[4..4 + |body|] == f[4..] && (f + rest)[4 + |body|..] == rest;
  }

  /** A control frame that is cut short is an error, never another message. */
  lemma FrameTruncated(body: bytes, n: nat)
    requires |body| <= MAX_CONTROL_MSG && n < |EncodeFrame(body)|
    ensures DecodeFrame(EncodeFrame(body)[..n]) == Err(if n < 4 then NoLength else NoBody)
  {
    FrameLength(body);
    var f := EncodeFrame(body);
    if n >= 4 {
      assert f[..n][..4] == f[..4];
    }
  }

  /** Of a frame's beginnings only the whole of it is read, and only if it is within the cap. */
  lemma FrameBeginning(body: bytes, n: nat)
    requires |body| <= U32_MAX && n <= |EncodeFrame(body)|
    ensures var r := DecodeFrame(EncodeFrame(body)[..n]);
      && (r.Ok? <==> n == |EncodeFrame(body)| && |body| <= MAX_CONTROL_MSG)
      && (r.Ok? ==> r.value == (body, []))
  {
    FrameLength(body);
    var f := EncodeFrame(body);
    if n == |f| {
      FrameRoundTrip(body, []);
      assert f[..n] == f + [];
    } else if n >= 4 {
      assert f[..n][..4] == f[..4];
    }
  }

  /** The conn opener and the datagrams behind it share a stream without disturbing each other. */
  lemma OpenerThenDatagrams<T(!new)>(codec: Codec<T>, msg: T, ps: seq<bytes>)
    requires LawfulCodec(codec) && codec.encode(msg).Some?
    requires |codec.encode(msg).value| <= MAX_CONTROL_MSG
    requires forall p | p in ps :: FitsDatagram(p)
    ensures var body := codec.encode(msg).value;
      var r := DecodeFrame(EncodeFrame(body) + EncodeDatagrams(ps));
      r.Ok? && codec.decode(r.value.0) == Some(msg) && DecodeDatagrams(r.value.1) == ps
  {
    FrameRoundTrip(codec.encode(msg).value, EncodeDatagrams(ps));
    var all := EncodeDatagrams(ps);
    DecodeOfTruncated(ps, |all|);
    AllFramesWhole(ps);
    assert all[..|all|] == all;
  }
}
