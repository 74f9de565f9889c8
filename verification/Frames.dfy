/**
  Big-endian numbers of a fixed width.
  */
module BigEndian {
  import opened Prelude

  function Pow256(n: nat): (r: nat)
    ensures r >= 1
  {
    if n == 0 then 1 else 256 * Pow256(n - 1)
  }

  function ToBytes(n: nat, width: nat): (r: seq<Byte>)
    ensures |r| == width
  {
    if width == 0 then [] else ToBytes(n / 256, width - 1) + [n % 256]
  }

  function FromBytes(bytes: seq<Byte>): nat {
    if bytes == [] then 0 else 256 * FromBytes(bytes[..|bytes| - 1]) + bytes[|bytes| - 1]
  }

  lemma {:induction false} RoundTrip(n: nat, width: nat)
    requires n < Pow256(width)
    ensures FromBytes(ToBytes(n, width)) == n
  {
    if width == 0 {
    } else {
      var init := ToBytes(n / 256, width - 1);
      RoundTrip(n / 256, width - 1);
      assert (init + [n % 256])[..width - 1] == init;
    }
  }

  lemma {:induction false} Unique(bytes: seq<Byte>)
    ensures ToBytes(FromBytes(bytes), |bytes|) == bytes
    ensures FromBytes(bytes) < Pow256(|bytes|)
  {
    if bytes == [] {
    } else {
      var init, last := bytes[..|bytes| - 1], bytes[|bytes| - 1];
      Unique(init);
      assert bytes == init + [last];
    }
  }

  lemma Widths()
    ensures Pow256(2) == 0x1_0000 && Pow256(4) == 0x1_0000_0000 && Pow256(8) == 0x1_0000_0000_0000_0000
  {
    assert Pow256(6) == 0x1_0000_0000_0000;
  }
}

/**
  The control connection's frames and their incremental decoder: edge/src/frame.rs.
  */
module Frames {
  import opened Prelude
  import opened BigEndian

  const MAX_FRAME_PAYLOAD := 65536
  const MAX_DATA_PAYLOAD := 16384
  const HEADER := 5

  datatype QuotaState = QuotaOpen | PausedQuota | Override

  datatype OpenFailReason = DialRefused | BadPort | Cap

  datatype CloseReason = Eof | Reset | LocalClose

  datatype Ipv4 = Ipv4(a: Byte, b: Byte, c: Byte, d: Byte)

  datatype Frame =
    | Hello
    | HelloOk(txBytes: U64, state: QuotaState, year: U16, month: Byte)
    | Ping(unixMs: U64)
    | Pong(unixMs: U64)
    | Open(connId: U64, publicPort: U16, srcPort: U16, addr: Ipv4)
    | OpenOk(connId: U64)
    | OpenFail(connId: U64, failReason: OpenFailReason)
    | Data(connId: U64, payload: seq<Byte>)
    | Close(connId: U64, closeReason: CloseReason)
    | Quota(txBytes: U64, state: QuotaState)

  datatype ProtocolError =
    | TooLong | DataTooLong | Truncated | UnknownType | BadLength | BadHello | BadState | BadMonth | BadAddress | BadReason

  datatype Result<+T> = Ok(value: T) | Err(error: ProtocolError)

  // ----- Field codes -----

  function StateCode(s: QuotaState): Byte {
    match s case QuotaOpen => 0 case PausedQuota => 1 case Override => 2
  }

  function StateOf(b: Byte): Result<QuotaState> {
    if b == 0 then Ok(QuotaOpen) else if b == 1 then Ok(PausedQuota) else if b == 2 then Ok(Override) else Err(BadState)
  }

  function FailCode(r: OpenFailReason): Byte {
    match r case DialRefused => 1 case BadPort => 2 case Cap => 3
  }

  function FailOf(b: Byte): Result<OpenFailReason> {
    if b == 1 then Ok(DialRefused) else if b == 2 then Ok(BadPort) else if b == 3 then Ok(Cap) else Err(BadReason)
  }

  function CloseCode(r: CloseReason): Byte {
    match r case Eof => 1 case Reset => 2 case LocalClose => 3
  }

  function CloseOf(b: Byte): Result<CloseReason> {
    if b == 1 then Ok(Eof) else if b == 2 then Ok(Reset) else if b == 3 then Ok(LocalClose) else Err(BadReason)
  }

  /** Version 1 and the five port pairs, as 16-bit big-endian numbers. */
  const HELLO_PAYLOAD: seq<Byte> :=
    [0x00, 0x01, 0x00, 0x05, 0x00, 0x19, 0x09, 0xdd, 0x01, 0xd1, 0x09, 0xa1,
     0x03, 0xe1, 0x0b, 0xb1, 0x00, 0x50, 0x1f, 0x98, 0x01, 0xbb, 0x21, 0x00]

  const MAPPED_PREFIX: seq<Byte> := [0, 0, 0, 0, 0, 0, 0, 0, 0, 0, 0xff, 0xff]

  // ----- Encoding -----

  function TypeOf(f: Frame): Byte {
    match f
    case Hello => 1
    case HelloOk(_, _, _, _) => 2
    case Ping(_) => 3
    case Pong(_) => 4
    case Open(_, _, _, _) => 5
    case OpenOk(_) => 6
    case OpenFail(_, _) => 7
    case Data(_, _) => 8
    case Close(_, _) => 9
    case Quota(_, _) => 10
  }

  function PayloadOf(f: Frame): seq<Byte> {
    match f
    case Hello => HELLO_PAYLOAD
    case HelloOk(tx, state, year, month) => ToBytes(tx, 8) + [StateCode(state)] + ToBytes(year, 2) + [month]
    case Ping(ms) => ToBytes(ms, 8)
    case Pong(ms) => ToBytes(ms, 8)
    case Open(id, public, src, ip) =>
      ToBytes(id, 8) + ToBytes(public, 2) + ToBytes(src, 2) + MAPPED_PREFIX + [ip.a, ip.b, ip.c, ip.d]
    case OpenOk(id) => ToBytes(id, 8)
    case OpenFail(id, reason) => ToBytes(id, 8) + [FailCode(reason)]
    case Data(id, body) => ToBytes(id, 8) + body
    case Close(id, reason) => ToBytes(id, 8) + [CloseCode(reason)]
    case Quota(tx, state) => ToBytes(tx, 8) + [StateCode(state)]
  }

  function Encode(f: Frame): Result<seq<Byte>> {
    if f.HelloOk? && !(1 <= f.month <= 12) then Err(BadMonth)
    else if f.Data? && |f.payload| > MAX_DATA_PAYLOAD then Err(DataTooLong)
    else Ok([TypeOf(f)] + ToBytes(|PayloadOf(f)|, 4) + PayloadOf(f))
  }

  // ----- Decoding one frame -----

  function ValidateHeader(ty: Byte, len: U32): Option<ProtocolError> {
    if len > MAX_FRAME_PAYLOAD then Some(TooLong)
    else if ty == 0 || ty > 10 then Some(UnknownType)
    else if HeaderMatches(ty, len) then None
    else if ty == 8 && len >= 8 then Some(DataTooLong)
    else Some(BadLength)
  }

  predicate HeaderMatches(ty: Byte, len: nat) {
    if ty == 1 then len == 24
    else if ty == 2 then len == 12
    else if ty == 3 || ty == 4 || ty == 6 then len == 8
    else if ty == 5 then len == 28
    else if ty == 7 || ty == 9 || ty == 10 then len == 9
    else ty == 8 && 8 <= len && len - 8 <= MAX_DATA_PAYLOAD
  }

  function U64At(p: seq<Byte>): U64
    requires |p| >= 8
  {
    Unique(p[..8]);
    Widths();
    FromBytes(p[..8])
  }

  function U16At(p: seq<Byte>, at: nat): U16
    requires at + 2 <= |p|
  {
    Unique(p[at..at + 2]);
    Widths();
    FromBytes(p[at..at + 2])
  }

  function DecodeMapped(bytes: seq<Byte>): Result<Ipv4> {
    if |bytes| != 16 || bytes[..12] != MAPPED_PREFIX then Err(BadAddress)
    else Ok(Ipv4(bytes[12], bytes[13], bytes[14], bytes[15]))
  }

  function DecodePayload(ty: Byte, p: seq<Byte>): Result<Frame>
    requires 1 <= ty <= 10 && HeaderMatches(ty, |p|)
  {
    if ty == 1 then (if p != HELLO_PAYLOAD then Err(BadHello) else Ok(Hello))
    else if ty == 2 then
      if !(1 <= p[11] <= 12) then Err(BadMonth)
      else match StateOf(p[8]) case Err(e) => Err(e) case Ok(state) => Ok(HelloOk(U64At(p), state, U16At(p, 9), p[11]))
    else if ty == 3 then Ok(Ping(U64At(p)))
    else if ty == 4 then Ok(Pong(U64At(p)))
    else if ty == 5 then
      match DecodeMapped(p[12..28]) case Err(e) => Err(e) case Ok(ip) => Ok(Open(U64At(p), U16At(p, 8), U16At(p, 10), ip))
    else if ty == 6 then Ok(OpenOk(U64At(p)))
    else if ty == 7 then match FailOf(p[8]) case Err(e) => Err(e) case Ok(r) => Ok(OpenFail(U64At(p), r))
    else if ty == 8 then Ok(Data(U64At(p), p[8..]))
    else if ty == 9 then match CloseOf(p[8]) case Err(e) => Err(e) case Ok(r) => Ok(Close(U64At(p), r))
    else match StateOf(p[8]) case Err(e) => Err(e) case Ok(state) => Ok(Quota(U64At(p), state))
  }

  /** The length field of a header. */
  function LengthOf(bytes: seq<Byte>): U32
    requires |bytes| >= HEADER
  {
    Unique(bytes[1..5]);
    Widths();
    FromBytes(bytes[1..5])
  }

  /** What the front of a byte string is: too little, a frame of `size` bytes, or an error found after `size` bytes. */
  datatype Front = NeedMore | Got(frame: Frame, size: nat) | Bad(error: ProtocolError, size: nat)

  function ParseFront(bytes: seq<Byte>): Front {
    if |bytes| < HEADER then NeedMore
    else
      var len := LengthOf(bytes);
      match ValidateHeader(bytes[0], len)
      case Some(e) => Bad(e, HEADER)
      case None =>
        var total: int := HEADER + len;
        if |bytes| < total then NeedMore
        else
          match DecodePayload(bytes[0], bytes[HEADER..total])
          case Err(e) => Bad(e, total)
          case Ok(f) => Got(f, total)
  }

  // ----- One frame back and forth -----

  lemma FieldsBack(p: seq<Byte>)
    requires |p| >= 8
    ensures ToBytes(U64At(p), 8) == p[..8]
  {
    Unique(p[..8]);
  }

  lemma PortBack(p: seq<Byte>, at: nat)
    requires at + 2 <= |p|
    ensures ToBytes(U16At(p, at), 2) == p[at..at + 2]
  {
    Unique(p[at..at + 2]);
  }

  /** A decoded payload is the payload of the decoded frame. */
  lemma PayloadBack(ty: Byte, p: seq<Byte>)
    requires 1 <= ty <= 10 && HeaderMatches(ty, |p|) && DecodePayload(ty, p).Ok?
    ensures var f := DecodePayload(ty, p).value;
            TypeOf(f) == ty && PayloadOf(f) == p && Encode(f).Ok?
  {
    hide ToBytes, FromBytes, U64At, U16At;
    if ty == 1 {
    } else if ty == 2 {
      HelloOkBack(p);
    } else if ty == 5 {
      OpenBack(p);
    } else {
      FieldsBack(p);
      assert ty == 8 ==> p == p[..8] + p[8..];
      assert ty == 7 || ty == 9 || ty == 10 ==> p == p[..8] + [p[8]];
    }
  }

  lemma HelloOkBack(p: seq<Byte>)
    requires |p| == 12 && DecodePayload(2, p).Ok?
    ensures var f := DecodePayload(2, p).value;
            f.HelloOk? && PayloadOf(f) == p && Encode(f).Ok?
  {
    hide ToBytes, FromBytes, U64At, U16At;
    FieldsBack(p);
    PortBack(p, 9);
    assert p == p[..8] + [p[8]] + p[9..11] + [p[11]];
  }

  lemma OpenBack(p: seq<Byte>)
    requires |p| == 28 && DecodePayload(5, p).Ok?
    ensures var f := DecodePayload(5, p).value;
            f.Open? && PayloadOf(f) == p
  {
    hide ToBytes, FromBytes, U64At, U16At;
    FieldsBack(p);
    PortBack(p, 8);
    PortBack(p, 10);
    var m := p[12..28];
    assert m == MAPPED_PREFIX + [m[12], m[13], m[14], m[15]];
    assert p == p[..8] + p[8..10] + p[10..12] + m;
  }

  lemma U64There(n: U64, rest: seq<Byte>)
    ensures U64At(ToBytes(n, 8) + rest) == n
  {
    assert (ToBytes(n, 8) + rest)[..8] == ToBytes(n, 8);
    Widths();
    RoundTrip(n, 8);
  }

  lemma U16There(before: seq<Byte>, n: U16, rest: seq<Byte>)
    ensures U16At(before + ToBytes(n, 2) + rest, |before|) == n
  {
    assert (before + ToBytes(n, 2) + rest)[|before|..|before| + 2] == ToBytes(n, 2);
    Widths();
    RoundTrip(n, 2);
  }

  /** The payload of an encodable frame decodes to the frame. */
  lemma PayloadThere(f: Frame)
    requires Encode(f).Ok?
    ensures HeaderMatches(TypeOf(f), |PayloadOf(f)|)
    ensures DecodePayload(TypeOf(f), PayloadOf(f)) == Ok(f)
  {
    hide ToBytes, FromBytes, U64At, U16At;
    var p := PayloadOf(f);
    match f {
      case Hello =>
      case HelloOk(tx, state, year, month) => HelloOkThere(f);
      case Ping(ms) =>
        U64There(ms, []);
        assert p + [] == p;
      case Pong(ms) =>
        U64There(ms, []);
        assert p + [] == p;
      case Open(_, _, _, _) => OpenThere(f);
      case OpenOk(id) =>
        U64There(id, []);
        assert p + [] == p;
      case OpenFail(id, reason) => U64There(id, [FailCode(reason)]);
      case Data(id, body) =>
        U64There(id, body);
        assert p[8..] == body;
      case Close(id, reason) => U64There(id, [CloseCode(reason)]);
      case Quota(tx, state) => U64There(tx, [StateCode(state)]);
    }
  }

  lemma HelloOkThere(f: Frame)
    requires f.HelloOk? && 1 <= f.month <= 12
    ensures DecodePayload(2, PayloadOf(f)) == Ok(f)
  {
    hide ToBytes, FromBytes, U64At, U16At;
    var p, tx, year := PayloadOf(f), ToBytes(f.txBytes, 8), ToBytes(f.year, 2);
    var code := [StateCode(f.state)];
    U64There(f.txBytes, code + year + [f.month]);
    assert p == tx + (code + year + [f.month]);
    U16There(tx + code, f.year, [f.month]);
  }

  lemma OpenThere(f: Frame)
    requires f.Open?
    ensures DecodePayload(5, PayloadOf(f)) == Ok(f)
  {
    hide ToBytes, FromBytes, U64At, U16At;
    var id, public, src := ToBytes(f.connId, 8), ToBytes(f.publicPort, 2), ToBytes(f.srcPort, 2);
    var ip := [f.addr.a, f.addr.b, f.addr.c, f.addr.d];
    var p := PayloadOf(f);
    U64There(f.connId, public + src + MAPPED_PREFIX + ip);
    assert p == id + (public + src + MAPPED_PREFIX + ip);
    U16There(id, f.publicPort, src + MAPPED_PREFIX + ip);
    assert p == id + public + (src + MAPPED_PREFIX + ip);
    U16There(id + public, f.srcPort, MAPPED_PREFIX + ip);
    assert p == id + public + src + (MAPPED_PREFIX + ip);
    assert p[12..28] == MAPPED_PREFIX + ip;
    assert (MAPPED_PREFIX + ip)[..12] == MAPPED_PREFIX;
  }

  lemma PayloadSize(f: Frame)
    requires Encode(f).Ok?
    ensures |PayloadOf(f)| <= MAX_DATA_PAYLOAD + 8
  {
  }

  /** An encoded frame, whatever follows it, is read back as that frame. */
  lemma ParseEncoded(f: Frame, rest: seq<Byte>)
    requires Encode(f).Ok?
    ensures var bytes := Encode(f).value;
            ParseFront(bytes + rest) == Got(f, |bytes|)
  {
    var p := PayloadOf(f);
    PayloadSize(f);
    PayloadThere(f);
    Widths();
    RoundTrip(|p|, 4);
    hide PayloadOf, DecodePayload, ToBytes, FromBytes;
    var bytes := Encode(f).value;
    var all := bytes + rest;
    assert all[1..5] == ToBytes(|p|, 4);
    assert all[5..5 + |p|] == p;
    assert LengthOf(all) == |p|;
    assert ValidateHeader(TypeOf(f), |p|) == None;
  }

  /** Whatever is read as a frame is that frame's encoding. */
  lemma EncodeParsed(bytes: seq<Byte>)
    requires ParseFront(bytes).Got?
    ensures var front := ParseFront(bytes);
            0 < front.size <= |bytes| && Encode(front.frame) == Ok(bytes[..front.size])
  {
    var len := LengthOf(bytes);
    var p := bytes[5..5 + len];
    assert HeaderMatches(bytes[0], len);
    PayloadBack(bytes[0], p);
    Unique(bytes[1..5]);
    hide PayloadOf, DecodePayload, ToBytes, FromBytes;
    assert bytes[..5 + len] == [bytes[0]] + bytes[1..5] + p;
  }

  /** More bytes do not change a front that is already decided. */
  lemma FrontStable(bytes: seq<Byte>, more: seq<Byte>)
    requires !ParseFront(bytes).NeedMore?
    ensures ParseFront(bytes + more) == ParseFront(bytes)
    ensures HEADER <= ParseFront(bytes).size <= |bytes|
  {
    var all := bytes + more;
    assert all[1..5] == bytes[1..5];
    var len := LengthOf(bytes);
    if 5 + len <= |bytes| { assert all[5..5 + len] == bytes[5..5 + len]; }
  }
}

/**
  A stream of frames: what the whole byte string means, and the decoder that is fed it in chunks.
  */
module FrameStream {
  import opened Prelude
  import BigEndian
  import opened Frames

  /** The largest partial frame that can be waited for, completed. */
  const MAX_BUFFER := 16397

  /** The frames of a byte string in order, the bytes left when decoding stops, and why it stopped. */
  datatype Decoded = Decoded(frames: seq<Frame>, rest: seq<Byte>, error: Option<ProtocolError>)

  function DecodeAll(bytes: seq<Byte>): Decoded
    decreases |bytes|
  {
    match ParseFront(bytes)
    case NeedMore => Decoded([], bytes, None)
    case Bad(e, size) => Decoded([], if size <= |bytes| then bytes[..size] else bytes, Some(e))
    case Got(f, size) =>
      if 0 < size <= |bytes| then
        var later := DecodeAll(bytes[size..]);
        later.(frames := [f] + later.frames)
      else Decoded([], bytes, None)
  }

  function EncodeAll(frames: seq<Frame>): seq<Byte>
    requires forall i :: 0 <= i < |frames| ==> Encode(frames[i]).Ok?
  {
    if frames == [] then [] else Encode(frames[0]).value + EncodeAll(frames[1..])
  }

  ghost predicate Encodable(frames: seq<Frame>) { forall i :: 0 <= i < |frames| ==> Encode(frames[i]).Ok? }

  // ----- Exactly the concatenations of encodings -----

  /** Decoding the concatenated encodings of any frames gives the frames, and then what the rest gives. */
  lemma {:induction false} DecodeEncoded(frames: seq<Frame>, more: seq<Byte>)
    requires Encodable(frames)
    ensures var later := DecodeAll(more);
            DecodeAll(EncodeAll(frames) + more) == later.(frames := frames + later.frames)
  {
    hide ParseFront, Encode;
    if frames == [] {
      assert EncodeAll(frames) + more == more;
      assert frames + DecodeAll(more).frames == DecodeAll(more).frames;
    } else {
      var first, others := Encode(frames[0]).value, EncodeAll(frames[1..]) + more;
      assert EncodeAll(frames) + more == first + others;
      ParseEncoded(frames[0], others);
      EncodeParsed(first + others);
      assert (first + others)[|first|..] == others;
      DecodeEncoded(frames[1..], more);
      assert frames + DecodeAll(more).frames == [frames[0]] + (frames[1..] + DecodeAll(more).frames);
    }
  }

  lemma EncodeCons(f: Frame, frames: seq<Frame>)
    requires Encode(f).Ok? && Encodable(frames)
    ensures Encodable([f] + frames) && EncodeAll([f] + frames) == Encode(f).value + EncodeAll(frames)
  {
    hide Encode;
    assert ([f] + frames)[1..] == frames;
  }

  lemma DecodeGot(bytes: seq<Byte>, f: Frame, size: nat)
    requires ParseFront(bytes) == Got(f, size)
    ensures 0 < size <= |bytes| && Encode(f) == Ok(bytes[..size])
    ensures DecodeAll(bytes) == Then(Decoded([f], [], None), DecodeAll(bytes[size..]))
  {
    EncodeParsed(bytes);
  }

  lemma DecodeStops(bytes: seq<Byte>)
    requires !ParseFront(bytes).Got?
    ensures DecodeAll(bytes).frames == [] && DecodeAll(bytes).rest <= bytes
    ensures ParseFront(bytes).NeedMore? ==> DecodeAll(bytes) == Decoded([], bytes, None)
    ensures ParseFront(bytes).Bad? ==> DecodeAll(bytes).error.Some?
  {
    if ParseFront(bytes).Bad? { FrontStable(bytes, []); }
  }

  /** Whatever is decoded, encoding it again gives back the bytes that were consumed. */
  lemma {:induction false} EncodeDecoded(bytes: seq<Byte>)
    ensures var d := DecodeAll(bytes);
            Encodable(d.frames) && EncodeAll(d.frames) + d.rest <= bytes
            && (d.error == None ==> EncodeAll(d.frames) + d.rest == bytes)
    decreases |bytes|
  {
    hide Encode, ParseFront, DecodeAll;
    var front := ParseFront(bytes);
    if front.Got? {
      DecodeGot(bytes, front.frame, front.size);
      var first, after := bytes[..front.size], bytes[front.size..];
      EncodeDecoded(after);
      var later := DecodeAll(after);
      EncodeCons(front.frame, later.frames);
      Assoc(first, EncodeAll(later.frames), later.rest);
      assert bytes == first + after;
    } else {
      DecodeStops(bytes);
      assert [] + DecodeAll(bytes).rest == DecodeAll(bytes).rest;
    }
  }

  /** The decoder accepts a byte string to its end exactly when it is a concatenation of frame encodings. */
  lemma AcceptsExactlyEncodings(bytes: seq<Byte>, frames: seq<Frame>)
    ensures DecodeAll(bytes) == Decoded(frames, [], None) <==> Encodable(frames) && EncodeAll(frames) == bytes
  {
    if DecodeAll(bytes) == Decoded(frames, [], None) {
      EncodeDecoded(bytes);
      assert EncodeAll(frames) + [] == EncodeAll(frames);
    }
    if Encodable(frames) && EncodeAll(frames) == bytes {
      DecodeEncoded(frames, []);
      assert bytes + [] == bytes;
      assert frames + [] == frames;
    }
  }

  // ----- Chunks -----

  function Then(first: Decoded, second: Decoded): Decoded {
    second.(frames := first.frames + second.frames)
  }

  /** Decoding in two parts: the left-over bytes go before the second part; an error is final. */
  lemma {:induction false} DecodeAppend(a: seq<Byte>, b: seq<Byte>)
    ensures DecodeAll(a).error == None ==> DecodeAll(a + b) == Then(DecodeAll(a), DecodeAll(DecodeAll(a).rest + b))
    ensures DecodeAll(a).error != None ==> DecodeAll(a + b) == DecodeAll(a)
    decreases |a|
  {
    hide ParseFront, DecodeAll;
    var front := ParseFront(a);
    if front.NeedMore? {
      DecodeStops(a);
      assert [] + DecodeAll(a + b).frames == DecodeAll(a + b).frames;
    } else if front.Bad? {
      BadIsFinal(a, b);
    } else {
      DecodeGot(a, front.frame, front.size);
      FrontStable(a, b);
      DecodeGot(a + b, front.frame, front.size);
      var later := a[front.size..];
      assert (a + b)[front.size..] == later + b;
      DecodeAppend(later, b);
      Assoc([front.frame], DecodeAll(later).frames, DecodeAll(DecodeAll(later).rest + b).frames);
    }
  }

  lemma BadIsFinal(a: seq<Byte>, b: seq<Byte>)
    requires ParseFront(a).Bad?
    ensures DecodeAll(a).error != None && DecodeAll(a + b) == DecodeAll(a)
  {
    FrontStable(a, b);
    hide ParseFront;
    assert (a + b)[..ParseFront(a).size] == a[..ParseFront(a).size];
  }

  function Concat(chunks: seq<seq<Byte>>): seq<Byte> {
    if chunks == [] then [] else chunks[0] + Concat(chunks[1..])
  }

  /** A decoder that holds `buf` and is pushed the chunks one by one: the frames delivered, the final buffer, and the
      first error. A push that fails delivers nothing, not even the frames it had already decoded. */
  function PushAll(buf: seq<Byte>, chunks: seq<seq<Byte>>): Decoded
    decreases |chunks|
  {
    if chunks == [] then Decoded([], buf, None)
    else
      var d := DecodeAll(buf + chunks[0]);
      if d.error.Some? then d.(frames := []) else Then(d, PushAll(d.rest, chunks[1..]))
  }

  ghost predicate Waiting(buf: seq<Byte>) { ParseFront(buf) == NeedMore }

  lemma {:induction false} RestWaits(bytes: seq<Byte>)
    ensures DecodeAll(bytes).error == None ==> Waiting(DecodeAll(bytes).rest)
    decreases |bytes|
  {
    hide ParseFront;
    var front := ParseFront(bytes);
    if front.Got? {
      EncodeParsed(bytes);
      RestWaits(bytes[front.size..]);
    }
  }

  /** However the input is cut into chunks: the same final buffer and the same first error as in one piece, and the
      same frames when there is no error; with an error, a prefix of the frames before it. */
  lemma {:induction false} ChunksDoNotMatter(buf: seq<Byte>, chunks: seq<seq<Byte>>)
    requires Waiting(buf)
    ensures var whole, fed := DecodeAll(buf + Concat(chunks)), PushAll(buf, chunks);
            && fed.error == whole.error
            && fed.rest == whole.rest
            && fed.frames <= whole.frames
            && (whole.error == None ==> fed.frames == whole.frames)
    decreases |chunks|
  {
    hide ParseFront;
    if chunks == [] {
      assert buf + Concat(chunks) == buf;
    } else {
      var first, others := buf + chunks[0], Concat(chunks[1..]);
      assert buf + Concat(chunks) == first + others;
      DecodeAppend(first, others);
      RestWaits(first);
      if DecodeAll(first).error == None {
        ChunksDoNotMatter(DecodeAll(first).rest, chunks[1..]);
      }
    }
  }

  /** The first chunk whose push fails, or the number of chunks. */
  function FirstBad(buf: seq<Byte>, chunks: seq<seq<Byte>>): (k: nat)
    ensures k <= |chunks|
    decreases |chunks|
  {
    if chunks == [] then 0
    else
      var d := DecodeAll(buf + chunks[0]);
      if d.error.Some? then 0 else 1 + FirstBad(d.rest, chunks[1..])
  }

  /** In terms of the input alone: up to that chunk the input has no error, and with it the input has one. */
  lemma {:induction false} FirstBadIs(buf: seq<Byte>, chunks: seq<seq<Byte>>)
    requires Waiting(buf)
    ensures var k := FirstBad(buf, chunks);
            && DecodeAll(buf + Concat(chunks[..k])).error == None
            && (k < |chunks| ==> DecodeAll(buf + Concat(chunks[..k + 1])).error.Some?)
    decreases |chunks|
  {
    hide ParseFront, DecodeAll;
    var k := FirstBad(buf, chunks);
    if chunks == [] || DecodeAll(buf + chunks[0]).error.Some? {
      DecodeStops(buf);
      assert buf + Concat(chunks[..0]) == buf;
      if chunks != [] { assert Concat(chunks[..1]) == chunks[0]; }
    } else {
      var first := buf + chunks[0];
      RestWaits(first);
      FirstBadIs(DecodeAll(first).rest, chunks[1..]);
      PrefixAppend(buf, chunks, k);
      if k < |chunks| { PrefixAppend(buf, chunks, k + 1); }
    }
  }

  /** The first chunk and then the others of a prefix. */
  lemma PrefixAppend(buf: seq<Byte>, chunks: seq<seq<Byte>>, k: nat)
    requires 1 <= k <= |chunks| && DecodeAll(buf + chunks[0]).error == None
    ensures var d := DecodeAll(buf + chunks[0]);
            DecodeAll(buf + Concat(chunks[..k])) == Then(d, DecodeAll(d.rest + Concat(chunks[1..][..k - 1])))
  {
    hide DecodeAll;
    var others := Concat(chunks[1..][..k - 1]);
    assert chunks[..k][1..] == chunks[1..][..k - 1];
    Assoc(buf, chunks[0], others);
    DecodeAppend(buf + chunks[0], others);
  }

  /** Exactly the frames of the chunks before the one that fails are delivered. */
  lemma {:induction false} DeliveredFrames(buf: seq<Byte>, chunks: seq<seq<Byte>>)
    requires Waiting(buf)
    ensures PushAll(buf, chunks).frames == DecodeAll(buf + Concat(chunks[..FirstBad(buf, chunks)])).frames
    decreases |chunks|
  {
    hide ParseFront, DecodeAll;
    if chunks == [] || DecodeAll(buf + chunks[0]).error.Some? {
      DecodeStops(buf);
      assert buf + Concat(chunks[..0]) == buf;
    } else {
      var first := buf + chunks[0];
      RestWaits(first);
      DeliveredFrames(DecodeAll(first).rest, chunks[1..]);
      PrefixAppend(buf, chunks, FirstBad(buf, chunks));
    }
  }

  /** The frames a chunk completes when it is pushed after the ones before it. */
  function CompletedBy(buf: seq<Byte>, chunks: seq<seq<Byte>>, k: nat): seq<Frame>
    requires k < |chunks|
  {
    DecodeAll(DecodeAll(buf + Concat(chunks[..k])).rest + chunks[k]).frames
  }

  /** A cut delivers all the frames of the input if and only if no push fails or the one that fails completes none. */
  lemma AllFramesDeliveredExactly(buf: seq<Byte>, chunks: seq<seq<Byte>>)
    requires Waiting(buf)
    ensures var k := FirstBad(buf, chunks);
            PushAll(buf, chunks).frames == DecodeAll(buf + Concat(chunks)).frames
            <==> k == |chunks| || CompletedBy(buf, chunks, k) == []
  {
    hide ParseFront, DecodeAll;
    var k := FirstBad(buf, chunks);
    FirstBadIs(buf, chunks);
    DeliveredFrames(buf, chunks);
    var before := buf + Concat(chunks[..k]);
    if k == |chunks| {
      assert chunks[..k] == chunks;
    } else {
      var with := before + chunks[k];
      ConcatSplit(chunks, k);
      ConcatSplit(chunks[..k + 1], k);
      assert chunks[..k + 1][..k] == chunks[..k] && chunks[..k + 1][k + 1..] == [];
      assert chunks[k] + Concat([]) == chunks[k];
      Assoc(buf, Concat(chunks[..k]), chunks[k]);
      Assoc(buf, Concat(chunks[..k]), chunks[k] + Concat(chunks[k + 1..]));
      Assoc(before, chunks[k], Concat(chunks[k + 1..]));
      DecodeAppend(with, Concat(chunks[k + 1..]));
      DecodeAppend(before, chunks[k]);
      LongerIsOther(DecodeAll(before).frames, CompletedBy(buf, chunks, k));
    }
  }

  lemma LongerIsOther(a: seq<Frame>, b: seq<Frame>)
    ensures a + b == a <==> b == []
  {
    assert |a + b| == |a| + |b|;
  }

  lemma {:induction false} ConcatSplit(chunks: seq<seq<Byte>>, k: nat)
    requires k < |chunks|
    ensures Concat(chunks) == Concat(chunks[..k]) + (chunks[k] + Concat(chunks[k + 1..]))
  {
    if k == 0 {
    } else {
      ConcatSplit(chunks[1..], k - 1);
      assert chunks[..k][1..] == chunks[1..][..k - 1] && chunks[1..][k..] == chunks[k + 1..];
      Assoc(chunks[0], Concat(chunks[..k][1..]), chunks[k] + Concat(chunks[k + 1..]));
    }
  }

  /** The frames can differ when there is an error: a PING and a bad header in one chunk deliver nothing, in two chunks
      they deliver the PING. */
  lemma FramesBeforeAnErrorCanBeLost()
    ensures var ping, bad := Encode(Ping(9)).value, [11, 0, 0, 0, 0];
            && PushAll([], [ping + bad]).frames == []
            && PushAll([], [ping, bad]).frames == [Ping(9)]
            && PushAll([], [ping + bad]).error == PushAll([], [ping, bad]).error == Some(UnknownType)
  {
    hide ParseFront, Encode, DecodeAll;
    var f := Ping(9);
    var bad: seq<Byte> := [11, 0, 0, 0, 0];
    assert Encode(f).Ok? by { PingEncodes(9); }
    var ping := Encode(f).value;
    BadTypeHeader();
    DecodeEncoded([f], bad);
    DecodeEncoded([f], []);
    assert EncodeAll([f]) == ping + EncodeAll([]) == ping;
    assert DecodeAll([]) == Decoded([], [], None) by { AcceptsExactlyEncodings([], []); }
    assert ping + [] == ping && [] + ping == ping && [] + (ping + bad) == ping + bad && [] + bad == bad;
    assert [ping, bad][1..] == [bad];
    assert DecodeAll(ping) == Decoded([f], [], None);
    assert PushAll([], [bad]) == Decoded([], bad, Some(UnknownType));
  }

  lemma PingEncodes(ms: U64)
    ensures Encode(Ping(ms)).Ok?
  {
  }

  lemma BadTypeHeader()
    ensures DecodeAll([11, 0, 0, 0, 0]) == Decoded([], [11, 0, 0, 0, 0], Some(UnknownType))
  {
    var bad: seq<Byte> := [11, 0, 0, 0, 0];
    assert LengthOf(bad) == 0 by {
      assert bad[1..5] == BigEndian.ToBytes(0, 4);
      BigEndian.RoundTrip(0, 4);
    }
    assert ParseFront(bad) == Bad(UnknownType, 5);
    assert bad[..5] == bad;
  }

  // ----- The decoder -----

  lemma WaitingIsShort(buf: seq<Byte>)
    requires Waiting(buf)
    ensures |buf| < MAX_BUFFER
    ensures |buf| >= HEADER ==> ValidateHeader(buf[0], LengthOf(buf)) == None && |buf| < HEADER + LengthOf(buf) <= MAX_BUFFER
  {
  }

  /** Not enough for a header, or not enough for the frame it announces. */
  lemma WaitsOn(buf: seq<Byte>)
    requires |buf| < HEADER || (ValidateHeader(buf[0], LengthOf(buf)) == None && |buf| < HEADER + LengthOf(buf))
    ensures Waiting(buf) && DecodeAll(buf) == Decoded([], buf, None)
  {
  }

  lemma BadHeader(buf: seq<Byte>, input: seq<Byte>)
    requires |buf| == HEADER && ValidateHeader(buf[0], LengthOf(buf)).Some?
    ensures DecodeAll(buf + input) == Decoded([], buf, ValidateHeader(buf[0], LengthOf(buf)))
  {
    assert ParseFront(buf) == Bad(ValidateHeader(buf[0], LengthOf(buf)).value, HEADER);
    BadIsFinal(buf, input);
    assert buf[..HEADER] == buf;
  }

  lemma FullFrame(buf: seq<Byte>, input: seq<Byte>)
    requires |buf| >= HEADER && ValidateHeader(buf[0], LengthOf(buf)) == None && |buf| == HEADER + LengthOf(buf)
    ensures var d := DecodePayload(buf[0], buf[HEADER..]);
            && (d.Err? ==> DecodeAll(buf + input) == Decoded([], buf, Some(d.error)))
            && (d.Ok? ==> DecodeAll(buf + input) == Then(Decoded([d.value], [], None), DecodeAll(input)))
  {
    var d := DecodePayload(buf[0], buf[HEADER..]);
    assert buf[HEADER..|buf|] == buf[HEADER..];
    if d.Err? {
      assert ParseFront(buf) == Bad(d.error, |buf|);
      BadIsFinal(buf, input);
      assert buf[..|buf|] == buf;
    } else {
      assert ParseFront(buf) == Got(d.value, |buf|);
      FrontStable(buf, input);
      DecodeGot(buf + input, d.value, |buf|);
      assert (buf + input)[|buf|..] == input;
    }
  }

  class Decoder {
    var buf: seq<Byte>
    ghost var pushed: seq<Byte>

    /** A frame is pending, or nothing is, and no error was met in all the bytes pushed so far. This is how every push
        that succeeds leaves the decoder. */
    ghost predicate Valid()
      reads this
    {
      Waiting(buf) && DecodeAll(pushed).error == None && DecodeAll(pushed).rest == buf
    }

    constructor ()
      ensures Valid() && buf == pushed == []
    {
      buf, pushed := [], [];
      new;
      WaitsOn([]);
    }

    method Push(chunk: seq<Byte>) returns (r: Result<seq<Frame>>)
      requires Valid()
      modifies this
      ensures var d := DecodeAll(old(buf) + chunk);
              && buf == d.rest && |buf| <= MAX_BUFFER
              && r == (if d.error.Some? then Err(d.error.value) else Ok(d.frames))
              && (r.Ok? ==> Valid())
      ensures pushed == old(pushed) + chunk
      ensures r.Ok? ==> DecodeAll(pushed).frames == DecodeAll(old(pushed)).frames + r.value
      ensures r.Err? ==> DecodeAll(pushed).error == Some(r.error)
    {
      hide ParseFront, DecodeAll, LengthOf, ValidateHeader, DecodePayload, Waiting;
      DecodeAppend(pushed, chunk);
      pushed := pushed + chunk;
      ghost var all, earlier := DecodeAll(old(buf) + chunk), DecodeAll(old(pushed));
      assert DecodeAll(pushed) == Then(earlier, all);
      var out: seq<Frame> := [];
      var input := chunk;
      NothingThen(DecodeAll(buf + chunk));
      WaitingIsShort(buf);
      while true
        invariant Waiting(buf) && |buf| <= MAX_BUFFER
        invariant all == Then(Decoded(out, [], None), DecodeAll(buf + input))
        invariant pushed == old(pushed) + chunk
        decreases |input|
      {
        WaitingIsShort(buf);
        var full: bool;
        ghost var size := |buf + input|;
        full, input := Fill(HEADER, input);
        assert |buf| + |input| == |buf + input| == size;
        if !full {
          WaitsOn(buf);
          WaitingIsShort(buf);
          assert out + [] == out;
          return Ok(out);
        }
        var len := LengthOf(buf);
        var bad := ValidateHeader(buf[0], len);
        if bad.Some? {
          BadHeader(buf, input);
          return Err(bad.value);
        }
        HeaderBounds(buf[0], len);
        var total: int := HEADER + len;
        ghost var header := buf;
        full, input := Fill(total, input);
        SameLength(header, buf);
        assert |buf| + |input| == |buf + input| == size;
        if !full {
          WaitsOn(buf);
          WaitingIsShort(buf);
          assert out + [] == out;
          return Ok(out);
        }
        FullFrame(buf, input);
        var frame := DecodePayload(buf[0], buf[HEADER..total]);
        assert buf[HEADER..total] == buf[HEADER..];
        if frame.Err? {
          return Err(frame.error);
        }
        buf := buf[total..];
        Assoc(out, [frame.value], DecodeAll(input).frames);
        out := out + [frame.value];
        assert buf + input == input;
        WaitsOn(buf);
        if buf == [] && input == [] {
          assert out + [] == out;
          return Ok(out);
        }
      }
    }

    /** Moves input into the buffer until the buffer holds `size` bytes, or the input is used up. */
    method Fill(size: nat, input: seq<Byte>) returns (full: bool, left: seq<Byte>)
      modifies this`buf
      ensures full == (|old(buf) + input| >= size)
      ensures buf + left == old(buf) + input && old(buf) <= buf
      ensures |buf| == if |old(buf)| >= size then |old(buf)| else if full then size else |old(buf) + input|
      ensures !full ==> left == [] && buf == old(buf) + input
      ensures |old(buf)| >= size ==> buf == old(buf) && left == input
    {
      left := input;
      if |buf| < size {
        var need := size - |buf|;
        if |input| < need {
          buf := buf + input;
          return false, [];
        }
        buf := buf + input[..need];
        left := input[need..];
      }
      full := true;
    }

    /** The peer closed the socket: if no push failed, the end is clean exactly when all the bytes ever pushed are a
        concatenation of frame encodings, and otherwise it is a truncation. */
    method Finish() returns (r: Result<()>)
      ensures r.Ok? || r == Err(Truncated)
      ensures Valid() ==> (r.Ok? <==> exists frames :: Encodable(frames) && EncodeAll(frames) == pushed)
    {
      hide DecodeAll, Encode, ParseFront;
      CleanEnd(pushed);
      return if buf == [] then Ok(()) else Err(Truncated);
    }
  }

  lemma CleanEnd(bytes: seq<Byte>)
    ensures DecodeAll(bytes).error == None && DecodeAll(bytes).rest == []
            <==> exists frames :: Encodable(frames) && EncodeAll(frames) == bytes
  {
    hide DecodeAll, Encode;
    AcceptsExactlyEncodings(bytes, DecodeAll(bytes).frames);
    if frames :| Encodable(frames) && EncodeAll(frames) == bytes {
      AcceptsExactlyEncodings(bytes, frames);
    }
  }

  lemma NothingThen(d: Decoded)
    ensures Then(Decoded([], [], None), d) == d
  {
    assert [] + d.frames == d.frames;
  }

  lemma HeaderBounds(ty: Byte, len: U32)
    requires ValidateHeader(ty, len) == None
    ensures 1 <= ty <= 10 && HeaderMatches(ty, len) && 8 <= len && HEADER + len <= MAX_BUFFER
  {
  }

  lemma SameLength(a: seq<Byte>, b: seq<Byte>)
    requires |a| >= HEADER && a <= b
    ensures LengthOf(a) == LengthOf(b) && a[0] == b[0]
  {
    assert a[1..5] == b[1..5];
  }
}
