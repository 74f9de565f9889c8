/**
  The frames on the wire, byte by byte, and what is refused: edge/src/frame.rs. Everything here is in positions and
  numbers.
  */
module FrameLayout {
  import opened Prelude
  import opened Frames
  import BigEndian

  /** The big-endian number of `width` bytes at `at`. */
  function Num(b: seq<Byte>, at: nat, width: nat): nat
    requires at + width <= |b|
  {
    if width == 0 then 0 else Num(b, at, width - 1) * 256 + b[at + width - 1]
  }

  lemma {:induction false} NumShift(pre: seq<Byte>, b: seq<Byte>, post: seq<Byte>, width: nat)
    requires width <= |b|
    ensures Num(pre + b + post, |pre|, width) == Num(b, 0, width)
  {
    if width > 0 {
      NumShift(pre, b, post, width - 1);
      assert (pre + b + post)[|pre| + width - 1] == b[width - 1];
    }
  }

  lemma {:induction false} NumOfBytes(n: nat, width: nat)
    requires n < BigEndian.Pow256(width)
    ensures Num(BigEndian.ToBytes(n, width), 0, width) == n
  {
    if width > 0 {
      var init := BigEndian.ToBytes(n / 256, width - 1);
      NumOfBytes(n / 256, width - 1);
      NumShift([], init, [n % 256], width - 1);
      assert [] + init + [n % 256] == BigEndian.ToBytes(n, width);
    }
  }

  /** A number written between other bytes is found at its place. */
  lemma NumThere(pre: seq<Byte>, n: nat, width: nat, post: seq<Byte>)
    requires n < BigEndian.Pow256(width)
    ensures Num(pre + BigEndian.ToBytes(n, width) + post, |pre|, width) == n
  {
    NumOfBytes(n, width);
    NumShift(pre, BigEndian.ToBytes(n, width), post, width);
  }

  // ----- The header -----

  /** Which frames can be sent: a HELLO_OK with a month from 1 to 12, and DATA of at most 16384 bytes. */
  lemma EncodableExactly(f: Frame)
    ensures Encode(f).Ok? <==> (f.HelloOk? ==> 1 <= f.month <= 12) && (f.Data? ==> |f.payload| <= 16384)
    ensures Encode(f) == Err(BadMonth) <==> f.HelloOk? && !(1 <= f.month <= 12)
    ensures Encode(f) == Err(DataTooLong) <==> f.Data? && |f.payload| > 16384
  {
  }

  /** The type byte and the length field. */
  lemma HeaderIs(f: Frame)
    requires Encode(f).Ok?
    ensures var b := Encode(f).value;
            && |b| >= 5 && b == b[..5] + PayloadOf(f) && Num(b, 1, 4) == |b| - 5 && b[0] == TypeOf(f)
  {
    hide PayloadOf, TypeOf;
    var p := PayloadOf(f);
    PayloadSize(f);
    BigEndian.Widths();
    NumThere([TypeOf(f)], |p|, 4, p);
    var b := Encode(f).value;
    assert b[..5] == [TypeOf(f)] + BigEndian.ToBytes(|p|, 4);
  }

  /** A field of the payload is found five bytes further on. */
  lemma FieldIs(f: Frame, pre: seq<Byte>, n: nat, width: nat, post: seq<Byte>)
    requires Encode(f).Ok? && n < BigEndian.Pow256(width) && PayloadOf(f) == pre + BigEndian.ToBytes(n, width) + post
    ensures 5 + |pre| + width <= |Encode(f).value| && Num(Encode(f).value, 5 + |pre|, width) == n
  {
    hide Encode, PayloadOf, Num;
    HeaderIs(f);
    var b, bytes := Encode(f).value, BigEndian.ToBytes(n, width);
    var head := b[..5];
    Assoc(head, pre + bytes, post);
    Assoc(head, pre, bytes);
    hide BigEndian.ToBytes;
    NumThere(head + pre, n, width, post);
  }

  /** And so is the end of the payload. */
  lemma TailIs(f: Frame, pre: seq<Byte>, tail: seq<Byte>)
    requires Encode(f).Ok? && PayloadOf(f) == pre + tail
    ensures |Encode(f).value| == 5 + |pre| + |tail| && Encode(f).value[5 + |pre|..] == tail
  {
    hide Encode, PayloadOf;
    HeaderIs(f);
    var b := Encode(f).value;
    Assoc(b[..5], pre, tail);
    assert ((b[..5] + pre) + tail)[5 + |pre|..] == tail;
  }

  // ----- Every frame -----

  /** HELLO: version 1 and the five pairs of public port and loopback port. */
  lemma HelloLayout()
    ensures Encode(Hello).Ok?
    ensures var b := Encode(Hello).value;
            && |b| == 29 && b[0] == 1 && Num(b, 1, 4) == 24 && Num(b, 5, 2) == 1 && Num(b, 7, 2) == 5
            && Num(b, 9, 2) == 25 && Num(b, 11, 2) == 2525
            && Num(b, 13, 2) == 465 && Num(b, 15, 2) == 2465
            && Num(b, 17, 2) == 993 && Num(b, 19, 2) == 2993
            && Num(b, 21, 2) == 80 && Num(b, 23, 2) == 8088
            && Num(b, 25, 2) == 443 && Num(b, 27, 2) == 8448
  {
    HeaderIs(Hello);
    var b, p := Encode(Hello).value, PayloadOf(Hello);
    assert b[..5] + p == b && |b[..5]| == 5;
    hide Encode, PayloadOf;
    forall i | 0 <= i < 24 ensures b[5 + i] == p[i] {
    }
    TwoBytes(b, 5, p[0], p[1]);
    TwoBytes(b, 7, p[2], p[3]);
    TwoBytes(b, 9, p[4], p[5]);
    TwoBytes(b, 11, p[6], p[7]);
    TwoBytes(b, 13, p[8], p[9]);
    TwoBytes(b, 15, p[10], p[11]);
    TwoBytes(b, 17, p[12], p[13]);
    TwoBytes(b, 19, p[14], p[15]);
    TwoBytes(b, 21, p[16], p[17]);
    TwoBytes(b, 23, p[18], p[19]);
    TwoBytes(b, 25, p[20], p[21]);
    TwoBytes(b, 27, p[22], p[23]);
  }

  lemma TwoBytes(b: seq<Byte>, at: nat, high: Byte, low: Byte)
    requires at + 2 <= |b| && b[at] == high && b[at + 1] == low
    ensures Num(b, at, 2) == 256 * (high as int) + low as int
  {
    assert Num(b, at, 1) == Num(b, at, 0) * 256 + b[at];
  }

  /** HELLO_OK: the count, the state, the year and the month. */
  lemma HelloOkLayout(f: Frame)
    requires f.HelloOk? && Encode(f).Ok?
    ensures var b := Encode(f).value;
            && |b| == 17 && b[0] == 2 && Num(b, 1, 4) == 12 && Num(b, 5, 8) == f.txBytes
            && b[13] == (if f.state.QuotaOpen? then 0 else if f.state.PausedQuota? then 1 else 2)
            && Num(b, 14, 2) == f.year && b[16] == f.month
  {
    BigEndian.Widths();
    HeaderIs(f);
    var b, tx, year := Encode(f).value, BigEndian.ToBytes(f.txBytes, 8), BigEndian.ToBytes(f.year, 2);
    var state, month: seq<Byte> := [StateCode(f.state)], [f.month];
    assert PayloadOf(f) == tx + state + year + month;
    hide Encode, PayloadOf;
    assert tx + state + year + month == [] + tx + (state + year + month) == (tx + state) + year + month;
    FieldIs(f, [], f.txBytes, 8, state + year + month);
    FieldIs(f, tx + state, f.year, 2, month);
    assert b[13] == (b[..5] + PayloadOf(f))[13] && b[16] == (b[..5] + PayloadOf(f))[16];
  }

  /** Frames that begin with a 64-bit number: where it is, and what follows it. */
  lemma NumberFirst(f: Frame, n: U64, tail: seq<Byte>)
    requires Encode(f).Ok? && PayloadOf(f) == BigEndian.ToBytes(n, 8) + tail
    ensures var b := Encode(f).value;
            && |b| == 13 + |tail| && b[0] == TypeOf(f) && Num(b, 1, 4) == 8 + |tail| && Num(b, 5, 8) == n && b[13..] == tail
  {
    hide Encode, PayloadOf, TypeOf, BigEndian.ToBytes, Num;
    var bytes := BigEndian.ToBytes(n, 8);
    BigEndian.Widths();
    HeaderIs(f);
    assert bytes + tail == [] + bytes + tail;
    FieldIs(f, [], n, 8, tail);
    TailIs(f, bytes, tail);
  }

  /** PING, PONG and OPEN_OK: one 64-bit number. */
  lemma OneNumberLayout(f: Frame)
    requires f.Ping? || f.Pong? || f.OpenOk?
    ensures Encode(f).Ok?
    ensures var b := Encode(f).value;
            && |b| == 13 && b[0] == (if f.Ping? then 3 else if f.Pong? then 4 else 6) && Num(b, 1, 4) == 8
            && Num(b, 5, 8) == if f.Ping? then f.unixMs else if f.Pong? then f.unixMs else f.connId
  {
    var n := if f.Ping? then f.unixMs else if f.Pong? then f.unixMs else f.connId;
    hide BigEndian.ToBytes, Num;
    assert PayloadOf(f) == BigEndian.ToBytes(n, 8) == BigEndian.ToBytes(n, 8) + [];
    NumberFirst(f, n, []);
    hide PayloadOf;
  }

  /** OPEN_FAIL, CLOSE and QUOTA: one 64-bit number and a code. */
  lemma NumberAndCodeLayout(f: Frame)
    requires f.OpenFail? || f.Close? || f.Quota?
    ensures Encode(f).Ok?
    ensures var b := Encode(f).value;
            && |b| == 14 && Num(b, 1, 4) == 9
            && (f.OpenFail? ==>
                  b[0] == 7 && Num(b, 5, 8) == f.connId
                  && b[13] == (if f.failReason.DialRefused? then 1 else if f.failReason.BadPort? then 2 else 3))
            && (f.Close? ==>
                  b[0] == 9 && Num(b, 5, 8) == f.connId
                  && b[13] == (if f.closeReason.Eof? then 1 else if f.closeReason.Reset? then 2 else 3))
            && (f.Quota? ==>
                  b[0] == 10 && Num(b, 5, 8) == f.txBytes
                  && b[13] == (if f.state.QuotaOpen? then 0 else if f.state.PausedQuota? then 1 else 2))
  {
    hide BigEndian.ToBytes, Num;
    var n := if f.Quota? then f.txBytes else f.connId;
    var code: seq<Byte> :=
      if f.Quota? then [StateCode(f.state)] else if f.Close? then [CloseCode(f.closeReason)] else [FailCode(f.failReason)];
    assert PayloadOf(f) == BigEndian.ToBytes(n, 8) + code;
    NumberFirst(f, n, code);
    assert Encode(f).value[13] == Encode(f).value[13..][0];
    hide PayloadOf;
  }

  /** OPEN: the id, both ports, and the address mapped into IPv6. */
  lemma OpenLayout(f: Frame)
    requires f.Open?
    ensures Encode(f).Ok?
    ensures var b := Encode(f).value;
            && |b| == 33 && b[0] == 5 && Num(b, 1, 4) == 28
            && Num(b, 5, 8) == f.connId && Num(b, 13, 2) == f.publicPort && Num(b, 15, 2) == f.srcPort
            && (forall i :: 17 <= i < 27 ==> b[i] == 0) && b[27] == b[28] == 255
            && b[29] == f.addr.a && b[30] == f.addr.b && b[31] == f.addr.c && b[32] == f.addr.d
  {
    hide BigEndian.ToBytes, Num;
    BigEndian.Widths();
    var id, public := BigEndian.ToBytes(f.connId, 8), BigEndian.ToBytes(f.publicPort, 2);
    var src := BigEndian.ToBytes(f.srcPort, 2);
    var ip: seq<Byte> := MAPPED_PREFIX + [f.addr.a, f.addr.b, f.addr.c, f.addr.d];
    OpenPayload(f);
    assert Encode(f).Ok? && TypeOf(f) == 5;
    hide Encode, PayloadOf, TypeOf;
    Assoc(id, public, src + ip);
    Assoc(public, src, ip);
    NumberFirst(f, f.connId, public + src + ip);
    FieldIs(f, id, f.publicPort, 2, src + ip);
    Assoc(id + public, src, ip);
    FieldIs(f, id + public, f.srcPort, 2, ip);
    TailIs(f, id + public + src, ip);
    var b := Encode(f).value;
    assert |id + public + src| == 12;
    assert forall i :: 17 <= i < 33 ==> b[i] == b[17..][i - 17];
  }

  lemma OpenPayload(f: Frame)
    requires f.Open?
    ensures var id, public := BigEndian.ToBytes(f.connId, 8), BigEndian.ToBytes(f.publicPort, 2);
            var src, ip := BigEndian.ToBytes(f.srcPort, 2), MAPPED_PREFIX + [f.addr.a, f.addr.b, f.addr.c, f.addr.d];
            && PayloadOf(f) == id + public + src + ip == id + (public + src + ip) == id + public + (src + ip)
  {
    hide BigEndian.ToBytes;
    var id, public := BigEndian.ToBytes(f.connId, 8), BigEndian.ToBytes(f.publicPort, 2);
    var src, ip := BigEndian.ToBytes(f.srcPort, 2), MAPPED_PREFIX + [f.addr.a, f.addr.b, f.addr.c, f.addr.d];
    Assoc(id + public + src, MAPPED_PREFIX, [f.addr.a, f.addr.b, f.addr.c, f.addr.d]);
    Assoc(id + public, src, ip);
    Assoc(id, public, src + ip);
    Assoc(public, src, ip);
  }

  /** DATA: the id and then the bytes as they are. */
  lemma DataLayout(f: Frame)
    requires f.Data? && Encode(f).Ok?
    ensures var b := Encode(f).value;
            && |b| == 13 + |f.payload| && b[0] == 8 && Num(b, 1, 4) == 8 + |f.payload|
            && Num(b, 5, 8) == f.connId && b[13..] == f.payload
  {
    hide BigEndian.ToBytes, Num;
    assert PayloadOf(f) == BigEndian.ToBytes(f.connId, 8) + f.payload;
    NumberFirst(f, f.connId, f.payload);
    hide PayloadOf, Encode;
  }

  // ----- What is refused -----

  /** The length that a type asks for; DATA has a range of them. */
  predicate LengthFits(ty: Byte, len: nat) {
    || (ty == 1 && len == 24) || (ty == 2 && len == 12) || (ty == 3 && len == 8) || (ty == 4 && len == 8)
    || (ty == 5 && len == 28) || (ty == 6 && len == 8) || (ty == 7 && len == 9) || (ty == 9 && len == 9)
    || (ty == 10 && len == 9) || (ty == 8 && 8 <= len <= 16392)
  }

  lemma HeaderErrorsExactly(ty: Byte, len: U32)
    ensures var e := ValidateHeader(ty, len);
            && (e == Some(TooLong) <==> len > 65536)
            && (e == Some(UnknownType) <==> len <= 65536 && !(1 <= ty <= 10))
            && (e == Some(DataTooLong) <==> 16392 < len <= 65536 && ty == 8)
            && (e == Some(BadLength) <==>
                  1 <= ty <= 10 && len <= 65536 && !LengthFits(ty, len) && !(ty == 8 && len > 16392))
            && (e == None <==> LengthFits(ty, len))
  {
  }

  lemma PayloadErrorsExactly(ty: Byte, p: seq<Byte>)
    requires 1 <= ty <= 10 && LengthFits(ty, |p|)
    ensures HeaderMatches(ty, |p|)
    ensures var d := DecodePayload(ty, p);
            && (d == Err(BadHello) <==> ty == 1 && p != PayloadOf(Hello))
            && (d == Err(BadMonth) <==> ty == 2 && !(1 <= p[11] <= 12))
            && (d == Err(BadState) <==> p != [] && ((ty == 2 && 1 <= p[11] <= 12 && p[8] > 2) || (ty == 10 && p[8] > 2)))
            && (d == Err(BadAddress) <==>
                  ty == 5 && !((forall i :: 12 <= i < 22 ==> p[i] == 0) && p[22] == 255 && p[23] == 255))
            && (d == Err(BadReason) <==> (ty == 7 || ty == 9) && !(1 <= p[8] <= 3))
  {
    if ty == 5 { MappedExactly(p); }
    hide DecodeMapped, U64At, U16At;
  }

  lemma MappedExactly(p: seq<Byte>)
    requires |p| == 28
    ensures DecodeMapped(p[12..28]) == Err(BadAddress) || DecodeMapped(p[12..28]).Ok?
    ensures DecodeMapped(p[12..28]).Ok? <==> (forall i :: 12 <= i < 22 ==> p[i] == 0) && p[22] == 255 && p[23] == 255
  {
    var m := p[12..28];
    assert forall i :: 0 <= i < 16 ==> m[i] == p[12 + i];
    if m[..12] == MAPPED_PREFIX {
      forall i | 12 <= i < 22 ensures p[i] == 0 { assert m[..12][i - 12] == MAPPED_PREFIX[i - 12]; }
      assert m[..12][10] == m[..12][11] == 255;
    }
    if (forall i :: 12 <= i < 22 ==> p[i] == 0) && p[22] == 255 && p[23] == 255 {
      forall i | 0 <= i < 12 ensures m[..12][i] == MAPPED_PREFIX[i] {
        if i < 10 { assert p[12 + i] == 0; }
      }
      assert m[..12] == MAPPED_PREFIX;
    }
  }
}
