/**
  The ZIP writer: `u16`, `u32`, `buildZip` and `concat` of webui/src/zip.ts, and a reader that follows sections 4.3.7,
  4.3.12 and 4.3.16 of PKWARE's APPNOTE: end record, then central directory, then local headers.
  */
module Zip {
  import opened Prelude
  import opened Crc

  type Bytes = seq<bv8>

  /** A name after UTF-8 encoding, and the data. */
  datatype Entry = Entry(name: Bytes, data: Bytes)

  // ----- Numbers, lowest byte first -----

  function ByteAt(n: nat, k: nat): bv8
    requires k < 4
  {
    (n / (if k == 0 then 1 else if k == 1 then 0x100 else if k == 2 then 0x1_0000 else 0x100_0000) % 0x100) as bv8
  }

  function U16Bytes(n: nat): (r: Bytes)
    ensures |r| == 2
  {
    [ByteAt(n, 0), ByteAt(n, 1)]
  }

  function U32Bytes(n: nat): (r: Bytes)
    ensures |r| == 4
  {
    [ByteAt(n, 0), ByteAt(n, 1), ByteAt(n, 2), ByteAt(n, 3)]
  }

  function CrcBytes(c: bv32): (r: Bytes)
    ensures |r| == 4
  {
    [(c & 0xff) as bv8, ((c >> 8) & 0xff) as bv8, ((c >> 16) & 0xff) as bv8, ((c >> 24) & 0xff) as bv8]
  }

  function ReadU16(b: Bytes): nat
    requires |b| == 2
  {
    b[0] as int + 0x100 * (b[1] as int)
  }

  function ReadU32(b: Bytes): nat
    requires |b| == 4
  {
    b[0] as int + 0x100 * (b[1] as int) + 0x1_0000 * (b[2] as int) + 0x100_0000 * (b[3] as int)
  }

  function ReadCrc(b: Bytes): bv32
    requires |b| == 4
  {
    (b[0] as bv32) | ((b[1] as bv32) << 8) | ((b[2] as bv32) << 16) | ((b[3] as bv32) << 24)
  }

  lemma ByteBack(n: int)
    requires 0 <= n < 256
    ensures (n as bv8) as int == n
  {
    assert n == n % 256;
  }

  lemma ByteAtIs(n: nat, k: nat)
    requires k < 4
    ensures k == 0 ==> ByteAt(n, k) as int == n % 0x100
    ensures k == 1 ==> ByteAt(n, k) as int == n / 0x100 % 0x100
    ensures k == 2 ==> ByteAt(n, k) as int == n / 0x1_0000 % 0x100
    ensures k == 3 ==> ByteAt(n, k) as int == n / 0x100_0000 % 0x100
  {
    var d := if k == 0 then 1 else if k == 1 then 0x100 else if k == 2 then 0x1_0000 else 0x100_0000;
    ByteBack(n / d % 0x100);
  }

  lemma U16RoundTrip(n: nat)
    requires n < 0x1_0000
    ensures ReadU16(U16Bytes(n)) == n
  {
    ByteAtIs(n, 0);
    ByteAtIs(n, 1);
    hide ByteAt;
    TwoBytes(n);
  }

  lemma TwoBytes(n: nat)
    requires n < 0x1_0000
    ensures n == n % 0x100 + 0x100 * (n / 0x100 % 0x100)
  {
  }

  lemma U32RoundTrip(n: nat)
    requires n < 0x1_0000_0000
    ensures ReadU32(U32Bytes(n)) == n
  {
    ByteAtIs(n, 0);
    ByteAtIs(n, 1);
    ByteAtIs(n, 2);
    ByteAtIs(n, 3);
    hide ByteAt;
    FourBytes(n);
  }

  lemma FourBytes(n: nat)
    requires n < 0x1_0000_0000
    ensures n == n % 0x100 + 0x100 * (n / 0x100 % 0x100) + 0x1_0000 * (n / 0x1_0000 % 0x100)
                 + 0x100_0000 * (n / 0x100_0000 % 0x100)
  {
  }

  lemma CrcRoundTrip(c: bv32)
    ensures ReadCrc(CrcBytes(c)) == c
  {
    CrcParts(c);
  }

  lemma CrcParts(c: bv32)
    ensures c == (((c & 0xff) as bv8) as bv32) | ((((c >> 8) & 0xff) as bv8 as bv32) << 8)
                 | ((((c >> 16) & 0xff) as bv8 as bv32) << 16) | ((((c >> 24) & 0xff) as bv8 as bv32) << 24)
  {
  }

  // ----- The archive -----

  const LOCAL_SIGNATURE := 0x04034b50
  const CENTRAL_SIGNATURE := 0x02014b50
  const END_SIGNATURE := 0x06054b50

  /** CRC, both sizes and the name length: 14 bytes that the local and the central header share. */
  function Sizes(e: Entry): (r: Bytes)
    ensures |r| == 14
  {
    CrcBytes(Crc32(e.data)) + U32Bytes(|e.data|) + U32Bytes(|e.data|) + U16Bytes(|e.name|)
  }

  function LocalHeader(e: Entry): (r: Bytes)
    ensures |r| == 30
  {
    U32Bytes(LOCAL_SIGNATURE) + U16Bytes(20) + U16Bytes(0x0800) + U16Bytes(0) + U16Bytes(0) + U16Bytes(0)
    + Sizes(e) + U16Bytes(0)
  }

  function Local(e: Entry): Bytes { LocalHeader(e) + e.name + e.data }

  function CentralHeader(e: Entry, offset: nat): (r: Bytes)
    ensures |r| == 46
  {
    U32Bytes(CENTRAL_SIGNATURE) + U16Bytes(20) + U16Bytes(20) + U16Bytes(0x0800) + U16Bytes(0) + U16Bytes(0) + U16Bytes(0)
    + Sizes(e)
    + U16Bytes(0) + U16Bytes(0) + U16Bytes(0) + U16Bytes(0) + U32Bytes(0) + U32Bytes(offset)
  }

  function Central(e: Entry, offset: nat): Bytes { CentralHeader(e, offset) + e.name }

  function EndRecord(count: nat, size: nat, offset: nat): (r: Bytes)
    ensures |r| == 22
  {
    U32Bytes(END_SIGNATURE) + U16Bytes(0) + U16Bytes(0) + U16Bytes(count) + U16Bytes(count)
    + U32Bytes(size) + U32Bytes(offset) + U16Bytes(0)
  }

  function Locals(es: seq<Entry>): Bytes {
    if es == [] then [] else Locals(es[..|es| - 1]) + Local(es[|es| - 1])
  }

  /** Each central header holds the length of the local parts before its own. */
  function Centrals(es: seq<Entry>): Bytes {
    if es == [] then []
    else Centrals(es[..|es| - 1]) + Central(es[|es| - 1], |Locals(es[..|es| - 1])|)
  }

  function Archive(es: seq<Entry>): Bytes {
    Locals(es) + Centrals(es) + EndRecord(|es|, |Centrals(es)|, |Locals(es)|)
  }

  // ----- The reader -----

  datatype Found = Found(name: Bytes, data: Bytes, crc: bv32, offset: nat)

  function Slice(b: Bytes, at: nat, n: nat): Option<Bytes> {
    if at + n <= |b| then Some(b[at..at + n]) else None
  }

  function Num16(b: Bytes, at: nat): nat
    requires at + 2 <= |b|
  {
    ReadU16(b[at..at + 2])
  }

  function Num32(b: Bytes, at: nat): nat
    requires at + 4 <= |b|
  {
    ReadU32(b[at..at + 4])
  }

  /** Version 2.0 needed, a UTF-8 name, and data stored as it is (sections 4.4.3 to 4.4.5). */
  predicate IsStored(v: Bytes)
    requires |v| == 6
  {
    Num16(v, 0) == 20 && Num16(v, 2) == 0x0800 && Num16(v, 4) == 0
  }

  /** The local header at `offset`, with its name and data, if it repeats what the central directory said of the CRC, the
      sizes and the name's length. The data is as long as the compressed size says. */
  function ReadLocal(b: Bytes, offset: nat, sizes: Bytes): Option<(Bytes, Bytes)>
    requires |sizes| == 14
  {
    match Slice(b, offset, 30)
    case None => None
    case Some(h) =>
      if Num32(h, 0) != 0x04034b50 || !IsStored(h[4..10]) || h[14..28] != sizes then None
      else
        var start, nameLen := offset + 30, Num16(sizes, 12);
        match Slice(b, start, nameLen)
        case None => None
        case Some(name) =>
          match Slice(b, start + nameLen + Num16(h, 28), Num32(sizes, 4))
          case None => None
          case Some(data) => Some((name, data))
  }

  /** One entry of the central directory at `at`: the entry and the place of the next one. A stored entry has equal
      sizes, and lies on the one disk. */
  function ReadEntry(b: Bytes, at: nat): Option<(Found, nat)> {
    match Slice(b, at, 46)
    case None => None
    case Some(h) =>
      var sizes := h[16..30];
      var nameLen, offset := Num16(sizes, 12), Num32(h, 42);
      if Num32(h, 0) != 0x02014b50 || !IsStored(h[6..12]) || Num32(sizes, 4) != Num32(sizes, 8) || Num16(h, 34) != 0 then None
      else
        match (Slice(b, at + 46, nameLen), ReadLocal(b, offset, sizes))
        case (Some(name), Some((localName, data))) =>
          if localName != name then None
          else Some((Found(name, data, ReadCrc(sizes[..4]), offset), at + 46 + nameLen + Num16(h, 30) + Num16(h, 32)))
        case _ => None
  }

  function ReadEntries(b: Bytes, at: nat, count: nat): Option<seq<Found>>
    decreases count
  {
    if count == 0 then Some([])
    else
      match ReadEntry(b, at)
      case None => None
      case Some((found, next)) =>
        match ReadEntries(b, next, count - 1)
        case None => None
        case Some(rest) => Some([found] + rest)
  }

  /** From the end record at the very end of the file; the directory must reach exactly up to it. */
  function ReadArchive(b: Bytes): Option<seq<Found>> {
    if |b| < 22 then None
    else
      var h := b[|b| - 22..];
      var count, size, offset := Num16(h, 10), Num32(h, 12), Num32(h, 16);
      if Num32(h, 0) != 0x06054b50 || Num16(h, 4) != 0 || Num16(h, 6) != 0 || Num16(h, 8) != count || Num16(h, 20) != 0
      then None
      else if offset + size != |b| - 22 then None
      else ReadEntries(b, offset, count)
  }

  // ----- Fields of the headers -----

  lemma Middle(a: Bytes, b: Bytes, c: Bytes)
    ensures (a + b + c)[|a|..|a| + |b|] == b && (a + b + c)[..|a|] == a && (a + b + c)[|a| + |b|..] == c
  {
  }

  /** The version, flags and method that both headers hold. */
  function StoredFields(): Bytes { U16Bytes(20) + U16Bytes(0x0800) + U16Bytes(0) }

  lemma StoredFieldsAre()
    ensures |StoredFields()| == 6 && IsStored(StoredFields())
  {
    hide U16Bytes, ReadU16;
    U16RoundTrip(20);
    U16RoundTrip(0x0800);
    U16RoundTrip(0);
    var v := StoredFields();
    assert v[0..2] == U16Bytes(20) && v[2..4] == U16Bytes(0x0800) && v[4..6] == U16Bytes(0);
  }

  lemma SizesFields(e: Entry)
    requires |e.name| < 0x1_0000 && |e.data| < 0x1_0000_0000
    ensures var s := Sizes(e);
            && ReadCrc(s[..4]) == Crc32(e.data)
            && Num32(s, 4) == Num32(s, 8) == |e.data|
            && Num16(s, 12) == |e.name|
  {
    hide Crc32, ReadCrc, ReadU32, ReadU16, CrcBytes, U32Bytes, U16Bytes;
    var s := Sizes(e);
    CrcRoundTrip(Crc32(e.data));
    U32RoundTrip(|e.data|);
    U16RoundTrip(|e.name|);
    assert s[..4] == CrcBytes(Crc32(e.data));
    assert s[4..8] == U32Bytes(|e.data|);
    assert s[8..12] == U32Bytes(|e.data|);
    assert s[12..14] == U16Bytes(|e.name|);
  }

  lemma TwoZeros()
    ensures var c := U16Bytes(0) + U16Bytes(0); c[0..2] == c[2..4] == U16Bytes(0)
  {
    hide U16Bytes;
  }

  /** Every field of a local header, by its place (section 4.3.7): no time, no date, no extra field. */
  lemma LocalFields(e: Entry)
    ensures var h := LocalHeader(e);
            && Num32(h, 0) == 0x04034b50 && IsStored(h[4..10]) && Num16(h, 10) == 0 && Num16(h, 12) == 0
            && h[14..28] == Sizes(e) && Num16(h, 28) == 0
  {
    hide Sizes, U32Bytes, U16Bytes, ReadU16, ReadU32, IsStored;
    var h := LocalHeader(e);
    U16RoundTrip(0);
    U32RoundTrip(LOCAL_SIGNATURE);
    StoredFieldsAre();
    TwoZeros();
    var a, c := U32Bytes(LOCAL_SIGNATURE), U16Bytes(0) + U16Bytes(0);
    assert h == a + StoredFields() + c + Sizes(e) + U16Bytes(0);
    assert h[0..4] == a && h[4..10] == StoredFields() && h[10..12] == c[0..2] && h[12..14] == c[2..4];
    assert h[14..28] == Sizes(e) && h[28..30] == U16Bytes(0);
  }

  /** Every field of a central header (section 4.3.12): made by version 2.0, on disk 0, without time, date, extra field,
      comment or attributes. */
  lemma CentralFields(e: Entry, offset: nat)
    requires offset < 0x1_0000_0000
    ensures var h := CentralHeader(e, offset);
            && Num32(h, 0) == 0x02014b50 && Num16(h, 4) == 20 && IsStored(h[6..12])
            && Num16(h, 12) == 0 && Num16(h, 14) == 0 && h[16..30] == Sizes(e)
            && Num16(h, 30) == 0 && Num16(h, 32) == 0 && Num16(h, 34) == 0 && Num16(h, 36) == 0
            && Num32(h, 38) == 0 && Num32(h, 42) == offset
  {
    hide Sizes, U32Bytes, U16Bytes, ReadU16, ReadU32, IsStored;
    var h := CentralHeader(e, offset);
    U16RoundTrip(0);
    U16RoundTrip(20);
    U32RoundTrip(0);
    U32RoundTrip(offset);
    U32RoundTrip(CENTRAL_SIGNATURE);
    StoredFieldsAre();
    TwoZeros();
    var a, t := U32Bytes(CENTRAL_SIGNATURE) + U16Bytes(20), U16Bytes(0) + U16Bytes(0);
    var c := U16Bytes(0) + U16Bytes(0) + U16Bytes(0) + U16Bytes(0) + U32Bytes(0) + U32Bytes(offset);
    assert h == a + StoredFields() + t + Sizes(e) + c;
    assert h[0..4] == a[0..4] == U32Bytes(CENTRAL_SIGNATURE) && h[4..6] == a[4..6] == U16Bytes(20);
    assert h[6..12] == StoredFields() && h[12..14] == t[0..2] && h[14..16] == t[2..4] && h[16..30] == Sizes(e);
    assert h[30..] == c;
    CentralTail(h, c, offset);
  }

  lemma CentralTail(h: Bytes, c: Bytes, offset: nat)
    requires |h| == 46 && h[30..] == c && offset < 0x1_0000_0000
    requires c == U16Bytes(0) + U16Bytes(0) + U16Bytes(0) + U16Bytes(0) + U32Bytes(0) + U32Bytes(offset)
    ensures h[30..32] == h[32..34] == h[34..36] == h[36..38] == U16Bytes(0)
    ensures h[38..42] == U32Bytes(0) && h[42..46] == U32Bytes(offset)
  {
    hide U16Bytes, U32Bytes;
    assert h[30..32] == c[0..2] && h[32..34] == c[2..4] && h[34..36] == c[4..6] && h[36..38] == c[6..8];
    assert h[38..42] == c[8..12] && h[42..46] == c[12..16];
  }

  /** Every field of the end record (section 4.3.16): one disk, the count twice, and no comment. */
  lemma EndFields(count: nat, size: nat, offset: nat)
    requires count < 0x1_0000 && size < 0x1_0000_0000 && offset < 0x1_0000_0000
    ensures var h := EndRecord(count, size, offset);
            && Num32(h, 0) == 0x06054b50 && Num16(h, 4) == 0 && Num16(h, 6) == 0
            && Num16(h, 8) == Num16(h, 10) == count && Num32(h, 12) == size && Num32(h, 16) == offset && Num16(h, 20) == 0
  {
    hide U32Bytes, U16Bytes, ReadU16, ReadU32;
    var h := EndRecord(count, size, offset);
    U16RoundTrip(0);
    U16RoundTrip(count);
    U32RoundTrip(END_SIGNATURE);
    U32RoundTrip(size);
    U32RoundTrip(offset);
    assert h[0..4] == U32Bytes(END_SIGNATURE) && h[4..6] == U16Bytes(0) && h[6..8] == U16Bytes(0);
    assert h[8..10] == U16Bytes(count) && h[10..12] == U16Bytes(count);
    assert h[12..16] == U32Bytes(size) && h[16..20] == U32Bytes(offset) && h[20..22] == U16Bytes(0);
  }

  // ----- Where the parts are -----

  lemma {:induction false} LocalsPrefix(es: seq<Entry>, k: nat)
    requires k <= |es|
    ensures Locals(es[..k]) <= Locals(es)
    decreases |es|
  {
    hide Local;
    if k == |es| {
      assert es[..k] == es;
    } else {
      LocalsPrefix(es[..|es| - 1], k);
      assert es[..|es| - 1][..k] == es[..k];
    }
  }

  lemma {:induction false} CentralsPrefix(es: seq<Entry>, k: nat)
    requires k <= |es|
    ensures Centrals(es[..k]) <= Centrals(es)
    decreases |es|
  {
    hide Central, Locals;
    if k == |es| {
      assert es[..k] == es;
    } else {
      CentralsPrefix(es[..|es| - 1], k);
      assert es[..|es| - 1][..k] == es[..k];
    }
  }

  /** The local part of entry `i` stands at the offset that its central header gives. */
  lemma LocalAt(es: seq<Entry>, i: nat)
    requires i < |es|
    ensures var at := |Locals(es[..i])|;
            at + |Local(es[i])| <= |Locals(es)| && Locals(es)[at..at + |Local(es[i])|] == Local(es[i])
  {
    hide Local;
    assert es[..i + 1][..i] == es[..i] && es[..i + 1][i] == es[i];
    LocalsPrefix(es, i + 1);
  }

  lemma CentralAt(es: seq<Entry>, i: nat)
    requires i < |es|
    ensures var at, c := |Centrals(es[..i])|, Central(es[i], |Locals(es[..i])|);
            && at + |c| <= |Centrals(es)| && Centrals(es)[at..at + |c|] == c
            && |Centrals(es[..i + 1])| == at + |c|
  {
    hide Central, Locals;
    assert es[..i + 1][..i] == es[..i] && es[..i + 1][i] == es[i];
    CentralsPrefix(es, i + 1);
  }

  // ----- Reading the archive back -----

  /** What the format can express: 16-bit counts and name lengths, 32-bit sizes and offsets. */
  ghost predicate WithinLimits(es: seq<Entry>) {
    && |es| < 0x1_0000
    && |Locals(es)| < 0x1_0000_0000 && |Centrals(es)| < 0x1_0000_0000
    && forall i :: 0 <= i < |es| ==> |es[i].name| < 0x1_0000 && |es[i].data| < 0x1_0000_0000
  }

  function FoundIn(es: seq<Entry>, i: nat): Found
    requires i < |es|
  {
    Found(es[i].name, es[i].data, Crc32(es[i].data), |Locals(es[..i])|)
  }

  function FoundFrom(es: seq<Entry>, i: nat): seq<Found>
    requires i <= |es|
    decreases |es| - i
  {
    if i == |es| then [] else [FoundIn(es, i)] + FoundFrom(es, i + 1)
  }

  lemma SubSlice(b: Bytes, at: nat, n: nat, from: nat, to: nat)
    requires at + n <= |b| && from <= to <= n
    ensures b[at..at + n][from..to] == b[at + from..at + to]
  {
    var part := b[at..at + n];
    forall k | 0 <= k < to - from
      ensures part[from..to][k] == b[at + from..at + to][k]
    {
      assert part[from + k] == b[at + (from + k)];
    }
  }

  lemma ThreeSlices(b: Bytes, at: nat, h: Bytes, name: Bytes, data: Bytes)
    requires var l := h + name + data; at + |l| <= |b| && b[at..at + |l|] == l
    ensures Slice(b, at, |h|) == Some(h) && Slice(b, at + |h|, |name|) == Some(name)
    ensures Slice(b, at + |h| + |name|, |data|) == Some(data)
  {
    var l, n := h + name + data, |h| + |name|;
    Middle(h, name, data);
    SubSlice(b, at, |l|, 0, |h|);
    SubSlice(b, at, |l|, |h|, n);
    SubSlice(b, at, |l|, n, |l|);
  }

  lemma ReadLocalBack(b: Bytes, at: nat, e: Entry)
    requires |e.name| < 0x1_0000 && |e.data| < 0x1_0000_0000
    requires at + |Local(e)| <= |b| && b[at..at + |Local(e)|] == Local(e)
    ensures ReadLocal(b, at, Sizes(e)) == Some((e.name, e.data))
  {
    hide Sizes, LocalHeader, IsStored, Num16, Num32, ReadCrc, Slice;
    LocalFields(e);
    SizesFields(e);
    ThreeSlices(b, at, LocalHeader(e), e.name, e.data);
  }

  lemma ReadEntryBack(b: Bytes, at: nat, e: Entry, offset: nat)
    requires |e.name| < 0x1_0000 && |e.data| < 0x1_0000_0000 && offset < 0x1_0000_0000
    requires at + 46 + |e.name| <= |b| && b[at..at + 46 + |e.name|] == Central(e, offset)
    requires ReadLocal(b, offset, Sizes(e)) == Some((e.name, e.data))
    ensures ReadEntry(b, at) == Some((Found(e.name, e.data, Crc32(e.data), offset), at + 46 + |e.name|))
  {
    hide Sizes, CentralHeader, Num16, Num32, ReadCrc, IsStored, Crc32, ReadLocal;
    var c := Central(e, offset);
    CentralFields(e, offset);
    SizesFields(e);
    assert c[..46] == CentralHeader(e, offset) && c[46..] == e.name;
    assert b[at..at + 46] == c[..46];
    assert b[at + 46..at + 46 + |e.name|] == c[46..];
  }

  lemma {:induction false} ReadEntriesBack(es: seq<Entry>, i: nat)
    requires WithinLimits(es) && i <= |es|
    ensures ReadEntries(Archive(es), |Locals(es)| + |Centrals(es[..i])|, |es| - i) == Some(FoundFrom(es, i))
    decreases |es| - i
  {
    hide ReadEntry, Locals, Centrals, Archive, FoundIn;
    if i < |es| {
      EntryBack(es, i);
      ReadEntriesBack(es, i + 1);
    }
  }

  lemma SlicesOf(x: Bytes, y: Bytes, z: Bytes, i: nat, m: nat, j: nat, n: nat)
    requires i + m <= |x| <= j && j + n <= |x| + |y|
    ensures (x + y + z)[i..i + m] == x[i..i + m]
    ensures (x + y + z)[j..j + n] == y[j - |x|..j - |x| + n]
  {
    var b := x + y + z;
    Middle(x, y, z);
    SubSlice(b, 0, |x|, i, i + m);
    SubSlice(b, |x|, |y|, j - |x|, j - |x| + n);
    assert b[0..|x|] == b[..|x|];
  }

  /** Entry `i`, read from its place in the central directory of the archive. */
  lemma EntryBack(es: seq<Entry>, i: nat)
    requires WithinLimits(es) && i < |es|
    ensures ReadEntry(Archive(es), |Locals(es)| + |Centrals(es[..i])|)
         == Some((FoundIn(es, i), |Locals(es)| + |Centrals(es[..i + 1])|))
  {
    hide ReadEntry, Locals, Centrals, ReadLocal, LocalHeader, CentralHeader, EndRecord, Crc32, Sizes;
    var b, locals, centrals := Archive(es), Locals(es), Centrals(es);
    var at, offset, e := |locals| + |Centrals(es[..i])|, |Locals(es[..i])|, es[i];
    LocalAt(es, i);
    CentralAt(es, i);
    var c := |Central(e, offset)|;
    SlicesOf(locals, centrals, EndRecord(|es|, |centrals|, |locals|), offset, |Local(e)|, at, c);
    hide Archive;
    ReadLocalBack(b, offset, e);
    ReadEntryBack(b, at, e, offset);
  }

  /** Reading a built archive from its end record gives back every entry in order: its name, its data, its CRC, and the
      offset of its local header. */
  lemma ArchiveReadsBack(es: seq<Entry>)
    requires WithinLimits(es)
    ensures ReadArchive(Archive(es)) == Some(FoundFrom(es, 0))
  {
    hide ReadEntries, Locals, Centrals, EndRecord, Num16, Num32;
    var b := Archive(es);
    var end := EndRecord(|es|, |Centrals(es)|, |Locals(es)|);
    assert b[|b| - 22..] == end;
    EndFields(|es|, |Centrals(es)|, |Locals(es)|);
    assert es[..0] == [];
    NoCentrals();
    ReadEntriesBack(es, 0);
  }

  lemma NoCentrals()
    ensures Centrals([]) == []
  {
  }

  // ----- The writer -----

  function Flatten(parts: seq<Bytes>): Bytes {
    if parts == [] then [] else Flatten(parts[..|parts| - 1]) + parts[|parts| - 1]
  }

  lemma FlattenSnoc(parts: seq<Bytes>, part: Bytes)
    ensures Flatten(parts + [part]) == Flatten(parts) + part
  {
    assert (parts + [part])[..|parts|] == parts;
  }

  lemma {:induction false} FlattenAppend(a: seq<Bytes>, b: seq<Bytes>)
    ensures Flatten(a + b) == Flatten(a) + Flatten(b)
    decreases |b|
  {
    if b == [] {
      assert a + b == a;
    } else {
      var init, last := b[..|b| - 1], b[|b| - 1];
      assert a + b == (a + init) + [last];
      FlattenSnoc(a + init, last);
      FlattenAppend(a, init);
      Assoc(Flatten(a), Flatten(init), last);
    }
  }

  /** `concat`: one array of the total length, each part copied to its offset. */
  method Concat(parts: seq<Bytes>) returns (out: array<bv8>)
    ensures out[..] == Flatten(parts)
  {
    var total := 0;
    for i := 0 to |parts|
      invariant total == |Flatten(parts[..i])|
    {
      assert parts[..i + 1] == parts[..i] + [parts[i]];
      FlattenSnoc(parts[..i], parts[i]);
      total := total + |parts[i]|;
    }
    assert parts[..|parts|] == parts;
    out := new bv8[total];
    var offset := 0;
    for i := 0 to |parts|
      invariant offset == |Flatten(parts[..i])| <= total
      invariant out[..offset] == Flatten(parts[..i])
    {
      assert parts[..i + 1] == parts[..i] + [parts[i]];
      FlattenSnoc(parts[..i], parts[i]);
      FlattenPrefix(parts, i + 1);
      SetAt(out, parts[i], offset);
      assert out[..offset + |parts[i]|] == out[..offset] + out[offset..offset + |parts[i]|];
      offset := offset + |parts[i]|;
    }
    assert out[..offset] == out[..];
  }

  lemma {:induction false} FlattenPrefix(parts: seq<Bytes>, k: nat)
    requires k <= |parts|
    ensures |Flatten(parts[..k])| <= |Flatten(parts)|
    decreases |parts|
  {
    if k == |parts| {
      assert parts[..k] == parts;
    } else {
      FlattenPrefix(parts[..|parts| - 1], k);
      assert parts[..|parts| - 1][..k] == parts[..k];
    }
  }

  /** `out.set(part, offset)` */
  method SetAt(out: array<bv8>, part: Bytes, offset: nat)
    requires offset + |part| <= out.Length
    modifies out
    ensures out[..offset] == old(out[..offset])
    ensures out[offset..offset + |part|] == part
  {
    for k := 0 to |part|
      invariant out[..offset] == old(out[..offset])
      invariant out[offset..offset + k] == part[..k]
    {
      out[offset + k] := part[k];
      assert out[offset..offset + k + 1] == out[offset..offset + k] + [part[k]];
      assert part[..k + 1] == part[..k] + [part[k]];
    }
    assert part[..|part|] == part;
  }

  method BuildZip(entries: seq<Entry>) returns (out: array<bv8>)
    ensures out[..] == Archive(entries)
  {
    hide Local, Crc32, LocalHeader, CentralHeader, TableEntry;
    var table := BuildTable();
    var localParts: seq<Bytes>, centralParts: seq<Bytes> := [], [];
    var offset := 0;
    for i := 0 to |entries|
      invariant offset == |Locals(entries[..i])|
      invariant Flatten(localParts) == Locals(entries[..i])
      invariant Flatten(centralParts) == Centrals(entries[..i])
      invariant forall k :: 0 <= k < 256 ==> table[k] == TableEntry(k)
    {
      assert entries[..i + 1][..i] == entries[..i] && entries[..i + 1][i] == entries[i];
      var crc := ComputeCrc(table, entries[i].data);
      var local, central := WriteEntry(entries[i], crc, offset);
      FlattenSnoc(localParts, local);
      FlattenSnoc(centralParts, central);
      localParts := localParts + [local];
      centralParts := centralParts + [central];
      offset := offset + |local|;
    }
    assert entries[..|entries|] == entries;
    var centralSize := 0;
    for i := 0 to |centralParts|
      invariant centralSize == |Flatten(centralParts[..i])|
    {
      assert centralParts[..i + 1] == centralParts[..i] + [centralParts[i]];
      FlattenSnoc(centralParts[..i], centralParts[i]);
      centralSize := centralSize + |centralParts[i]|;
    }
    assert centralParts[..|centralParts|] == centralParts;
    var end := EndRecord(|entries|, centralSize, offset);
    FlattenAppend(localParts, centralParts);
    FlattenSnoc(localParts + centralParts, end);
    out := Concat(localParts + centralParts + [end]);
  }

  /** The two parts of one entry, from the CRC that was computed once. */
  method WriteEntry(e: Entry, crc: bv32, offset: nat) returns (local: Bytes, central: Bytes)
    requires crc == Crc32(e.data)
    ensures local == Local(e) && central == Central(e, offset)
  {
    hide Crc32, CrcBytes, U32Bytes, U16Bytes;
    var sizes := CrcBytes(crc) + U32Bytes(|e.data|) + U32Bytes(|e.data|) + U16Bytes(|e.name|);
    local := U32Bytes(LOCAL_SIGNATURE) + U16Bytes(20) + U16Bytes(0x0800) + U16Bytes(0) + U16Bytes(0) + U16Bytes(0)
             + sizes + U16Bytes(0) + e.name + e.data;
    central := U32Bytes(CENTRAL_SIGNATURE) + U16Bytes(20) + U16Bytes(20) + U16Bytes(0x0800) + U16Bytes(0) + U16Bytes(0)
               + U16Bytes(0) + sizes
               + U16Bytes(0) + U16Bytes(0) + U16Bytes(0) + U16Bytes(0) + U32Bytes(0) + U32Bytes(offset) + e.name;
  }
}
