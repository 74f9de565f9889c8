/**
  UTF-16 code units of a string, as `str::encode_utf16` and `String::from_utf16` produce and read them.
  */
module Utf16 {
  import opened Prelude

  predicate IsHigh(u: U16) { 0xD800 <= u < 0xDC00 }

  predicate IsLow(u: U16) { 0xDC00 <= u < 0xE000 }

  function UnitsOf(c: char): seq<U16> {
    var n := c as int;
    if n < 0x1_0000 then [n]
    else [0xD800 + (n - 0x1_0000) / 0x400, 0xDC00 + (n - 0x1_0000) % 0x400]
  }

  function Encode(text: string): seq<U16> {
    if text == [] then [] else UnitsOf(text[0]) + Encode(text[1..])
  }

  function Decode(units: seq<U16>): Option<string> {
    if units == [] then Some([])
    else if !IsHigh(units[0]) && !IsLow(units[0]) then Cons(units[0] as char, Decode(units[1..]))
    else if IsHigh(units[0]) && |units| >= 2 && IsLow(units[1]) then
      var high: int, low: int := units[0], units[1];
      Cons((0x1_0000 + (high - 0xD800) * 0x400 + (low - 0xDC00)) as char, Decode(units[2..]))
    else None
  }

  function Cons(c: char, rest: Option<string>): Option<string> {
    if rest.Some? then Some([c] + rest.value) else None
  }

  lemma {:induction false} RoundTrip(text: string)
    ensures Decode(Encode(text)) == Some(text)
  {
    if text == [] {
    } else {
      RoundTrip(text[1..]);
      var units := Encode(text);
      assert units[|UnitsOf(text[0])|..] == Encode(text[1..]);
      assert [text[0]] + text[1..] == text;
    }
  }
}

/**
  Modified UTF-7 (section 5.1.3 of RFC 3501): crates/imap-proto/src/utf7.rs.

  The reference reads a mailbox name as printable characters and shifted runs, and a run as one string of bits cut
  into 16-bit units on one side and 6-bit digits on the other. The two methods keep an integer accumulator instead.
  */
module Utf7 {
  import opened Prelude
  import opened BitStrings
  import Utf16

  type Digit = x: int | 0 <= x < 64

  /** The rank table, by its ranges; 255 marks a character that is not a digit. */
  function Rank(c: char): Byte {
    if 'A' <= c <= 'Z' then c as int - 65
    else if 'a' <= c <= 'z' then c as int - 71
    else if '0' <= c <= '9' then c as int + 4
    else if c == '+' then 62
    else if c == ',' then 63
    else 255
  }

  /** The map table: `A`-`Z`, `a`-`z`, `0`-`9`, then `+` and `,`. */
  function MapChar(d: Digit): char {
    if d < 26 then (d + 65) as char
    else if d < 52 then (d + 71) as char
    else if d < 62 then (d - 4) as char
    else if d == 62 then '+'
    else ','
  }

  lemma RankOfMap(d: Digit)
    ensures Rank(MapChar(d)) == d && MapChar(d) != '-'
  {
  }

  lemma MapOfRank(c: char)
    ensures Rank(c) != 255 ==> Rank(c) < 64 && MapChar(Rank(c)) == c
  {
  }

  // ----- Reference encoding -----

  predicate Printable(u: U16) { 0x20 <= u < 0x7f }

  predicate NonePrintable(units: seq<U16>) { forall i :: 0 <= i < |units| ==> !Printable(units[i]) }

  function MapDigits(ds: seq<Digit>): (r: string)
    ensures |r| == |ds|
  {
    seq(|ds|, i requires 0 <= i < |ds| => MapChar(ds[i]))
  }

  function Sextets(bits: seq<Bit>): (r: seq<Digit>)
    ensures r == Chop(bits, 6)
  {
    Widths();
    ChopBound(bits, 6);
    Chop(bits, 6)
  }

  function Units(bits: seq<Bit>): (r: seq<U16>)
    ensures r == Chop(bits, 16)
  {
    Widths();
    ChopBound(bits, 16);
    Chop(bits, 16)
  }

  /** Zero bits that complete the last 6-bit digit. */
  function Padding(bits: seq<Bit>): seq<Bit> {
    Zeros(if Rest(bits, 6) == [] then 0 else 6 - |Rest(bits, 6)|)
  }

  function EncodeRun(run: seq<U16>): string {
    PaddedDigits(Join(run, 16))
  }

  function PaddedDigits(bits: seq<Bit>): string {
    MapDigits(Sextets(bits + Padding(bits)))
  }

  function RunLength(units: seq<U16>): (r: nat)
    ensures r <= |units| && NonePrintable(units[..r])
    ensures r < |units| ==> Printable(units[r])
  {
    if units == [] || Printable(units[0]) then 0 else 1 + RunLength(units[1..])
  }

  function EncodePrintable(u: U16): string
    requires Printable(u)
  {
    if u == 0x26 then "&-" else [u as char]
  }

  /** Printable characters stand for themselves, except `&`; every longest run of others is shifted. */
  function EncodeUnits(units: seq<U16>): string
    decreases |units|
  {
    if units == [] then ""
    else if Printable(units[0]) then EncodePrintable(units[0]) + EncodeUnits(units[1..])
    else
      var n := RunLength(units);
      "&" + EncodeRun(units[..n]) + "-" + EncodeUnits(units[n..])
  }

  // ----- Reference decoding -----

  function RankDigits(s: string): (r: seq<nat>)
    ensures |r| == |s|
  {
    seq(|s|, i requires 0 <= i < |s| => Rank(s[i]))
  }

  predicate AllDigits(s: string) { forall i :: 0 <= i < |s| ==> Rank(s[i]) != 255 }

  function UntilDash(text: string): (r: nat)
    ensures r <= |text| && '-' !in text[..r]
    ensures r < |text| ==> text[r] == '-'
  {
    if text == [] || text[0] == '-' then 0 else 1 + UntilDash(text[1..])
  }

  function Prepend(units: seq<U16>, rest: Option<seq<U16>>): Option<seq<U16>> {
    if rest.Some? then Some(units + rest.value) else None
  }

  /** A shifted run goes up to the next `-` or to the end, and its left-over bits are dropped. */
  function DecodeUnits(text: string): Option<seq<U16>>
    decreases |text|
  {
    if text == [] then Some([])
    else if text[0] != '&' then Prepend([text[0] as int % 0x1_0000], DecodeUnits(text[1..]))
    else if |text| == 1 then Some([0x26])
    else if text[1] == '-' then Prepend([0x26], DecodeUnits(text[2..]))
    else
      var n := UntilDash(text[1..]);
      var run, rest := text[1..n + 1], text[n + 1..];
      if !AllDigits(run) then None
      else Prepend(Units(Join(RankDigits(run), 6)), DecodeUnits(if rest == [] then [] else rest[1..]))
  }

  function EncodeText(text: string): string {
    EncodeUnits(Utf16.Encode(text))
  }

  function DecodeText(text: string): Option<string> {
    match DecodeUnits(text)
    case None => None
    case Some(units) => Utf16.Decode(units)
  }

  // ----- Round trip -----

  lemma RunRoundTrip(run: seq<U16>)
    ensures AllDigits(EncodeRun(run)) && '-' !in EncodeRun(run)
    ensures Units(Join(RankDigits(EncodeRun(run)), 6)) == run
  {
    var bits := Join(run, 16);
    var pad := Padding(bits);
    var ds := Sextets(bits + pad);
    forall i | 0 <= i < |ds|
      ensures Rank(MapChar(ds[i])) == ds[i] && MapChar(ds[i]) != '-'
    {
      RankOfMap(ds[i]);
    }
    assert RankDigits(EncodeRun(run)) == ds;
    PaddingCompletes(bits);
    JoinChop(bits + pad, 6);
    assert Join(ds, 6) == bits + pad;
    Widths();
    ChopJoin(run, pad, 16);
  }

  lemma PaddingCompletes(bits: seq<Bit>)
    ensures Rest(bits + Padding(bits), 6) == []
  {
    RestPadded(bits, Padding(bits));
  }

  lemma {:induction false} RestPadded(bits: seq<Bit>, pad: seq<Bit>)
    requires Rest(bits, 6) == [] ==> pad == []
    requires Rest(bits, 6) != [] ==> |pad| == 6 - |Rest(bits, 6)|
    ensures Rest(bits + pad, 6) == []
    decreases |bits|
  {
    if |bits| < 6 {
      assert |bits + pad| == 0 || |bits + pad| == 6;
      if bits != [] { assert (bits + pad)[6..] == []; }
    } else {
      assert (bits + pad)[6..] == bits[6..] + pad;
      RestPadded(bits[6..], pad);
    }
  }

  lemma {:induction false} UntilDashIs(run: string, rest: string)
    requires '-' !in run
    ensures UntilDash(run + "-" + rest) == |run|
  {
    if run == [] {
    } else {
      assert (run + "-" + rest)[1..] == run[1..] + "-" + rest;
      UntilDashIs(run[1..], rest);
    }
  }

  lemma EncodeRunNonEmpty(run: seq<U16>)
    requires run != []
    ensures EncodeRun(run) != []
  {
    RankOfEncodeRun(run);
    assert |Join(run, 16)| >= 16;
  }

  /** Where the parts of a shifted run are. */
  lemma ShiftedParts(run: string, rest: string)
    requires run != [] && '-' !in run
    ensures var text := "&" + run + "-" + rest;
            && text[1] == run[0] != '-'
            && UntilDash(text[1..]) == |run|
            && text[1..|run| + 1] == run
            && text[|run| + 1..] == "-" + rest
            && text[|run| + 2..] == rest
  {
    var text := "&" + run + "-" + rest;
    assert text[1..] == run + "-" + rest;
    UntilDashIs(run, rest);
  }

  /** Decoding a shifted run and the text after it. */
  lemma DecodeShifted(run: string, rest: string)
    requires run != [] && '-' !in run && AllDigits(run)
    ensures DecodeUnits("&" + run + "-" + rest) == Prepend(Units(Join(RankDigits(run), 6)), DecodeUnits(rest))
  {
    var text := "&" + run + "-" + rest;
    ShiftedParts(run, rest);
    assert text[|run| + 1..][1..] == rest;
  }

  lemma {:induction false} UnitsRoundTrip(units: seq<U16>)
    ensures DecodeUnits(EncodeUnits(units)) == Some(units)
    decreases |units|
  {
    if units == [] {
    } else if Printable(units[0]) {
      UnitsRoundTrip(units[1..]);
      DecodePrintable(units[0], EncodeUnits(units[1..]));
      HeadAndTail(units, 1);
    } else {
      UnitsRoundTrip(units[RunLength(units)..]);
      ShiftedRoundTrip(units);
    }
    hide DecodeUnits, Units, Join, AllDigits;
  }

  lemma ShiftedRoundTrip(units: seq<U16>)
    requires units != [] && !Printable(units[0])
    requires var rest := units[RunLength(units)..]; DecodeUnits(EncodeUnits(rest)) == Some(rest)
    ensures DecodeUnits(EncodeUnits(units)) == Some(units)
  {
    hide DecodeUnits, Units, Join, AllDigits, EncodeRun;
    var n := RunLength(units);
    RunRoundTrip(units[..n]);
    EncodeRunNonEmpty(units[..n]);
    DecodeShifted(EncodeRun(units[..n]), EncodeUnits(units[n..]));
    HeadAndTail(units, n);
  }

  lemma HeadAndTail(units: seq<U16>, n: nat)
    requires n <= |units|
    ensures units[..n] + units[n..] == units
    ensures n == 1 ==> [units[0]] + units[1..] == units
  {
  }

  lemma DecodePrintable(u: U16, rest: string)
    requires Printable(u)
    ensures DecodeUnits(EncodePrintable(u) + rest) == Prepend([u], DecodeUnits(rest))
  {
    var enc := EncodePrintable(u);
    assert (enc + rest)[|enc|..] == rest;
  }

  // ----- Canonical form -----

  /** A closed run in the form section 5.1.3 of RFC 3501 asks for: zero padding shorter than a digit, and no
      character inside that could stand for itself. */
  predicate CanonicalRun(run: string) {
    && AllDigits(run)
    && var bits := Join(RankDigits(run), 6);
    && |Rest(bits, 16)| < 6
    && Rest(bits, 16) == Zeros(|Rest(bits, 16)|)
    && forall i :: 0 <= i < |Units(bits)| ==> !(0x20 <= Units(bits)[i] <= 0x7e)
  }

  predicate Canonical(text: string, afterRun: bool)
    decreases |text|
  {
    if text == [] then true
    else if text[0] != '&' then 0x20 <= text[0] as int <= 0x7e && Canonical(text[1..], false)
    else if |text| == 1 then false
    else if text[1] == '-' then Canonical(text[2..], false)
    else
      var n := UntilDash(text[1..]);
      && !afterRun
      && n + 1 < |text|
      && CanonicalRun(text[1..n + 1])
      && Canonical(text[n + 2..], true)
  }

  lemma EncodeRunCanonical(run: seq<U16>)
    requires NonePrintable(run)
    ensures CanonicalRun(EncodeRun(run))
  {
    var bits := Join(run, 16);
    var pad := Padding(bits);
    RunRoundTrip(run);
    RankOfEncodeRun(run);
    Widths();
    ChopJoin(run, pad, 16);
  }

  lemma RankOfEncodeRun(run: seq<U16>)
    ensures Join(RankDigits(EncodeRun(run)), 6) == Join(run, 16) + Padding(Join(run, 16))
  {
    var bits := Join(run, 16);
    var ds := Sextets(bits + Padding(bits));
    forall i | 0 <= i < |ds|
      ensures Rank(MapChar(ds[i])) == ds[i]
    {
      RankOfMap(ds[i]);
    }
    assert RankDigits(EncodeRun(run)) == ds;
    PaddingCompletes(bits);
    JoinChop(bits + Padding(bits), 6);
  }

  lemma CanonicalPrintable(u: U16, rest: string, afterRun: bool)
    requires Printable(u) && Canonical(rest, false)
    ensures Canonical(EncodePrintable(u) + rest, afterRun)
  {
    assert (EncodePrintable(u) + rest)[|EncodePrintable(u)|..] == rest;
  }

  lemma CanonicalShifted(run: string, rest: string)
    requires run != [] && '-' !in run && CanonicalRun(run) && Canonical(rest, true)
    ensures Canonical("&" + run + "-" + rest, false)
  {
    ShiftedParts(run, rest);
  }

  /** Every encoding is canonical. */
  lemma {:induction false} EncodingIsCanonical(units: seq<U16>, afterRun: bool)
    requires afterRun && units != [] ==> Printable(units[0])
    ensures Canonical(EncodeUnits(units), afterRun)
    decreases |units|
  {
    if units == [] {
    } else if Printable(units[0]) {
      EncodingIsCanonical(units[1..], false);
      CanonicalPrintable(units[0], EncodeUnits(units[1..]), afterRun);
    } else {
      var n := RunLength(units);
      EncodingIsCanonical(units[n..], true);
      EncodeRunCanonical(units[..n]);
      RunRoundTrip(units[..n]);
      EncodeRunNonEmpty(units[..n]);
      CanonicalShifted(EncodeRun(units[..n]), EncodeUnits(units[n..]));
    }
  }

  /** The digits of a canonical run are the only ones that encode its units. */
  lemma CanonicalRunUnique(run: string)
    requires CanonicalRun(run)
    ensures EncodeRun(Units(Join(RankDigits(run), 6))) == run
  {
    var ds := RankDigits(run);
    var all := Join(ds, 6);
    var units := Units(all);
    var bits := Join(units, 16);
    JoinChop(all, 16);
    assert all == bits + Rest(all, 16);
    Widths();
    forall i | 0 <= i < |run|
      ensures ds[i] < 64 && MapChar(ds[i]) == run[i]
    {
      MapOfRank(run[i]);
    }
    assert all + [] == all;
    ChopJoin(ds, [], 6);
    PaddingUnique(bits, Rest(all, 16));
  }

  lemma PaddingUnique(bits: seq<Bit>, pad: seq<Bit>)
    requires |pad| < 6 && pad == Zeros(|pad|)
    requires Rest(bits + pad, 6) == []
    ensures pad == Padding(bits)
  {
    RestLength(bits, pad);
  }

  lemma {:induction false} RestLength(bits: seq<Bit>, pad: seq<Bit>)
    requires |pad| < 6 && Rest(bits + pad, 6) == []
    ensures |pad| == if Rest(bits, 6) == [] then 0 else 6 - |Rest(bits, 6)|
    decreases |bits|
  {
    if |bits| < 6 {
    } else {
      assert (bits + pad)[6..] == bits[6..] + pad;
      RestLength(bits[6..], pad);
    }
  }

  /** Every canonical text is an encoding: of the units it decodes to. */
  lemma {:induction false} CanonicalIsEncoding(text: string, afterRun: bool)
    requires Canonical(text, afterRun)
    ensures DecodeUnits(text).Some?
    ensures var units := DecodeUnits(text).value;
            && EncodeUnits(units) == text
            && (afterRun && units != [] ==> Printable(units[0]))
    decreases |text|
  {
    hide CanonicalRun, EncodeUnits, Units, Join, Rank;
    if text == [] {
      EncodeNothing();
    } else if text[0] != '&' {
      CanonicalIsEncoding(text[1..], false);
      EncodesPrintable(text[0] as int % 0x1_0000, DecodeUnits(text[1..]).value);
      assert [text[0]] + text[1..] == text;
    } else if text[1] == '-' {
      CanonicalIsEncoding(text[2..], false);
      EncodesPrintable(0x26, DecodeUnits(text[2..]).value);
      assert "&-" + text[2..] == text;
    } else {
      var n := UntilDash(text[1..]);
      var run, after := text[1..n + 1], text[n + 2..];
      CanonicalIsEncoding(after, true);
      assert run == text[1..][..n];
      ShiftedText(text, n);
      CanonicalShiftedIsEncoding(run, after);
    }
  }

  lemma ShiftedText(text: string, n: nat)
    requires n + 1 < |text| && text[0] == '&' && text[n + 1] == '-'
    ensures text == "&" + text[1..n + 1] + "-" + text[n + 2..]
  {
  }

  lemma EncodeNothing()
    ensures EncodeUnits([]) == ""
  {
  }

  lemma EncodesPrintable(u: U16, rest: seq<U16>)
    requires Printable(u)
    ensures EncodeUnits([u] + rest) == EncodePrintable(u) + EncodeUnits(rest)
  {
    assert ([u] + rest)[1..] == rest;
  }

  lemma CanonicalShiftedIsEncoding(run: string, after: string)
    requires run != [] && '-' !in run && CanonicalRun(run) && DecodeUnits(after).Some?
    requires var rest := DecodeUnits(after).value;
             EncodeUnits(rest) == after && (rest != [] ==> Printable(rest[0]))
    ensures var text := "&" + run + "-" + after;
            DecodeUnits(text).Some? && EncodeUnits(DecodeUnits(text).value) == text
  {
    CanonicalRunUnique(run);
    CanonicalRunHasUnit(run);
    DecodeShifted(run, after);
    RunThenRest(Units(Join(RankDigits(run), 6)), DecodeUnits(after).value);
  }

  lemma CanonicalRunHasUnit(run: string)
    requires CanonicalRun(run) && run != []
    ensures Units(Join(RankDigits(run), 6)) != []
  {
    var bits := Join(RankDigits(run), 6);
    assert |bits| >= 6;
    JoinChop(bits, 16);
  }

  lemma RunThenRest(head: seq<U16>, rest: seq<U16>)
    requires head != [] && NonePrintable(head)
    requires rest != [] ==> Printable(rest[0])
    ensures EncodeUnits(head + rest) == "&" + EncodeRun(head) + "-" + EncodeUnits(rest)
  {
    var units := head + rest;
    RunLengthIs(units, |head|);
    assert units[..|head|] == head && units[|head|..] == rest;
  }

  lemma {:induction false} RunLengthIs(units: seq<U16>, n: nat)
    requires n <= |units| && NonePrintable(units[..n])
    requires n < |units| ==> Printable(units[n])
    ensures RunLength(units) == n
    decreases n
  {
    if n == 0 {
    } else {
      assert units[0] == units[..n][0];
      assert units[1..][..n - 1] == units[..n][1..];
      RunLengthIs(units[1..], n - 1);
    }
  }

  // ----- The accumulators -----

  /** `(u << 16) | ch` on 32 bits. */
  function ShiftInUnit(u: U32, ch: U16): U32 {
    var n: int := u;
    n * 0x1_0000 % 0x1_0000_0000 + ch
  }

  /** `(v << 6) | rank` on 32 bits. */
  function ShiftInDigit(v: U32, rank: Digit): U32 {
    var n: int := v;
    n * 64 % 0x1_0000_0000 + rank
  }

  /** `(u << (6 - bits)) & 0x3f` */
  function LastDigit(u: U32, bits: nat): Digit
    requires bits <= 6
  {
    var n: int := u;
    n * Pow2(6 - bits) % 0x1_0000_0000 % 64
  }

  lemma ShiftInUnitBits(u: U32, bits: nat, ch: U16)
    requires bits < 6
    ensures Bits(ShiftInUnit(u, ch), bits + 16) == Bits(u, bits) + Bits(ch, 16)
  {
    var n := ShiftInUnit(u, ch);
    assert n / 0x1_0000 == u % 0x1_0000 && n % 0x1_0000 == ch by { UnitArithmetic(u, ch); }
    Widths();
    ShrDiv(n, 16);
    BitsPush(n, u, bits, ch, 16, 16);
  }

  lemma UnitArithmetic(u: int, ch: int)
    requires 0 <= u < 0x1_0000_0000 && 0 <= ch < 0x1_0000
    ensures (u * 0x1_0000 % 0x1_0000_0000 + ch) / 0x1_0000 == u % 0x1_0000
    ensures (u * 0x1_0000 % 0x1_0000_0000 + ch) % 0x1_0000 == ch
  {
    assert u * 0x1_0000 % 0x1_0000_0000 == u % 0x1_0000 * 0x1_0000;
  }

  lemma DigitArithmetic(v: int, rank: int)
    requires 0 <= v < 0x1_0000_0000 && 0 <= rank < 64
    ensures (v * 64 % 0x1_0000_0000 + rank) / 64 == v % 0x400_0000
    ensures (v * 64 % 0x1_0000_0000 + rank) % 64 == rank
  {
    assert v * 64 % 0x1_0000_0000 == v % 0x400_0000 * 64;
  }

  lemma ShiftInDigitBits(v: U32, bits: nat, rank: Digit)
    requires bits < 16
    ensures Bits(ShiftInDigit(v, rank), bits + 6) == Bits(v, bits) + Bits(rank, 6)
  {
    Widths();
    ShrDiv(ShiftInDigit(v, rank), 6);
    DigitArithmetic(v, rank);
    BitsPush(ShiftInDigit(v, rank), v, bits, rank, 6, 26);
  }

  lemma LastDigitValue(u: U32, bits: nat)
    requires bits == 2 || bits == 4
    ensures LastDigit(u, bits) == ValueOf(Bits(u, bits) + Zeros(6 - bits))
  {
    ValueOfZeros(Bits(u, bits), 6 - bits);
    ValueOfBits(u, bits);
    assert Pow2(2) == 4 && Pow2(4) == 16;
    TwoBitsLeft(u);
    FourBitsLeft(u);
  }

  lemma TwoBitsLeft(u: int)
    requires 0 <= u < 0x1_0000_0000
    ensures u * 16 % 0x1_0000_0000 % 64 == u % 4 * 16
  {
    var q := u * 16 / 0x1_0000_0000;
    assert u * 16 % 0x1_0000_0000 == 64 * (u / 4 - q * 0x400_0000) + u % 4 * 16;
  }

  lemma FourBitsLeft(u: int)
    requires 0 <= u < 0x1_0000_0000
    ensures u * 4 % 0x1_0000_0000 % 64 == u % 16 * 4
  {
    var q := u * 4 / 0x1_0000_0000;
    assert u * 4 % 0x1_0000_0000 == 64 * (u / 16 - q * 0x400_0000) + u % 16 * 4;
  }

  /** The top six of the pending bits. */
  lemma NextDigit(u: U32, bits: nat)
    requires bits >= 6
    ensures Bits(u, bits) == Bits(Shr(u, bits - 6), 6) + Bits(u, bits - 6)
    ensures ValueOf(Bits(Shr(u, bits - 6), 6)) == Shr(u, bits - 6) % 64
  {
    BitsSplit(u, 6, bits - 6);
    ValueOfBits(Shr(u, bits - 6), 6);
    Widths();
  }

  // ----- The encoder's automaton -----

  /** The digits that can be written from `bits` pending bits of `u`. */
  function WholeDigits(u: U32, bits: nat): string {
    if bits < 6 then "" else [MapChar(Shr(u, bits - 6) % 64)] + WholeDigits(u, bits - 6)
  }

  function Closing(u: U32, bits: nat): string
    requires bits < 6
  {
    (if bits > 0 then [MapChar(LastDigit(u, bits))] else "") + "-"
  }

  /** What one unit makes the encoder write. */
  function Written(ch: U16, shifted: bool, u: U32, bits: nat): string
    requires bits < 6
  {
    if Printable(ch) then (if shifted then Closing(u, bits) else "") + EncodePrintable(ch)
    else (if shifted then "" else "&") + WholeDigits(ShiftInUnit(u, ch), bits + 16)
  }

  /** What the encoder still writes, from its loop state. */
  function EncodeFrom(units: seq<U16>, shifted: bool, u: U32, bits: nat): string
    requires bits < 6
    decreases |units|
  {
    if units == [] then (if shifted then Closing(u, bits) else "")
    else if Printable(units[0]) then
      Written(units[0], shifted, u, bits) + EncodeFrom(units[1..], false, u, 0)
    else
      Written(units[0], shifted, u, bits) + EncodeFrom(units[1..], true, ShiftInUnit(u, units[0]), (bits + 16) % 6)
  }

  /** The digits of a run of which the bits `pending` are still to be written. */
  function RunTail(pending: seq<Bit>, run: seq<U16>): string {
    PaddedDigits(pending + Join(run, 16))
  }

  lemma PaddedCons(six: seq<Bit>, bits: seq<Bit>)
    requires |six| == 6
    ensures ValueOf(six) < 64 && PaddedDigits(six + bits) == [MapChar(ValueOf(six))] + PaddedDigits(bits)
  {
    hide ValueOf, Pow2, MapChar;
    ValueBound(six);
    Widths();
    assert (six + bits)[6..] == bits;
    var all, pad := six + bits, Padding(bits);
    assert Padding(all) == pad;
    assert all + pad == six + (bits + pad);
    assert (six + (bits + pad))[..6] == six && (six + (bits + pad))[6..] == bits + pad;
    assert Sextets(all + pad) == [ValueOf(six)] + Sextets(bits + pad);
  }

  /** Writing the whole digits of the pending bits leaves fewer than six of them. */
  lemma {:induction false} WriteWholeDigits(u: U32, bits: nat, more: seq<Bit>)
    ensures PaddedDigits(Bits(u, bits) + more) == WholeDigits(u, bits) + PaddedDigits(Bits(u, bits % 6) + more)
    decreases bits
  {
    hide Bits, Shr, MapChar, PaddedDigits;
    if bits < 6 {
      assert "" + PaddedDigits(Bits(u, bits) + more) == PaddedDigits(Bits(u, bits) + more);
    } else {
      var six, rest := Bits(Shr(u, bits - 6), 6), Bits(u, bits - 6);
      calc {
        PaddedDigits(Bits(u, bits) + more);
        { NextDigit(u, bits); Assoc(six, rest, more); }
        PaddedDigits(six + (rest + more));
        { PaddedCons(six, rest + more); NextDigit(u, bits); }
        [MapChar(Shr(u, bits - 6) % 64)] + PaddedDigits(rest + more);
        { WriteWholeDigits(u, bits - 6, more); }
        [MapChar(Shr(u, bits - 6) % 64)] + (WholeDigits(u, bits - 6) + PaddedDigits(Bits(u, bits % 6) + more));
        { Assoc([MapChar(Shr(u, bits - 6) % 64)], WholeDigits(u, bits - 6), PaddedDigits(Bits(u, bits % 6) + more)); }
        WholeDigits(u, bits) + PaddedDigits(Bits(u, bits % 6) + more);
      }
    }
  }

  lemma CloseRun(u: U32, bits: nat)
    requires bits == 0 || bits == 2 || bits == 4
    ensures RunTail(Bits(u, bits), []) + "-" == Closing(u, bits)
  {
    var rest := Bits(u, bits);
    assert rest + Join([], 16) == rest;
    if bits > 0 {
      var last := rest + Zeros(6 - bits);
      LastDigitValue(u, bits);
      PaddedCons(last, []);
      assert last + [] == last;
      assert PaddedDigits([]) == "";
      assert last + Padding(last) == last;
    }
  }

  /** One more unit of a run: the digits it completes, then the rest of the run. */
  lemma NextUnit(u: U32, bits: nat, run: seq<U16>)
    requires run != [] && bits < 6
    ensures var acc := ShiftInUnit(u, run[0]);
            RunTail(Bits(u, bits), run) == WholeDigits(acc, bits + 16) + RunTail(Bits(acc, (bits + 16) % 6), run[1..])
  {
    var acc, more := ShiftInUnit(u, run[0]), Join(run[1..], 16);
    assert Bits(u, bits) + Join(run, 16) == Bits(u, bits) + Bits(run[0], 16) + more;
    ShiftInUnitBits(u, bits, run[0]);
    WriteWholeDigits(acc, bits + 16, more);
  }

  /** Starting a run is writing `&` and going on inside it. */
  lemma RunStarts(units: seq<U16>, u: U32)
    requires units != [] && !Printable(units[0])
    ensures EncodeFrom(units, false, u, 0) == "&" + EncodeFrom(units, true, u, 0)
  {
    hide ShiftInUnit, WholeDigits, Printable;
    var acc := ShiftInUnit(u, units[0]);
    var digits, rest := WholeDigits(acc, 16), EncodeFrom(units[1..], true, acc, 4);
    assert "" + digits == digits;
    Assoc("&", digits, rest);
  }

  lemma ReferenceRun(units: seq<U16>)
    requires units != [] && !Printable(units[0])
    ensures var n := RunLength(units);
            EncodeUnits(units) == "&" + (EncodeRun(units[..n]) + "-" + EncodeUnits(units[n..]))
  {
    var n := RunLength(units);
    RegroupDash("&", EncodeRun(units[..n]), EncodeUnits(units[n..]));
    hide EncodeRun, Printable;
  }

  /** The automaton writes the reference encoding, whatever stale bits the accumulator holds between runs. */
  lemma {:induction false} EncodeFromIsReference(units: seq<U16>, u: U32)
    ensures EncodeFrom(units, false, u, 0) == EncodeUnits(units)
    decreases |units|, 1
  {
    if units == [] {
      EncodeNothing();
    } else if Printable(units[0]) {
      EncodeFromIsReference(units[1..], u);
      PrintableIsReference(units, u);
    } else {
      hide EncodeFrom, EncodeUnits, EncodeRun, Bits, RunTail, Printable;
      EncodeFromRun(units, u, 0);
      RunTailStart(u, units[..RunLength(units)]);
      RunStarts(units, u);
      ReferenceRun(units);
    }
    hide EncodeFrom, EncodeUnits;
  }

  lemma PrintableIsReference(units: seq<U16>, u: U32)
    requires units != [] && Printable(units[0]) && EncodeFrom(units[1..], false, u, 0) == EncodeUnits(units[1..])
    ensures EncodeFrom(units, false, u, 0) == EncodeUnits(units)
  {
    hide EncodePrintable, Printable;
    assert "" + EncodePrintable(units[0]) == EncodePrintable(units[0]);
  }

  lemma RunTailStart(u: U32, run: seq<U16>)
    ensures RunTail(Bits(u, 0), run) == EncodeRun(run)
  {
    assert Bits(u, 0) + Join(run, 16) == Join(run, 16);
  }

  lemma EncodeFromRunEnd(units: seq<U16>, u: U32, bits: nat)
    requires bits == 0 || bits == 2 || bits == 4
    requires units != [] ==> Printable(units[0]) && EncodeFrom(units[1..], false, u, 0) == EncodeUnits(units[1..])
    ensures EncodeFrom(units, true, u, bits) == RunTail(Bits(u, bits), units[..0]) + "-" + EncodeUnits(units[0..])
  {
    hide Bits, RunTail, Closing, EncodePrintable;
    assert units[..0] == [] && units[0..] == units;
    CloseRun(u, bits);
    if units != [] {
      Assoc(Closing(u, bits), EncodePrintable(units[0]), EncodeUnits(units[1..]));
    } else {
      assert Closing(u, bits) + "" == Closing(u, bits);
    }
  }

  lemma {:induction false} EncodeFromRun(units: seq<U16>, u: U32, bits: nat)
    requires bits == 0 || bits == 2 || bits == 4
    ensures var n := RunLength(units);
            EncodeFrom(units, true, u, bits) == RunTail(Bits(u, bits), units[..n]) + "-" + EncodeUnits(units[n..])
    decreases |units|, 0
  {
    hide ShiftInUnit, Closing, RunTail, Bits, WholeDigits, EncodePrintable;
    var n := RunLength(units);
    if n == 0 {
      if units != [] {
        EncodeFromIsReference(units[1..], u);
      }
      EncodeFromRunEnd(units, u, bits);
    } else {
      var acc, left := ShiftInUnit(u, units[0]), (bits + 16) % 6;
      var run, rest := units[..n], EncodeUnits(units[n..]);
      assert units[1..][..n - 1] == run[1..] && units[1..][n - 1..] == units[n..];
      calc {
        EncodeFrom(units, true, u, bits);
        "" + WholeDigits(acc, bits + 16) + EncodeFrom(units[1..], true, acc, left);
        { assert "" + WholeDigits(acc, bits + 16) == WholeDigits(acc, bits + 16); }
        WholeDigits(acc, bits + 16) + EncodeFrom(units[1..], true, acc, left);
        { EncodeFromRun(units[1..], acc, left); }
        WholeDigits(acc, bits + 16) + (RunTail(Bits(acc, left), run[1..]) + "-" + rest);
        { RegroupDash(WholeDigits(acc, bits + 16), RunTail(Bits(acc, left), run[1..]), rest); }
        WholeDigits(acc, bits + 16) + RunTail(Bits(acc, left), run[1..]) + "-" + rest;
        { NextUnit(u, bits, run); }
        RunTail(Bits(u, bits), run) + "-" + rest;
      }
    }
  }

  /** Writes the whole digits among the pending bits. */
  method WriteDigits(result: string, u: U32, bits: nat) returns (out: string, left: nat)
    ensures out == result + WholeDigits(u, bits) && left == bits % 6
  {
    hide MapChar, Shr;
    out, left := result, bits;
    while left >= 6
      invariant out + WholeDigits(u, left) == result + WholeDigits(u, bits)
      invariant left % 6 == bits % 6
    {
      out := out + [MapChar(Shr(u, left - 6) % 64)];
      left := left - 6;
    }
  }

  /** Ends a run: the padded last digit, if bits are pending, and the dash. */
  method WriteClosing(result: string, u: U32, bits: nat) returns (out: string)
    requires bits < 6
    ensures out == result + Closing(u, bits)
  {
    hide MapChar, LastDigit;
    out := result;
    if bits > 0 {
      out := out + [MapChar(LastDigit(u, bits))];
    }
    out := out + "-";
  }

  lemma RegroupDash(a: string, b: string, c: string)
    ensures a + (b + "-" + c) == a + b + "-" + c
  {
    Assoc(a, b + "-", c);
    Assoc(a, b, "-");
  }

  lemma EncodeFromNext(units: seq<U16>, i: nat, shifted: bool, u: U32, bits: nat)
    requires i < |units| && bits < 6
    ensures EncodeFrom(units[i..], shifted, u, bits)
         == Written(units[i], shifted, u, bits)
            + if Printable(units[i]) then EncodeFrom(units[i + 1..], false, u, 0)
              else EncodeFrom(units[i + 1..], true, ShiftInUnit(u, units[i]), (bits + 16) % 6)
  {
    hide Written, ShiftInUnit;
    assert units[i..][0] == units[i] && units[i..][1..] == units[i + 1..];
  }

  lemma EncodeFromEnd(units: seq<U16>, shifted: bool, u: U32, bits: nat)
    requires bits < 6
    ensures EncodeFrom(units[|units|..], shifted, u, bits) == if shifted then Closing(u, bits) else ""
  {
    assert units[|units|..] == [];
  }

  method Encode(text: string) returns (result: string)
    ensures result == EncodeText(text)
  {
    hide ShiftInUnit, WholeDigits, Closing, EncodeUnits, EncodeFrom, Utf16.Encode;
    var units := Utf16.Encode(text);
    result := "";
    var shifted := false;
    var bits := 0;
    var u: U32 := 0;
    var i := 0;
    assert units[0..] == units;
    while i < |units|
      invariant 0 <= i <= |units|
      invariant bits < 6 && (!shifted ==> bits == 0)
      invariant result + EncodeFrom(units[i..], shifted, u, bits) == EncodeFrom(units, false, 0, 0)
    {
      var ch := units[i];
      EncodeFromNext(units, i, shifted, u, bits);
      ghost var was, written := result, Written(ch, shifted, u, bits);
      if Printable(ch) {
        if shifted {
          result := WriteClosing(result, u, bits);
          shifted := false;
          bits := 0;
        }
        if ch == 0x26 {
          result := result + "&-";
        } else {
          result := result + [ch as char];
        }
      } else {
        if !shifted {
          result := result + "&";
          shifted := true;
        }
        u := ShiftInUnit(u, ch);
        bits := bits + 16;
        result, bits := WriteDigits(result, u, bits);
      }
      assert result == was + written;
      Assoc(was, written, EncodeFrom(units[i + 1..], shifted, u, bits));
      i := i + 1;
    }
    EncodeFromEnd(units, shifted, u, bits);
    if shifted {
      result := WriteClosing(result, u, bits);
    } else {
      assert result + "" == result;
    }
    EncodeFromIsReference(units, 0);
  }

  // ----- The decoder's automaton -----

  /** What the decoder still reads, from its loop state. */
  function DecodeFrom(text: string, shifted: bool, v: U32, bits: nat): Option<seq<U16>>
    decreases |text|
  {
    if text == [] then Some([])
    else if shifted then
      if text[0] == '-' then DecodeFrom(text[1..], false, 0, 0)
      else if Rank(text[0]) >= 64 then None
      else
        var acc := ShiftInDigit(v, Rank(text[0]));
        if bits + 6 < 16 then DecodeFrom(text[1..], true, acc, bits + 6)
        else Prepend([Shr(acc, bits - 10) % 0x1_0000], DecodeFrom(text[1..], true, acc, bits - 10))
    else if text[0] == '&' && |text| > 1 then
      if text[1] == '-' then Prepend([0x26], DecodeFrom(text[2..], false, v, bits))
      else DecodeFrom(text[1..], true, v, bits)
    else Prepend([text[0] as int % 0x1_0000], DecodeFrom(text[1..], false, v, bits))
  }

  /** Reading a run that goes up to the next dash, with `pending` bits already read. */
  function DecodeRun(pending: seq<Bit>, text: string): Option<seq<U16>> {
    var n := UntilDash(text);
    if !AllDigits(text[..n]) then None
    else Prepend(Units(pending + Join(RankDigits(text[..n]), 6)), DecodeUnits(AfterDash(text[n..])))
  }

  function AfterDash(text: string): string {
    if text == [] then [] else text[1..]
  }

  lemma PrependTwice(a: seq<U16>, b: seq<U16>, rest: Option<seq<U16>>)
    ensures Prepend(a, Prepend(b, rest)) == Prepend(a + b, rest)
  {
    if rest.Some? { assert a + (b + rest.value) == a + b + rest.value; }
  }

  lemma PrependNone(rest: Option<seq<U16>>)
    ensures Prepend([], rest) == rest
  {
    if rest.Some? { assert [] + rest.value == rest.value; }
  }

  /** One digit of a run moves its bits to the pending ones. */
  lemma DecodeRunDigit(v: U32, bits: nat, text: string)
    requires text != [] && text[0] != '-' && Rank(text[0]) < 64 && bits < 16
    ensures DecodeRun(Bits(v, bits), text) == DecodeRun(Bits(ShiftInDigit(v, Rank(text[0])), bits + 6), text[1..])
  {
    hide ShiftInDigit, Bits, Units, Rank;
    var n, d := UntilDash(text), Rank(text[0]);
    var run, rest := text[..n], text[1..][..n - 1];
    assert run == [text[0]] + rest && text[n..] == text[1..][n - 1..];
    assert AllDigits(run) <==> AllDigits(rest) by {
      MapOfRank(text[0]);
      assert forall i :: 0 <= i < n - 1 ==> rest[i] == run[i + 1];
      assert forall i :: 1 <= i < n ==> run[i] == rest[i - 1];
    }
    calc {
      Bits(v, bits) + Join(RankDigits(run), 6);
      { assert RankDigits(run) == [d] + RankDigits(rest); JoinCons(d, RankDigits(rest), 6); }
      Bits(v, bits) + Bits(d, 6) + Join(RankDigits(rest), 6);
      { ShiftInDigitBits(v, bits, d); }
      Bits(ShiftInDigit(v, d), bits + 6) + Join(RankDigits(rest), 6);
    }
  }

  /** Sixteen pending bits make a unit. */
  lemma DecodeRunUnit(v: U32, bits: nat, text: string)
    requires bits >= 16
    ensures DecodeRun(Bits(v, bits), text)
         == Prepend([Shr(v, bits - 16) % 0x1_0000], DecodeRun(Bits(v, bits - 16), text))
  {
    var n := UntilDash(text);
    var unit, left, rest := Bits(Shr(v, bits - 16), 16), Bits(v, bits - 16), Join(RankDigits(text[..n]), 6);
    assert Units(Bits(v, bits) + rest) == [Shr(v, bits - 16) % 0x1_0000] + Units(left + rest) by {
      hide Bits, Shr, Join, Rank;
      BitsSplit(v, 16, bits - 16);
      assert unit + left + rest == unit + (left + rest);
      assert (unit + (left + rest))[..16] == unit && (unit + (left + rest))[16..] == left + rest;
      ValueOfBits(Shr(v, bits - 16), 16);
      Widths();
    }
    PrependTwice([Shr(v, bits - 16) % 0x1_0000], Units(left + rest), DecodeUnits(AfterDash(text[n..])));
  }

  /** Outside a run and inside one, the automaton reads what the reference reads. */
  lemma {:induction false} DecodeFromOutside(text: string)
    ensures DecodeFrom(text, false, 0, 0) == DecodeUnits(text)
    decreases |text|
  {
    hide ShiftInDigit, Shr, Rank, Units, Join;
    if text == [] {
    } else if text[0] == '&' && |text| > 1 {
      if text[1] == '-' {
        DecodeFromOutside(text[2..]);
      } else {
        var n := UntilDash(text[1..]);
        DecodeFromInside(text[1..], 0, 0);
        assert text[1..][..n] == text[1..n + 1] && text[1..][n..] == text[n + 1..];
        assert Bits(0, 0) + Join(RankDigits(text[1..n + 1]), 6) == Join(RankDigits(text[1..n + 1]), 6);
      }
    } else {
      DecodeFromOutside(text[1..]);
      if |text| == 1 { assert [0x26] + [] == [0x26]; }
    }
  }

  lemma {:induction false} DecodeFromInside(text: string, v: U32, bits: nat)
    requires bits < 16
    ensures DecodeFrom(text, true, v, bits) == DecodeRun(Bits(v, bits), text)
    decreases |text|
  {
    hide ShiftInDigit, Shr, Bits, Join, DecodeUnits;
    if text == [] || text[0] == '-' {
      DecodeRunEmpty(Bits(v, bits), text);
      if text == [] {
        DecodeNothing();
      } else {
        DecodeFromOutside(text[1..]);
      }
    } else {
      MapOfRank(text[0]);
      var n := UntilDash(text);
      assert text[..n][0] == text[0];
      if Rank(text[0]) < 64 {
        var acc := ShiftInDigit(v, Rank(text[0]));
        DecodeRunDigit(v, bits, text);
        if bits + 6 < 16 {
          DecodeFromInside(text[1..], acc, bits + 6);
        } else {
          DecodeRunUnit(acc, bits + 6, text[1..]);
          DecodeFromInside(text[1..], acc, bits - 10);
        }
      }
    }
  }

  lemma DecodeNothing()
    ensures DecodeUnits("") == Some([])
  {
  }

  lemma DecodeRunEmpty(pending: seq<Bit>, text: string)
    requires |pending| < 16 && (text == [] || text[0] == '-')
    ensures DecodeRun(pending, text) == DecodeUnits(AfterDash(text))
  {
    assert text[..0] == [] && text[0..] == text;
    assert pending + Join(RankDigits([]), 6) == pending;
    PrependNone(DecodeUnits(AfterDash(text)));
  }

  method Decode(text: string) returns (r: Option<string>)
    ensures r == DecodeText(text)
  {
    hide ShiftInDigit, Shr, DecodeUnits, Utf16.Decode;
    var units: seq<U16> := [];
    var bits := 0;
    var v: U32 := 0;
    var shifted := false;
    var i := 0;
    assert text[0..] == text;
    PrependNone(DecodeFrom(text, false, 0, 0));
    while i < |text|
      invariant 0 <= i <= |text|
      invariant bits < 16 && (!shifted ==> bits == 0 && v == 0)
      invariant Prepend(units, DecodeFrom(text[i..], shifted, v, bits)) == DecodeFrom(text, false, 0, 0)
    {
      var ch := text[i];
      assert text[i..][0] == ch && text[i..][1..] == text[i + 1..];
      ghost var was, read: seq<U16> := units, [];
      if shifted {
        if ch == '-' {
          shifted := false;
          bits := 0;
          v := 0;
        } else if Rank(ch) == 255 {
          DecodeFromOutside(text);
          return None;
        } else {
          MapOfRank(ch);
          v := ShiftInDigit(v, Rank(ch));
          bits := bits + 6;
          if bits >= 16 {
            read := [Shr(v, bits - 16) % 0x1_0000];
            units := units + [Shr(v, bits - 16) % 0x1_0000];
            bits := bits - 16;
          }
        }
      } else if ch == '&' {
        if i + 1 < |text| {
          if text[i + 1] == '-' {
            assert text[i..][2..] == text[i + 2..];
            read := [0x26];
            units := units + [0x26];
            i := i + 1;
          } else {
            shifted := true;
          }
        } else {
          read := [0x26];
          units := units + [0x26];
        }
      } else {
        read := [ch as int % 0x1_0000];
        units := units + [ch as int % 0x1_0000];
      }
      i := i + 1;
      PrependTwice(was, read, DecodeFrom(text[i..], shifted, v, bits));
    }
    DecodeFromOutside(text);
    assert text[i..] == [];
    assert units + [] == units;
    r := Utf16.Decode(units);
  }

  // ----- What stays as it is -----

  /** A unit that stands for itself. */
  predicate StaysAsIs(u: U16) { 0x20 <= u <= 0x7e && u != 0x26 }

  lemma RunGrows(run: seq<U16>)
    ensures |EncodeRun(run)| >= |run|
  {
    RankOfEncodeRun(run);
    JoinLength(RankDigits(EncodeRun(run)), 6);
    JoinLength(run, 16);
  }

  lemma {:induction false} JoinLength(ns: seq<nat>, width: nat)
    ensures |Join(ns, width)| == |ns| * width
  {
    if ns != [] {
      JoinLength(ns[1..], width);
    }
  }

  /** An encoding is never shorter than its units, and as long only if every unit stands for itself. */
  lemma {:induction false} EncodingGrows(units: seq<U16>)
    ensures |EncodeUnits(units)| >= |units|
    ensures |EncodeUnits(units)| == |units| <==> forall i :: 0 <= i < |units| ==> StaysAsIs(units[i])
    decreases |units|
  {
    hide EncodeRun;
    if units == [] {
    } else if Printable(units[0]) {
      EncodingGrows(units[1..]);
      assert forall i :: 0 < i < |units| ==> units[i] == units[1..][i - 1];
    } else {
      var n := RunLength(units);
      assert n > 0;
      EncodingGrows(units[n..]);
      RunGrows(units[..n]);
    }
  }

  lemma {:induction false} PlainUnits(units: seq<U16>)
    requires forall i :: 0 <= i < |units| ==> StaysAsIs(units[i])
    ensures |EncodeUnits(units)| == |units| && forall i :: 0 <= i < |units| ==> EncodeUnits(units)[i] as int == units[i]
    decreases |units|
  {
    if units != [] {
      assert StaysAsIs(units[0]);
      PlainUnits(units[1..]);
      var rest := EncodeUnits(units[1..]);
      assert EncodeUnits(units) == [units[0] as char] + rest;
      forall i | 0 < i < |units| ensures EncodeUnits(units)[i] as int == units[i] {
        assert units[1..][i - 1] == units[i] && EncodeUnits(units)[i] == rest[i - 1];
      }
    }
  }

  lemma {:induction false} UnitsOfText(text: string)
    ensures |Utf16.Encode(text)| >= |text|
    ensures |Utf16.Encode(text)| == |text| ==> forall i :: 0 <= i < |text| ==> Utf16.Encode(text)[i] == text[i] as int
    ensures (forall i :: 0 <= i < |text| ==> text[i] as int < 0x1_0000) ==> |Utf16.Encode(text)| == |text|
  {
    if text != [] {
      UnitsOfText(text[1..]);
      assert forall i :: 0 < i < |text| ==> text[1..][i - 1] == text[i];
    }
  }

  /** A name is its own encoding if and only if all its characters are printable ASCII other than `&`. */
  lemma UnchangedExactly(text: string)
    ensures EncodeText(text) == text <==>
            forall i :: 0 <= i < |text| ==> 0x20 <= text[i] as int <= 0x7e && text[i] != '&'
  {
    var units := Utf16.Encode(text);
    UnitsOfText(text);
    EncodingGrows(units);
    hide EncodeUnits, Utf16.Encode;
    if EncodeText(text) == text {
      forall i | 0 <= i < |text| ensures 0x20 <= text[i] as int <= 0x7e && text[i] != '&' {
        assert StaysAsIs(units[i]);
      }
    }
    if forall i :: 0 <= i < |text| ==> 0x20 <= text[i] as int <= 0x7e && text[i] != '&' {
      PlainUnits(units);
    }
  }

  // ----- The tables -----

  predicate InAlphabet(c: char) {
    'A' <= c <= 'Z' || 'a' <= c <= 'z' || '0' <= c <= '9' || c == '+' || c == ','
  }

  /** The digits are upper case, lower case, the figures, plus and comma, in order; nothing else has a rank. */
  lemma TablesAre()
    ensures forall d: Digit :: d < 26 ==> MapChar(d) as int == 'A' as int + d
    ensures forall d: Digit :: 26 <= d < 52 ==> MapChar(d) as int == 'a' as int + (d - 26)
    ensures forall d: Digit :: 52 <= d < 62 ==> MapChar(d) as int == '0' as int + (d - 52)
    ensures MapChar(62) == '+' && MapChar(63) == ','
    ensures forall c: char :: if InAlphabet(c) then Rank(c) < 64 && MapChar(Rank(c)) == c else Rank(c) == 255
  {
  }

  /** Section 5.1.3 of RFC 3501 gives this example: the two characters U+53F0 and U+5317. */
  lemma KnownEncoding()
    ensures EncodeUnits([0x53F0, 0x5317]) == "&U,BTFw-"
  {
    hide EncodeUnits, EncodeFrom, WholeDigits, ShiftInUnit, Closing;
    KnownSteps();
    EncodeFromIsReference([0x53F0, 0x5317], 0);
    UnitInRun(0x53F0, [0x5317], false, 0, 0);
    UnitInRun(0x5317, [], true, 0x53F0, 4);
    EndOfRun(0x53F0_5317, 2);
    assert [0x53F0] + [0x5317] == [0x53F0, 0x5317] && [0x5317] + [] == [0x5317];
  }

  lemma UnitInRun(first: U16, rest: seq<U16>, shifted: bool, u: U32, bits: nat)
    requires !Printable(first) && bits < 6
    ensures EncodeFrom([first] + rest, shifted, u, bits)
         == (if shifted then "" else "&") + WholeDigits(ShiftInUnit(u, first), bits + 16)
            + EncodeFrom(rest, true, ShiftInUnit(u, first), (bits + 16) % 6)
  {
    hide ShiftInUnit, WholeDigits;
    assert ([first] + rest)[1..] == rest;
  }

  lemma EndOfRun(u: U32, bits: nat)
    requires bits < 6
    ensures EncodeFrom([], true, u, bits) == Closing(u, bits)
  {
  }

  lemma KnownSteps()
    ensures ShiftInUnit(0, 0x53F0) == 0x53F0 && ShiftInUnit(0x53F0, 0x5317) == 0x53F0_5317
    ensures WholeDigits(0x53F0, 16) == "U,"
    ensures WholeDigits(0x53F0_5317, 20) == "BTF"
    ensures Closing(0x53F0_5317, 2) == "w-"
  {
    FirstDigits();
    NextDigits();
    hide WholeDigits;
    assert Pow2(4) == 16;
  }

  lemma FirstDigits()
    ensures WholeDigits(0x53F0, 16) == "U,"
  {
    hide Shr;
    KnownDigits(0x53F0, 10, 20);
    KnownDigits(0x53F0, 4, 1343);
  }

  lemma NextDigits()
    ensures WholeDigits(0x53F0_5317, 20) == "BTF"
  {
    hide Shr;
    KnownDigits(0x53F0_5317, 14, 85953);
    KnownDigits(0x53F0_5317, 8, 5501011);
    KnownDigits(0x53F0_5317, 2, 352064709);
  }

  lemma KnownDigits(n: nat, k: nat, q: nat)
    requires k <= 14 && n / Pow2(k) == q
    ensures Shr(n, k) == q
  {
    ShrDiv(n, k);
  }

  // ----- Decoding any text -----

  /** The low 16 bits of each character. */
  function LowBits(text: string): (units: seq<U16>)
    ensures |units| == |text| && forall i :: 0 <= i < |text| ==> units[i] == text[i] as int % 0x1_0000
  {
    if text == [] then [] else [text[0] as int % 0x1_0000] + LowBits(text[1..])
  }

  /** Outside runs, the decoder takes the low 16 bits of each character. */
  lemma {:induction false} DecodeDirect(text: string, rest: string)
    requires '&' !in text
    ensures DecodeUnits(text + rest) == Prepend(LowBits(text), DecodeUnits(rest))
  {
    if text == [] {
      assert text + rest == rest;
      PrependNone(DecodeUnits(rest));
    } else {
      DecodeDirect(text[1..], rest);
      assert (text + rest)[0] == text[0] && (text + rest)[1..] == text[1..] + rest;
      PrependTwice([text[0] as int % 0x1_0000], LowBits(text[1..]), DecodeUnits(rest));
    }
  }

  /** What it makes of an `&`: at the end it stands for itself, `&-` stands for it, a run is read up to its dash or the
      end, and any character in a run that is no digit is an error. */
  lemma DecodeAmpersand(run: string, rest: string)
    requires '-' !in run
    ensures DecodeUnits("&") == Some([0x26])
    ensures DecodeUnits("&-" + rest) == Prepend([0x26], DecodeUnits(rest))
    ensures run != [] && (exists i :: 0 <= i < |run| && !InAlphabet(run[i])) ==>
              DecodeUnits("&" + run) == DecodeUnits("&" + run + "-" + rest) == None
    ensures run != [] && (forall i :: 0 <= i < |run| ==> InAlphabet(run[i])) ==>
              && DecodeUnits("&" + run) == Some(Units(Join(RankDigits(run), 6)))
              && DecodeUnits("&" + run + "-" + rest) == Prepend(Units(Join(RankDigits(run), 6)), DecodeUnits(rest))
  {
    hide Units, Join, Rank, InAlphabet, AllDigits;
    assert ("&-" + rest)[2..] == rest;
    DigitsAre(run);
    if run != [] {
      OpenRun(run);
      if AllDigits(run) {
        DecodeShifted(run, rest);
      } else {
        BadRun(run, rest);
      }
    }
  }

  lemma DigitsAre(run: string)
    ensures AllDigits(run) <==> forall i :: 0 <= i < |run| ==> InAlphabet(run[i])
  {
    if AllDigits(run) {
      forall i | 0 <= i < |run| ensures InAlphabet(run[i]) { assert Rank(run[i]) != 255; }
    }
    if forall i :: 0 <= i < |run| ==> InAlphabet(run[i]) {
      forall i | 0 <= i < |run| ensures Rank(run[i]) != 255 { assert InAlphabet(run[i]); }
    }
  }

  lemma {:induction false} NoDash(run: string)
    requires '-' !in run
    ensures UntilDash(run) == |run|
  {
    if run != [] { NoDash(run[1..]); }
  }

  lemma OpenRun(run: string)
    requires run != [] && '-' !in run
    ensures DecodeUnits("&" + run) == if AllDigits(run) then Some(Units(Join(RankDigits(run), 6))) else None
  {
    hide Units, Join;
    var text := "&" + run;
    NoDash(run);
    assert text[1..] == run && text[1] == run[0] != '-';
    assert text[1..|run| + 1] == run && text[|run| + 1..] == [];
    var units := Units(Join(RankDigits(run), 6));
    assert units + [] == units;
  }

  lemma BadRun(run: string, rest: string)
    requires run != [] && '-' !in run && !AllDigits(run)
    ensures DecodeUnits("&" + run + "-" + rest) == None
  {
    ShiftedParts(run, rest);
  }

  /** Decoding an encoded mailbox name gives the name back, for every Unicode string. */
  lemma RoundTrip(text: string)
    ensures DecodeText(EncodeText(text)) == Some(text)
  {
    UnitsRoundTrip(Utf16.Encode(text));
    Utf16.RoundTrip(text);
  }
}
