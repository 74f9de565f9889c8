/**
  Which byte raises what, in every state of the request receiver: crates/imap-proto/src/receiver.rs. The conditions are
  on bytes and counts alone.
  */
module ImapEvents {
  import opened Prelude
  import opened Imap

  predicate IsBlank(c: Byte) { c == 32 || c == 9 || c == 10 || c == 12 || c == 13 }

  predicate IsFigure(c: Byte) { 48 <= c <= 57 }

  predicate IsLetter(c: Byte) { 65 <= c <= 90 || 97 <= c <= 122 }

  /** Parentheses, and for some commands brackets, angles and the dot. */
  predicate IsMarkByte(cfg: Config, command: nat, c: Byte) {
    c == 40 || c == 41 || (cfg.brackets(command) && (c == 91 || c == 93 || c == 60 || c == 62 || c == 46))
  }

  /** Pushing what is pending would make the request too large. */
  predicate TooBig(cfg: Config, r: Receiver) { r.buf != [] && r.size + |r.buf| > cfg.maxSize }

  predicate OpensQuote(r: Receiver, last: Byte, c: Byte) { c == 34 && IsBlank(last) }

  predicate OpensLiteral(r: Receiver, last: Byte, c: Byte) { c == 123 && (IsBlank(last) || (last == 126 && |r.buf| == 1)) }

  /** The errors of an unquoted argument: too large a request, or an argument of more than 8000 bytes. */
  predicate ArgumentError(cfg: Config, r: Receiver, last: Byte, c: Byte) {
    if OpensLiteral(r, last, c) && last == 126 then false
    else if OpensQuote(r, last, c) || OpensLiteral(r, last, c) then TooBig(cfg, r)
    else if IsMarkByte(cfg, r.request.command, c) then TooBig(cfg, r) || r.size + |r.buf| + 1 > cfg.maxSize
    else if IsBlank(c) then TooBig(cfg, r)
    else |r.buf| >= 8000
  }

  /** Everything that is answered by an error. */
  predicate IsError(cfg: Config, r: Receiver, c: Byte) {
    match r.state
    case Start => false
    case Tag =>
      || c == 10
      || (c == 32 && r.buf != [] && !IsUtf8(r.buf))
      || (c != 10 && c != 32 && c != 9 && c != 13 && |r.buf| >= 128)
    case Command(isUid) =>
      if IsFigure(c) || IsLetter(c) then |r.buf| >= 15
      else if IsBlank(c) then r.buf != [] && r.buf != [85, 73, 68] && cfg.parse(r.buf, isUid) == None
      else true
    case Argument(last) => ArgumentError(cfg, r, last, c)
    case ArgumentQuoted(escaped) =>
      || c == 10
      || (c == 34 && !escaped && TooBig(cfg, r))
      || ((c == 34 || c == 92) && escaped && |r.buf| >= 8000)
      || (c != 10 && c != 34 && c != 92 && |r.buf| + (if escaped then 1 else 0) >= 8000)
    case Literal(nonSync) =>
      if c == 125 then r.buf == [] || ValueOf(r.buf) > 0xFFFF_FFFF || (!nonSync && r.size + ValueOf(r.buf) > cfg.maxSize)
      else if c == 43 then r.buf == []
      else !IsFigure(c) || nonSync || |r.buf| >= 15
    case LiteralSeek(n, nonSync) =>
      if c == 10 then n == 0 && !(nonSync && r.size > cfg.maxSize) && r.size + 1 > cfg.maxSize
      else !IsBlank(c)
    case LiteralDiscard(remaining) => remaining <= 1
    case LiteralData(remaining) => remaining <= 1 && r.size + |r.buf| + 1 > cfg.maxSize
  }

  /** A finished request: a line feed after a known command, or after arguments that still fit. */
  predicate IsDone(cfg: Config, r: Receiver, c: Byte) {
    && c == 10
    && match r.state
       case Command(isUid) => r.buf != [] && r.buf != [85, 73, 68] && cfg.parse(r.buf, isUid).Some?
       case Argument(_) => !TooBig(cfg, r)
       case _ => false
  }

  /** The line feed after the header of a synchronising literal that still fits. */
  predicate AsksForLiteral(cfg: Config, r: Receiver, c: Byte) {
    c == 10 && r.state.LiteralSeek? && !r.state.seekNonSync && (r.state.size > 0 || r.size + 1 <= cfg.maxSize)
  }

  lemma BytesAre(c: Byte)
    ensures IsSpace(c) == IsBlank(c) && IsDigit(c) == IsFigure(c) && IsAlphanumeric(c) == (IsFigure(c) || IsLetter(c))
  {
  }

  lemma MarksAre(cfg: Config, command: nat, c: Byte)
    ensures Punctuation(cfg, command, c).Some? == IsMarkByte(cfg, command, c)
  {
  }

  /** The event of a step, as the predicates above say it. */
  ghost predicate EventIs(cfg: Config, r: Receiver, c: Byte, event: Option<Event>) {
    && (event.Some? && event.value.Bad? <==> IsError(cfg, r, c))
    && (event.Some? && event.value.Done? <==> IsDone(cfg, r, c))
    && (event.Some? && event.value.NeedsLiteral? <==> AsksForLiteral(cfg, r, c))
  }

  lemma NameEvents(cfg: Config, r: Receiver, c: Byte)
    requires r.state.Start? || r.state.Tag? || r.state.Command?
    ensures EventIs(cfg, r, c, Step(cfg, r, c).event)
  {
    hide IsUtf8, IsSpace, IsDigit, IsAlphanumeric, IsBlank, IsFigure, IsLetter, StepArgument, StepQuoted, StepLiteral, StepSeek;
    BytesAre(c);
    if c == 10 || c == 32 || c == 9 || c == 13 { KnownBlanks(); }
  }

  lemma KnownBlanks()
    ensures IsBlank(10) && IsBlank(32) && IsBlank(9) && IsBlank(13)
    ensures !IsFigure(10) && !IsLetter(10)
  {
  }

  lemma ArgumentEvents(cfg: Config, r: Receiver, c: Byte)
    requires r.state.Argument?
    ensures EventIs(cfg, r, c, StepArgument(cfg, r, c, r.state.lastCh).event)
  {
    hide Punctuation, IsSpace, IsMarkByte;
    BytesAre(c);
    BytesAre(r.state.lastCh);
    MarksAre(cfg, r.request.command, c);
    MarksAreNot(cfg, r.request.command);
  }

  lemma MarksAreNot(cfg: Config, command: nat)
    ensures !IsMarkByte(cfg, command, 34) && !IsMarkByte(cfg, command, 123) && !IsMarkByte(cfg, command, 10)
    ensures !IsMarkByte(cfg, command, 32) && !IsMarkByte(cfg, command, 9) && !IsMarkByte(cfg, command, 12)
    ensures !IsMarkByte(cfg, command, 13)
  {
  }

  lemma QuotedEvents(cfg: Config, r: Receiver, c: Byte)
    requires r.state.ArgumentQuoted?
    ensures EventIs(cfg, r, c, StepQuoted(cfg, r, c, r.state.escaped).event)
  {
  }

  lemma LiteralEvents(cfg: Config, r: Receiver, c: Byte)
    requires r.state.Literal? || r.state.LiteralSeek? || r.state.LiteralDiscard? || r.state.LiteralData?
    ensures EventIs(cfg, r, c, Step(cfg, r, c).event)
  {
    hide ValueOf, StepTag, StepCommand, StepArgument, StepQuoted;
    BytesAre(c);
  }

  /** In every state and for every byte: an error is raised exactly for the errors above, a request is finished exactly at
      its line feed, and a literal is asked for exactly at the line feed after a synchronising header. */
  lemma EventsExactly(cfg: Config, r: Receiver, c: Byte)
    ensures var e := Step(cfg, r, c).event;
            && (e.Some? && e.value.Bad? <==> IsError(cfg, r, c))
            && (e.Some? && e.value.Done? <==> IsDone(cfg, r, c))
            && (e.Some? && e.value.NeedsLiteral? <==> AsksForLiteral(cfg, r, c))
  {
    hide StepTag, StepCommand, StepArgument, StepQuoted, StepLiteral, StepSeek, IsError, IsDone, AsksForLiteral;
    match r.state {
      case Argument(_) => ArgumentEvents(cfg, r, c);
      case ArgumentQuoted(_) => QuotedEvents(cfg, r, c);
      case Literal(_) | LiteralSeek(_, _) | LiteralDiscard(_) | LiteralData(_) => LiteralEvents(cfg, r, c);
      case _ => NameEvents(cfg, r, c);
    }
  }

  /** The case of a letter in a command name makes no difference. */
  lemma CaseIsIgnored(cfg: Config, r: Receiver, c: Byte)
    requires r.state.Command? && 65 <= c <= 90
    ensures Step(cfg, r, c + 32) == Step(cfg, r, c)
    ensures |r.buf| < 15 ==> Step(cfg, r, c) == Go(r.(buf := r.buf + [c]))
  {
  }

  /** The bytes that leave the receiver as it is: white space before a tag, before a command name and after a literal
      header, a tab or CR inside a tag, repeated white space between arguments, and a repeated plus. */
  predicate IsIgnored(r: Receiver, c: Byte) {
    match r.state
    case Start => IsBlank(c)
    case Tag => c == 9 || c == 13 || (c == 32 && r.buf == [])
    case Command(_) => IsBlank(c) && r.buf == []
    case Argument(last) => IsBlank(c) && c != 10 && c == last && r.buf == []
    case Literal(nonSync) => c == 43 && nonSync && r.buf != []
    case LiteralSeek(_, _) => IsBlank(c) && c != 10
    case _ => false
  }

  lemma ArgumentIgnores(cfg: Config, r: Receiver, c: Byte)
    requires r.state.Argument?
    ensures StepArgument(cfg, r, c, r.state.lastCh) == Go(r) <==> IsIgnored(r, c)
  {
    hide Punctuation, IsSpace, IsMarkByte;
    BytesAre(c);
    BytesAre(r.state.lastCh);
    MarksAre(cfg, r.request.command, c);
    MarksAreNot(cfg, r.request.command);
    GrowsByPushing(cfg, r);
  }

  lemma GrowsByPushing(cfg: Config, r: Receiver)
    ensures PushArgument(cfg, r, false).Some? && r.buf != [] ==> PushArgument(cfg, r, false).value.buf == []
    ensures forall t: Token :: |AddToken(r, t).request.tokens| == |r.request.tokens| + 1
  {
  }

  lemma IgnoredExactly(cfg: Config, r: Receiver, c: Byte)
    ensures Step(cfg, r, c) == Go(r) <==> IsIgnored(r, c)
  {
    if r.state.Argument? {
      ArgumentIgnores(cfg, r, c);
    } else {
      hide IsUtf8, ValueOf, StepArgument;
      BytesAre(c);
    }
    hide StepArgument;
  }

  /** What the events carry: an error the tag that was read, a finished request the command, or all its tokens with the
      pending argument last, and a demand for a literal its announced size. */
  lemma EventsCarry(cfg: Config, r: Receiver, c: Byte)
    requires Step(cfg, r, c).event.Some?
    ensures match Step(cfg, r, c).event.value
            case Bad(tag) => tag == r.request.tag
            case NeedsLiteral(n) => r.state.LiteralSeek? && n == r.state.size
            case Done(q) =>
              if r.state.Command? then
                cfg.parse(r.buf, r.state.isUid) == Some(q.command) && q == r.request.(command := q.command)
              else q == r.request.(tokens := r.request.tokens + if r.buf == [] then [] else [Arg(r.buf)])
  {
    hide IsUtf8, ValueOf, Punctuation, IsSpace, IsDigit, IsAlphanumeric, Fresh;
    assert r.request.tokens + [] == r.request.tokens;
  }
}

/**
  The well-formed UTF-8 of the Unicode standard, for the tag of a request.
  */
module Utf8 {
  import opened Prelude
  import opened Imap

  function EncodeChar(c: char): Bytes {
    var n := c as int;
    if n < 0x80 then [n]
    else if n < 0x800 then [0xC0 + n / 0x40, 0x80 + n % 0x40]
    else if n < 0x1_0000 then [0xE0 + n / 0x1000, 0x80 + n / 0x40 % 0x40, 0x80 + n % 0x40]
    else [0xF0 + n / 0x4_0000, 0x80 + n / 0x1000 % 0x40, 0x80 + n / 0x40 % 0x40, 0x80 + n % 0x40]
  }

  function EncodeText(text: string): Bytes {
    if text == [] then [] else EncodeChar(text[0]) + EncodeText(text[1..])
  }

  lemma {:induction false} EncodedIsUtf8(text: string)
    ensures IsUtf8(EncodeText(text))
  {
    if text != [] {
      EncodedIsUtf8(text[1..]);
      CharIsUtf8(text[0], EncodeText(text[1..]));
    }
  }

  /** The bounds on the lead byte and the one after it that IsUtf8 asks for. */
  lemma LeadBytes(c: char)
    ensures var e, n := EncodeChar(c), c as int;
            if n < 0x80 then |e| == 1 && e[0] < 0x80
            else if n < 0x800 then |e| == 2 && 0xC2 <= e[0] <= 0xDF && IsTail(e[1])
            else if n < 0x1_0000 then
              && |e| == 3 && 0xE0 <= e[0] <= 0xEF && IsTail(e[1]) && IsTail(e[2])
              && (e[0] == 0xE0 ==> e[1] >= 0xA0) && (e[0] == 0xED ==> e[1] < 0xA0)
            else
              && |e| == 4 && 0xF0 <= e[0] <= 0xF4 && IsTail(e[1]) && IsTail(e[2]) && IsTail(e[3])
              && (e[0] == 0xF0 ==> e[1] >= 0x90) && (e[0] == 0xF4 ==> e[1] < 0x90)
  {
  }

  lemma CharIsUtf8(c: char, rest: Bytes)
    requires IsUtf8(rest)
    ensures IsUtf8(EncodeChar(c) + rest)
  {
    hide EncodeChar, IsTail;
    LeadBytes(c);
    var e := EncodeChar(c);
    var b := e + rest;
    assert b[|e|..] == rest;
    assert forall i :: 0 <= i < |e| ==> b[i] == e[i];
  }

  function Two(b0: int, b1: int): int { (b0 - 0xC0) * 0x40 + (b1 - 0x80) }

  function Three(b0: int, b1: int, b2: int): int { (b0 - 0xE0) * 0x1000 + (b1 - 0x80) * 0x40 + (b2 - 0x80) }

  function Four(b0: int, b1: int, b2: int, b3: int): int {
    (b0 - 0xF0) * 0x4_0000 + (b1 - 0x80) * 0x1000 + (b2 - 0x80) * 0x40 + (b3 - 0x80)
  }

  lemma TwoBack(b0: Byte, b1: Byte)
    requires 0xC2 <= b0 <= 0xDF && IsTail(b1)
    ensures 0x80 <= Two(b0, b1) < 0x800 && EncodeChar(Two(b0, b1) as char) == [b0, b1]
  {
  }

  lemma ThreeBack(b0: Byte, b1: Byte, b2: Byte)
    requires 0xE0 <= b0 <= 0xEF && IsTail(b1) && IsTail(b2)
    requires (b0 == 0xE0 ==> b1 >= 0xA0) && (b0 == 0xED ==> b1 < 0xA0)
    ensures 0x800 <= Three(b0, b1, b2) < 0xD800 || 0xE000 <= Three(b0, b1, b2) < 0x1_0000
    ensures EncodeChar(Three(b0, b1, b2) as char) == [b0, b1, b2]
  {
    var n := Three(b0, b1, b2);
    assert n / 0x1000 == b0 - 0xE0;
    assert n / 0x40 == (b0 - 0xE0) * 0x40 + (b1 - 0x80);
  }

  lemma FourBack(b0: Byte, b1: Byte, b2: Byte, b3: Byte)
    requires 0xF0 <= b0 <= 0xF4 && IsTail(b1) && IsTail(b2) && IsTail(b3)
    requires (b0 == 0xF0 ==> b1 >= 0x90) && (b0 == 0xF4 ==> b1 < 0x90)
    ensures 0x1_0000 <= Four(b0, b1, b2, b3) < 0x11_0000
    ensures EncodeChar(Four(b0, b1, b2, b3) as char) == [b0, b1, b2, b3]
  {
    var n := Four(b0, b1, b2, b3);
    assert n / 0x4_0000 == b0 - 0xF0;
    assert n / 0x1000 == (b0 - 0xF0) * 0x40 + (b1 - 0x80);
    assert n / 0x40 == ((b0 - 0xF0) * 0x40 + (b1 - 0x80)) * 0x40 + (b2 - 0x80);
  }

  /** The character at the front of a well-formed string, and its length. */
  lemma FrontChar(b: Bytes) returns (c: char, n: nat)
    requires IsUtf8(b) && b != []
    ensures 1 <= n <= |b| && EncodeChar(c) == b[..n] && IsUtf8(b[n..])
  {
    hide IsTail, Two, Three, Four;
    if b[0] < 0x80 {
      n := 1;
      c := b[0] as char;
    } else {
      hide EncodeChar;
      if b[0] <= 0xDF {
        TwoBack(b[0], b[1]);
        c, n := Two(b[0], b[1]) as char, 2;
      } else if b[0] <= 0xEF {
        ThreeBack(b[0], b[1], b[2]);
        c, n := Three(b[0], b[1], b[2]) as char, 3;
      } else {
        FourBack(b[0], b[1], b[2], b[3]);
        c, n := Four(b[0], b[1], b[2], b[3]) as char, 4;
      }
    }
  }

  lemma {:induction false} Utf8IsEncoded(b: Bytes) returns (text: string)
    requires IsUtf8(b)
    ensures EncodeText(text) == b
    decreases |b|
  {
    if b == [] {
      text := [];
    } else {
      var c, n := FrontChar(b);
      var rest := Utf8IsEncoded(b[n..]);
      text := [c] + rest;
      assert text[1..] == rest && b[..n] + b[n..] == b;
    }
  }

  /** A byte string is well-formed exactly when it encodes some string. */
  lemma Utf8Exactly(b: Bytes)
    ensures IsUtf8(b) <==> exists text :: EncodeText(text) == b
  {
    if IsUtf8(b) {
      var text := Utf8IsEncoded(b);
    }
    if text :| EncodeText(text) == b {
      EncodedIsUtf8(text);
    }
  }
}
