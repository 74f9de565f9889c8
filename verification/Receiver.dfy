/**
  The IMAP request receiver: crates/imap-proto/src/receiver.rs. One function for what a byte does to the parser; the
  class below runs it over a buffer, as `Receiver::parse` does.
  */
module Imap {
  import opened Prelude

  type Bytes = seq<Byte>

  const ARG_MAX_LEN := 8000
  const MAX_U32 := 0xFFFF_FFFF

  const TAB: Byte := 9
  const LF: Byte := 10
  const FF: Byte := 12
  const CR: Byte := 13
  const SP: Byte := 32
  const DQUOTE: Byte := 34
  const PLUS: Byte := 43
  const BACKSLASH: Byte := 92
  const OPEN_BRACE: Byte := 123
  const CLOSE_BRACE: Byte := 125
  const TILDE: Byte := 126
  const UID: Bytes := [85, 73, 68]

  predicate IsSpace(c: Byte) { c == SP || c == TAB || c == LF || c == FF || c == CR }

  predicate IsDigit(c: Byte) { 48 <= c <= 57 }

  predicate IsAlphanumeric(c: Byte) { IsDigit(c) || 65 <= c <= 90 || 97 <= c <= 122 }

  function Upper(c: Byte): Byte { if 97 <= c <= 122 then c - 32 else c }

  predicate IsUtf8(b: Bytes)
    decreases |b|
  {
    if b == [] then true
    else if b[0] < 0x80 then IsUtf8(b[1..])
    else if 0xC2 <= b[0] <= 0xDF then |b| >= 2 && IsTail(b[1]) && IsUtf8(b[2..])
    else if 0xE0 <= b[0] <= 0xEF then
      && |b| >= 3 && IsTail(b[1]) && IsTail(b[2])
      && (b[0] == 0xE0 ==> b[1] >= 0xA0) && (b[0] == 0xED ==> b[1] < 0xA0)
      && IsUtf8(b[3..])
    else
      && 0xF0 <= b[0] <= 0xF4 && |b| >= 4 && IsTail(b[1]) && IsTail(b[2]) && IsTail(b[3])
      && (b[0] == 0xF0 ==> b[1] >= 0x90) && (b[0] == 0xF4 ==> b[1] < 0x90)
      && IsUtf8(b[4..])
  }

  predicate IsTail(c: Byte) { 0x80 <= c <= 0xBF }

  // ----- State -----

  datatype Token =
    | Arg(bytes: Bytes)
    | ParenthesisOpen | ParenthesisClose
    | BracketOpen | BracketClose
    | Lt | Gt | Dot
    | Nil

  datatype State =
    | Start
    | Tag
    | Command(isUid: bool)
    | Argument(lastCh: Byte)
    | ArgumentQuoted(escaped: bool)
    | Literal(nonSync: bool)
    | LiteralSeek(size: nat, seekNonSync: bool)
    | LiteralData(remaining: nat)
    | LiteralDiscard(remaining: nat)

  /** A command is whatever the protocol's own parser returns, known here by a number. */
  datatype Request = Request(tag: Bytes, command: nat, tokens: seq<Token>)

  datatype Receiver = Receiver(state: State, buf: Bytes, request: Request, size: nat)

  /** The command parser, the size limit and the start state: `Start` for IMAP, `Command` for ManageSieve. */
  datatype Config = Config(
    parse: (Bytes, bool) -> Option<nat>, brackets: nat -> bool, noCommand: nat,
    maxSize: nat, start: State)

  /** What `parse` returns, apart from asking for more bytes. `Bad` carries the tag, if one was read. */
  datatype Event = Done(request: Request) | NeedsLiteral(size: nat) | Bad(tag: Bytes)

  datatype Outcome = Outcome(receiver: Receiver, event: Option<Event>)

  function Fresh(cfg: Config): Receiver {
    Receiver(cfg.start, [], Request([], cfg.noCommand, []), 0)
  }

  // ----- One byte -----

  function ErrorReset(cfg: Config, r: Receiver): Outcome {
    Outcome(Fresh(cfg), Some(Bad(r.request.tag)))
  }

  function Go(r: Receiver): Outcome { Outcome(r, None) }

  function AddToken(r: Receiver, t: Token): Receiver {
    r.(request := r.request.(tokens := r.request.tokens + [t]))
  }

  /** `push_argument`: `None` when the request becomes too large. */
  function PushArgument(cfg: Config, r: Receiver, inQuote: bool): Option<Receiver> {
    if r.buf != [] then
      var size := r.size + |r.buf|;
      if size > cfg.maxSize then None else Some(AddToken(r.(size := size, buf := []), Arg(r.buf)))
    else if inQuote then Some(AddToken(r, Nil))
    else Some(r)
  }

  function PushToken(cfg: Config, r: Receiver, t: Token): Option<Receiver> {
    if r.size + 1 > cfg.maxSize then None else Some(AddToken(r.(size := r.size + 1), t))
  }

  /** `push_checked` into the buffer, and then the state `next`. */
  function PushByte(cfg: Config, r: Receiver, c: Byte, limit: nat, next: State): Outcome {
    if |r.buf| < limit then Go(r.(buf := r.buf + [c], state := next)) else ErrorReset(cfg, r)
  }

  function ValueOf(digits: Bytes): nat {
    if digits == [] then 0 else 10 * ValueOf(digits[..|digits| - 1]) + Digit(digits[|digits| - 1])
  }

  function Digit(c: Byte): nat { if IsDigit(c) then c as int - 48 else 0 }

  function Step(cfg: Config, r: Receiver, c: Byte): Outcome {
    match r.state
    case Start => if IsSpace(c) then Go(r) else Go(r.(buf := r.buf + [c], state := Tag))
    case Tag => StepTag(cfg, r, c)
    case Command(isUid) => StepCommand(cfg, r, c, isUid)
    case Argument(lastCh) => StepArgument(cfg, r, c, lastCh)
    case ArgumentQuoted(escaped) => StepQuoted(cfg, r, c, escaped)
    case Literal(nonSync) => StepLiteral(cfg, r, c, nonSync)
    case LiteralSeek(size, nonSync) => StepSeek(cfg, r, c, size, nonSync)
    case LiteralDiscard(remaining) =>
      if remaining > 1 then Go(r.(state := LiteralDiscard(remaining - 1))) else ErrorReset(cfg, r)
    case LiteralData(remaining) =>
      var r := r.(buf := r.buf + [c]);
      if remaining > 1 then Go(r.(state := LiteralData(remaining - 1)))
      else
        match PushArgument(cfg, r, false)
        case None => ErrorReset(cfg, r)
        case Some(r) => Go(r.(state := Argument(SP)))
  }

  function StepTag(cfg: Config, r: Receiver, c: Byte): Outcome {
    if c == SP then
      if r.buf == [] then Go(r)
      else if !IsUtf8(r.buf) then ErrorReset(cfg, r)
      else Go(r.(buf := [], request := r.request.(tag := r.buf), state := Command(false)))
    else if c == TAB || c == CR then Go(r)
    else if c == LF then ErrorReset(cfg, r)
    else PushByte(cfg, r, c, 128, Tag)
  }

  function StepCommand(cfg: Config, r: Receiver, c: Byte, isUid: bool): Outcome {
    if IsAlphanumeric(c) then PushByte(cfg, r, Upper(c), 15, r.state)
    else if IsSpace(c) then
      if r.buf == [] then Go(r)
      else if r.buf == UID then Go(r.(buf := [], state := Command(true)))
      else
        match cfg.parse(r.buf, isUid)
        case None => ErrorReset(cfg, r)
        case Some(command) =>
          var request := r.request.(command := command);
          if c != LF then Go(r.(buf := [], request := request, state := Argument(SP)))
          else Outcome(Fresh(cfg), Some(Done(request)))
    else ErrorReset(cfg, r)
  }

  /** The token of a punctuation byte; brackets, angles and dots only count for some commands. */
  function Punctuation(cfg: Config, command: nat, c: Byte): Option<Token> {
    if c == 40 then Some(ParenthesisOpen)
    else if c == 41 then Some(ParenthesisClose)
    else if !cfg.brackets(command) then None
    else if c == 91 then Some(BracketOpen)
    else if c == 93 then Some(BracketClose)
    else if c == 60 then Some(Lt)
    else if c == 62 then Some(Gt)
    else if c == 46 then Some(Dot)
    else None
  }

  function StepArgument(cfg: Config, r: Receiver, c: Byte, lastCh: Byte): Outcome {
    if c == DQUOTE && IsSpace(lastCh) then
      match PushArgument(cfg, r, false)
      case None => ErrorReset(cfg, r)
      case Some(r) => Go(r.(state := ArgumentQuoted(false)))
    else if c == OPEN_BRACE && (IsSpace(lastCh) || (lastCh == TILDE && |r.buf| == 1)) then
      match (if lastCh != TILDE then PushArgument(cfg, r, false) else Some(r.(buf := [])))
      case None => ErrorReset(cfg, r)
      case Some(r) => Go(r.(state := Literal(false)))
    else if Punctuation(cfg, r.request.command, c).Some? then
      match PushArgument(cfg, r, false)
      case None => ErrorReset(cfg, r)
      case Some(pushed) =>
        match PushToken(cfg, pushed, Punctuation(cfg, r.request.command, c).value)
        case None => ErrorReset(cfg, r)
        case Some(r) => Go(r)
    else if c == LF then
      match PushArgument(cfg, r, false)
      case None => ErrorReset(cfg, r)
      case Some(r) => Outcome(Fresh(cfg), Some(Done(r.request)))
    else if IsSpace(c) then
      match PushArgument(cfg, r, false)
      case None => ErrorReset(cfg, r)
      case Some(r) => Go(r.(state := Argument(c)))
    else PushByte(cfg, r, c, ARG_MAX_LEN, Argument(c))
  }

  function StepQuoted(cfg: Config, r: Receiver, c: Byte, escaped: bool): Outcome {
    if c == DQUOTE then
      if escaped then PushByte(cfg, r, c, ARG_MAX_LEN, ArgumentQuoted(false))
      else
        match PushArgument(cfg, r, true)
        case None => ErrorReset(cfg, r)
        case Some(r) => Go(r.(state := Argument(SP)))
    else if c == BACKSLASH then
      if escaped then PushByte(cfg, r, c, ARG_MAX_LEN, ArgumentQuoted(false))
      else Go(r.(state := ArgumentQuoted(true)))
    else if c == LF then ErrorReset(cfg, r)
    else
      PushByte(cfg, if escaped then r.(buf := r.buf + [BACKSLASH]) else r, c, ARG_MAX_LEN, ArgumentQuoted(false))
  }

  function StepLiteral(cfg: Config, r: Receiver, c: Byte, nonSync: bool): Outcome {
    if c == CLOSE_BRACE then
      var n := ValueOf(r.buf);
      if r.buf == [] || n > MAX_U32 then ErrorReset(cfg, r)
      else if r.size + n > cfg.maxSize && !nonSync then ErrorReset(cfg, r)
      else Go(r.(buf := [], state := LiteralSeek(n, nonSync)))
    else if c == PLUS then
      if r.buf == [] then ErrorReset(cfg, r) else Go(r.(state := Literal(true)))
    else if IsDigit(c) && !nonSync then PushByte(cfg, r, c, 15, r.state)
    else ErrorReset(cfg, r)
  }

  function StepSeek(cfg: Config, r: Receiver, c: Byte, n: nat, nonSync: bool): Outcome {
    if c == LF then
      if nonSync && r.size + n > cfg.maxSize then Go(r.(state := LiteralDiscard(n)))
      else if n > 0 then
        Outcome(r.(state := LiteralData(n)), if nonSync then None else Some(NeedsLiteral(n)))
      else
        match PushToken(cfg, r.(state := Argument(SP)), Nil)
        case None => ErrorReset(cfg, r)
        case Some(r) => Outcome(r, if nonSync then None else Some(NeedsLiteral(n)))
    else if IsSpace(c) then Go(r)
    else ErrorReset(cfg, r)
  }

  // ----- Many bytes -----

  datatype Fed = Fed(receiver: Receiver, events: seq<Event>)

  /** All the events that a byte string raises, when `parse` is called again until the bytes are used up. */
  function Feed(cfg: Config, r: Receiver, bytes: Bytes): Fed
    decreases |bytes|
  {
    if bytes == [] then Fed(r, [])
    else
      var o := Step(cfg, r, bytes[0]);
      var rest := Feed(cfg, o.receiver, bytes[1..]);
      Fed(rest.receiver, Raised(o) + rest.events)
  }

  function Raised(o: Outcome): seq<Event> { if o.event.Some? then [o.event.value] else [] }

  /** Cutting the input into chunks changes nothing. */
  lemma {:induction false} FeedAppend(cfg: Config, r: Receiver, a: Bytes, b: Bytes)
    ensures var first := Feed(cfg, r, a);
            var second := Feed(cfg, first.receiver, b);
            Feed(cfg, r, a + b) == Fed(second.receiver, first.events + second.events)
    decreases |a|
  {
    hide Step;
    if a == [] {
      assert a + b == b;
      assert [] + Feed(cfg, r, b).events == Feed(cfg, r, b).events;
    } else {
      var o := Step(cfg, r, a[0]);
      assert (a + b)[0] == a[0] && (a + b)[1..] == a[1..] + b;
      FeedAppend(cfg, o.receiver, a[1..], b);
      var first := Feed(cfg, o.receiver, a[1..]);
      Assoc(Raised(o), first.events, Feed(cfg, first.receiver, b).events);
    }
  }

  lemma FeedOne(cfg: Config, r: Receiver, c: Byte)
    ensures Feed(cfg, r, [c]) == Fed(Step(cfg, r, c).receiver, Raised(Step(cfg, r, c)))
  {
    hide Step;
    assert [c][1..] == [];
    assert Raised(Step(cfg, r, c)) + [] == Raised(Step(cfg, r, c));
  }
}

/**
  What holds of the receiver after any bytes whatever.
  */
module ImapLimits {
  import opened Prelude
  import opened Imap

  /** What a token costs at least: arguments their length, punctuation one, and NIL nothing. */
  function Cost(t: Token): nat {
    match t
    case Arg(bytes) => |bytes|
    case Nil => 0
    case _ => 1
  }

  function TotalCost(tokens: seq<Token>): nat {
    if tokens == [] then 0 else TotalCost(tokens[..|tokens| - 1]) + Cost(tokens[|tokens| - 1])
  }

  /** `push_argument` never pushes an empty argument. */
  predicate NoEmptyArgs(tokens: seq<Token>) { forall i :: 0 <= i < |tokens| ==> tokens[i] != Arg([]) }

  function CountNotNil(tokens: seq<Token>): nat {
    if tokens == [] then 0 else CountNotNil(tokens[..|tokens| - 1]) + if tokens[|tokens| - 1] == Nil then 0 else 1
  }

  lemma {:induction false} NotNilCosts(tokens: seq<Token>)
    requires NoEmptyArgs(tokens)
    ensures CountNotNil(tokens) <= TotalCost(tokens)
  {
    if tokens != [] {
      NotNilCosts(tokens[..|tokens| - 1]);
    }
  }

  lemma CostAppend(tokens: seq<Token>, t: Token)
    ensures TotalCost(tokens + [t]) == TotalCost(tokens) + Cost(t)
  {
    assert (tokens + [t])[..|tokens|] == tokens;
  }

  predicate BufferInv(cfg: Config, r: Receiver) {
    match r.state
    case Start => r.buf == []
    case Tag => 1 <= |r.buf| <= 128
    case Command(_) => |r.buf| <= 15
    case Argument(lastCh) => |r.buf| <= 8000 && (IsSpace(lastCh) ==> r.buf == [])
    case ArgumentQuoted(_) => |r.buf| <= 8000
    case Literal(nonSync) =>
      |r.buf| <= 15 && (forall i :: 0 <= i < |r.buf| ==> IsDigit(r.buf[i])) && (nonSync ==> r.buf != [])
    case LiteralSeek(n, nonSync) => r.buf == [] && n <= MAX_U32 && (!nonSync ==> r.size + n <= cfg.maxSize)
    case LiteralData(remaining) => remaining >= 1 && r.size + |r.buf| + remaining <= cfg.maxSize
    case LiteralDiscard(remaining) => 1 <= remaining <= MAX_U32
  }

  ghost predicate Inv(cfg: Config, r: Receiver) {
    && SizeInv(cfg, r)
    && BufferInv(cfg, r)
  }

  ghost predicate SizeInv(cfg: Config, r: Receiver) {
    TotalCost(r.request.tokens) <= r.size <= cfg.maxSize && NoEmptyArgs(r.request.tokens)
  }

  ghost predicate ValidConfig(cfg: Config) { cfg.start == Start || cfg.start == Command(false) }

  lemma PushArgumentKeeps(cfg: Config, r: Receiver, inQuote: bool)
    requires SizeInv(cfg, r)
    ensures var p := PushArgument(cfg, r, inQuote);
            p.Some? ==> SizeInv(cfg, p.value) && p.value.buf == []
  {
    hide TotalCost;
    CostAppend(r.request.tokens, Arg(r.buf));
    CostAppend(r.request.tokens, Nil);
  }

  lemma PushTokenKeeps(cfg: Config, r: Receiver, t: Token)
    requires SizeInv(cfg, r) && Cost(t) <= 1 && !t.Arg?
    ensures var p := PushToken(cfg, r, t);
            p.Some? ==> SizeInv(cfg, p.value) && p.value.buf == r.buf
  {
    hide TotalCost;
    CostAppend(r.request.tokens, t);
  }

  lemma FreshInv(cfg: Config)
    requires ValidConfig(cfg)
    ensures Inv(cfg, Fresh(cfg))
  {
  }

  lemma NameKeepsInv(cfg: Config, r: Receiver, c: Byte)
    requires ValidConfig(cfg) && Inv(cfg, r) && (r.state.Start? || r.state.Tag? || r.state.Command?)
    ensures Inv(cfg, Step(cfg, r, c).receiver)
  {
    hide TotalCost, NoEmptyArgs, IsUtf8, Fresh, StepArgument, StepQuoted, StepLiteral, StepSeek, PushArgument;
    FreshInv(cfg);
  }

  lemma ArgumentKeepsInv(cfg: Config, r: Receiver, c: Byte)
    requires ValidConfig(cfg) && Inv(cfg, r) && r.state.Argument?
    ensures Inv(cfg, StepArgument(cfg, r, c, r.state.lastCh).receiver)
  {
    hide TotalCost, NoEmptyArgs, Fresh, PushArgument, PushToken, Punctuation;
    FreshInv(cfg);
    PushArgumentKeeps(cfg, r, false);
    var p, t := PushArgument(cfg, r, false), Punctuation(cfg, r.request.command, c);
    KeepsState(cfg, r);
    PunctuationCosts(cfg, r.request.command, c);
    if t.Some? && p.Some? {
      PushTokenKeeps(cfg, p.value, t.value);
      KeepsState(cfg, p.value);
      TokenKeepsState(cfg, p.value, t.value);
    }
  }

  lemma PunctuationCosts(cfg: Config, command: nat, c: Byte)
    ensures var t := Punctuation(cfg, command, c);
            t.Some? ==> Cost(t.value) <= 1 && !t.value.Arg?
  {
  }

  lemma KeepsState(cfg: Config, r: Receiver)
    ensures var p := PushArgument(cfg, r, false);
            p.Some? ==> p.value.state == r.state
  {
  }

  lemma TokenKeepsState(cfg: Config, r: Receiver, t: Token)
    ensures PushToken(cfg, r, t).Some? ==> PushToken(cfg, r, t).value.state == r.state
  {
  }

  lemma QuotedKeepsInv(cfg: Config, r: Receiver, c: Byte)
    requires ValidConfig(cfg) && Inv(cfg, r) && r.state.ArgumentQuoted?
    ensures Inv(cfg, StepQuoted(cfg, r, c, r.state.escaped).receiver)
  {
    hide TotalCost, NoEmptyArgs, Fresh, PushArgument;
    FreshInv(cfg);
    PushArgumentKeeps(cfg, r, true);
  }

  lemma LiteralKeepsInv(cfg: Config, r: Receiver, c: Byte)
    requires ValidConfig(cfg) && Inv(cfg, r) && (r.state.Literal? || r.state.LiteralSeek?)
    ensures Inv(cfg, Step(cfg, r, c).receiver)
  {
    hide TotalCost, NoEmptyArgs, Fresh, ValueOf, PushArgument, PushToken, StepTag, StepCommand, StepArgument, StepQuoted;
    FreshInv(cfg);
    PushTokenKeeps(cfg, r.(state := Argument(SP)), Nil);
    TokenKeepsState(cfg, r.(state := Argument(SP)), Nil);
  }

  lemma DataKeepsInv(cfg: Config, r: Receiver, c: Byte)
    requires ValidConfig(cfg) && Inv(cfg, r) && r.state.LiteralData?
    ensures Inv(cfg, Step(cfg, r, c).receiver)
  {
    hide TotalCost, NoEmptyArgs, Fresh, PushArgument, StepTag, StepCommand, StepArgument, StepQuoted, StepLiteral, StepSeek;
    FreshInv(cfg);
    var longer := r.(buf := r.buf + [c]);
    assert |longer.buf| == |r.buf| + 1;
    if r.state.remaining > 1 {
      assert Step(cfg, r, c).receiver == longer.(state := LiteralData(r.state.remaining - 1));
    } else {
      PushArgumentKeeps(cfg, longer, false);
    }
  }

  lemma DiscardKeepsInv(cfg: Config, r: Receiver, c: Byte)
    requires ValidConfig(cfg) && Inv(cfg, r) && r.state.LiteralDiscard?
    ensures Inv(cfg, Step(cfg, r, c).receiver)
  {
    hide TotalCost, NoEmptyArgs, Fresh, PushArgument, StepTag, StepCommand, StepArgument, StepQuoted, StepLiteral, StepSeek;
    FreshInv(cfg);
  }

  lemma StepKeepsInv(cfg: Config, r: Receiver, c: Byte)
    requires ValidConfig(cfg) && Inv(cfg, r)
    ensures Inv(cfg, Step(cfg, r, c).receiver)
  {
    hide Inv, StepTag, StepCommand, StepArgument, StepQuoted, StepLiteral, StepSeek;
    match r.state {
      case Start | Tag | Command(_) => NameKeepsInv(cfg, r, c);
      case Argument(_) => ArgumentKeepsInv(cfg, r, c);
      case ArgumentQuoted(_) => QuotedKeepsInv(cfg, r, c);
      case Literal(_) | LiteralSeek(_, _) => LiteralKeepsInv(cfg, r, c);
      case LiteralData(_) => DataKeepsInv(cfg, r, c);
      case LiteralDiscard(_) => DiscardKeepsInv(cfg, r, c);
    }
  }

  lemma {:induction false} FeedKeepsInv(cfg: Config, r: Receiver, bytes: Bytes)
    requires ValidConfig(cfg) && Inv(cfg, r)
    ensures Inv(cfg, Feed(cfg, r, bytes).receiver)
    decreases |bytes|
  {
    hide Step, Inv;
    if bytes == [] {
    } else {
      StepKeepsInv(cfg, r, bytes[0]);
      FeedKeepsInv(cfg, Step(cfg, r, bytes[0]).receiver, bytes[1..]);
    }
  }

  /** After any input, in any chunks: the tokens cost at most the counted size, which is at most the limit, and the buffer
      is within the bound of its state. */
  lemma ReachableStatesAreBounded(cfg: Config, bytes: Bytes)
    requires ValidConfig(cfg)
    ensures Inv(cfg, Feed(cfg, Fresh(cfg), bytes).receiver)
  {
    FeedKeepsInv(cfg, Fresh(cfg), bytes);
  }

  /** After any input, the tokens other than NIL are at most as many as the counted size, and so as the limit. */
  lemma TokensAreBounded(cfg: Config, bytes: Bytes)
    requires ValidConfig(cfg)
    ensures var r := Feed(cfg, Fresh(cfg), bytes).receiver;
            CountNotNil(r.request.tokens) <= r.size <= cfg.maxSize
  {
    hide Feed, Fresh;
    ReachableStatesAreBounded(cfg, bytes);
    NotNilCosts(Feed(cfg, Fresh(cfg), bytes).receiver.request.tokens);
  }

  /** A finished request and an error both leave the receiver as it began: the next byte starts the next request. */
  lemma AnswersLeaveFresh(cfg: Config, r: Receiver, c: Byte)
    ensures var o := Step(cfg, r, c);
            o.event.Some? && !o.event.value.NeedsLiteral? ==> o.receiver == Fresh(cfg)
  {
    hide IsUtf8, ValueOf, PushArgument, PushToken, Punctuation, Fresh;
  }

  /** In literal data the size was checked before, so no byte can fail. */
  lemma LiteralDataCannotFail(cfg: Config, r: Receiver, c: Byte)
    requires Inv(cfg, r) && r.state.LiteralData?
    ensures Step(cfg, r, c).event == None
  {
    hide TotalCost;
  }
}

/**
  Printed requests and the events they raise.
  */
module ImapRequests {
  import opened Prelude
  import opened Imap
  import opened ImapLimits

  // ----- Steps that raise nothing -----

  /** Feeding `bytes` takes `r` to `s` and raises `events`. */
  ghost predicate Takes(cfg: Config, r: Receiver, bytes: Bytes, s: Receiver, events: seq<Event>) {
    Feed(cfg, r, bytes) == Fed(s, events)
  }

  lemma Then(cfg: Config, r: Receiver, a: Bytes, s: Receiver, e: seq<Event>, b: Bytes, t: Receiver, f: seq<Event>)
    requires Takes(cfg, r, a, s, e) && Takes(cfg, s, b, t, f)
    ensures Takes(cfg, r, a + b, t, e + f)
  {
    hide Feed;
    FeedAppend(cfg, r, a, b);
  }

  lemma OneByte(cfg: Config, r: Receiver, c: Byte)
    ensures Takes(cfg, r, [c], Step(cfg, r, c).receiver, Raised(Step(cfg, r, c)))
  {
    hide Feed, Step;
    FeedOne(cfg, r, c);
  }

  // ----- Quoted strings -----

  function Escaped(b: Bytes): Bytes {
    if b == [] then []
    else (if b[0] == DQUOTE || b[0] == BACKSLASH then [BACKSLASH, b[0]] else [b[0]]) + Escaped(b[1..])
  }

  /** What stands between two quotes: a backslash escapes a quote or a backslash and otherwise stays; `None` if a quote
      is not escaped, the last byte is, or there is a line feed. */
  function Unquoted(raw: Bytes): Option<Bytes> {
    if raw == [] then Some([])
    else if raw[0] == 10 || raw[0] == 34 then None
    else if raw[0] != 92 then Before([raw[0]], Unquoted(raw[1..]))
    else if |raw| == 1 || raw[1] == 10 then None
    else if raw[1] == 34 || raw[1] == 92 then Before([raw[1]], Unquoted(raw[2..]))
    else Before([92, raw[1]], Unquoted(raw[2..]))
  }

  function Before(b: Bytes, rest: Option<Bytes>): Option<Bytes> {
    if rest.Some? then Some(b + rest.value) else None
  }

  /** Every string without a line feed can be quoted. */
  lemma {:induction false} EscapedIsQuoted(b: Bytes)
    requires LF !in b
    ensures Unquoted(Escaped(b)) == Some(b)
  {
    if b != [] {
      EscapedIsQuoted(b[1..]);
      var e := Escaped(b);
      assert [b[0]] + b[1..] == b;
      if b[0] == DQUOTE || b[0] == BACKSLASH {
        assert e[2..] == Escaped(b[1..]);
      } else {
        assert e[1..] == Escaped(b[1..]);
      }
    }
  }

  lemma {:induction false} QuotedBytes(cfg: Config, r: Receiver, raw: Bytes, b: Bytes)
    requires r.state == ArgumentQuoted(false) && |r.buf| + |b| <= ARG_MAX_LEN && Unquoted(raw) == Some(b)
    ensures Takes(cfg, r, raw, r.(buf := r.buf + b), [])
    decreases |raw|
  {
    hide Feed, Step, Takes;
    if raw == [] {
      NothingTaken(cfg, r);
      assert r.buf + b == r.buf;
    } else {
      var n := if raw[0] == 92 then 2 else 1;
      var first := if raw[0] != 92 then [raw[0]] else if raw[1] == 34 || raw[1] == 92 then [raw[1]] else raw[..2];
      var rest := Unquoted(raw[n..]).value;
      var pushed := r.(buf := r.buf + first);
      assert b == first + rest;
      Assoc(r.buf, first, rest);
      if n == 1 { QuotedByte(cfg, r, raw[0]); } else { EscapedByte(cfg, r, raw[1]); }
      assert raw[..n] == if n == 1 then [raw[0]] else [92, raw[1]];
      QuotedBytes(cfg, pushed, raw[n..], rest);
      ThenQuiet(cfg, r, raw[..n], pushed, raw[n..], r.(buf := r.buf + b), []);
      assert raw[..n] + raw[n..] == raw;
    }
  }

  lemma QuotedByte(cfg: Config, r: Receiver, c: Byte)
    requires r.state == ArgumentQuoted(false) && |r.buf| < ARG_MAX_LEN && c != 10 && c != 34 && c != 92
    ensures Takes(cfg, r, [c], r.(buf := r.buf + [c]), [])
  {
    hide Takes;
    Quiet(cfg, r, c, r.(buf := r.buf + [c]));
  }

  lemma EscapedByte(cfg: Config, r: Receiver, c: Byte)
    requires r.state == ArgumentQuoted(false) && c != 10
    requires |r.buf| + (if c == 34 || c == 92 then 1 else 2) <= ARG_MAX_LEN
    ensures Takes(cfg, r, [92, c], r.(buf := r.buf + if c == 34 || c == 92 then [c] else [92, c]), [])
  {
    hide Takes, Feed;
    var escaped := r.(state := ArgumentQuoted(true));
    var after := r.(buf := r.buf + if c == 34 || c == 92 then [c] else [92, c]);
    assert r.buf + [92] + [c] == r.buf + [92, c];
    Quiet(cfg, r, 92, escaped);
    Quiet(cfg, escaped, c, after);
    hide Step;
    ThenQuiet(cfg, r, [92], escaped, [c], after, []);
    assert [92] + [c] == [92, c];
  }

  lemma NothingTaken(cfg: Config, r: Receiver)
    ensures Takes(cfg, r, [], r, [])
  {
  }

  lemma Quiet(cfg: Config, r: Receiver, c: Byte, s: Receiver)
    requires Step(cfg, r, c) == Go(s)
    ensures Takes(cfg, r, [c], s, [])
  {
    hide Step, Feed;
    OneByte(cfg, r, c);
  }

  // ----- Literals -----

  ghost predicate IsNumber(ds: Bytes) { 1 <= |ds| <= 15 && forall i :: 0 <= i < |ds| ==> 48 <= ds[i] <= 57 }

  lemma {:induction false} NumberBytes(cfg: Config, r: Receiver, ds: Bytes)
    requires r.state == Literal(false) && |r.buf| + |ds| <= 15 && (forall i :: 0 <= i < |ds| ==> IsDigit(ds[i]))
    ensures Takes(cfg, r, ds, r.(buf := r.buf + ds), [])
    decreases |ds|
  {
    if ds == [] {
      assert r.buf + ds == r.buf;
    } else {
      var pushed := r.(buf := r.buf + [ds[0]]);
      assert r.buf + ds == pushed.buf + ds[1..];
      NumberBytes(cfg, pushed, ds[1..]);
      Quiet(cfg, r, ds[0], pushed);
      hide Feed, Step;
      Then(cfg, r, [ds[0]], pushed, [], ds[1..], r.(buf := r.buf + ds), []);
      assert [ds[0]] + ds[1..] == ds;
    }
  }

  /** Where a quoted string or a literal can begin. */
  ghost predicate AfterSpace(r: Receiver) { r.state.Argument? && IsSpace(r.state.lastCh) && r.buf == [] }

  /** A literal can also begin behind a lone tilde. */
  ghost predicate BeginsLiteral(r: Receiver) {
    AfterSpace(r) || (r.state == Argument(TILDE) && |r.buf| == 1)
  }

  /** `{n}` or `{n+}` */
  function Header(ds: Bytes, nonSync: bool): Bytes {
    [OPEN_BRACE] + ds + (if nonSync then [PLUS, CLOSE_BRACE] else [CLOSE_BRACE])
  }

  function Announced(ds: Bytes, nonSync: bool): Bytes { Header(ds, nonSync) + [CR] }

  lemma HeaderTaken(cfg: Config, r: Receiver, ds: Bytes, nonSync: bool)
    requires BeginsLiteral(r) && IsNumber(ds) && ValueOf(ds) <= MAX_U32
    requires nonSync || r.size + ValueOf(ds) <= cfg.maxSize
    ensures Takes(cfg, r, Header(ds, nonSync), r.(state := LiteralSeek(ValueOf(ds), nonSync), buf := []), [])
  {
    var inside := r.(state := Literal(false), buf := ds);
    var seek := r.(state := LiteralSeek(ValueOf(ds), nonSync), buf := []);
    var close: Bytes := if nonSync then [PLUS, CLOSE_BRACE] else [CLOSE_BRACE];
    LiteralNumber(cfg, r, ds);
    LiteralClose(cfg, inside, nonSync);
    hide Step, Feed, Takes, ValueOf;
    ThenQuiet(cfg, r, [OPEN_BRACE] + ds, inside, close, seek, []);
  }

  lemma LiteralNumber(cfg: Config, r: Receiver, ds: Bytes)
    requires BeginsLiteral(r) && IsNumber(ds)
    ensures Takes(cfg, r, [OPEN_BRACE] + ds, r.(state := Literal(false), buf := ds), [])
  {
    var begun := r.(state := Literal(false), buf := []);
    Quiet(cfg, r, OPEN_BRACE, begun);
    NumberBytes(cfg, begun, ds);
    assert begun.buf + ds == ds;
    hide Step, Feed, Takes;
    ThenQuiet(cfg, r, [OPEN_BRACE], begun, ds, begun.(buf := ds), []);
  }

  lemma LiteralClose(cfg: Config, r: Receiver, nonSync: bool)
    requires r.state == Literal(false) && r.buf != [] && ValueOf(r.buf) <= MAX_U32
    requires nonSync || r.size + ValueOf(r.buf) <= cfg.maxSize
    ensures Takes(cfg, r, if nonSync then [PLUS, CLOSE_BRACE] else [CLOSE_BRACE],
                  r.(state := LiteralSeek(ValueOf(r.buf), nonSync), buf := []), [])
  {
    var seek := r.(state := LiteralSeek(ValueOf(r.buf), nonSync), buf := []);
    if nonSync {
      var plus := r.(state := Literal(true));
      Quiet(cfg, r, PLUS, plus);
      Quiet(cfg, plus, CLOSE_BRACE, seek);
      hide Step, Feed, Takes, ValueOf;
      ThenQuiet(cfg, r, [PLUS], plus, [CLOSE_BRACE], seek, []);
      assert [PLUS] + [CLOSE_BRACE] == [PLUS, CLOSE_BRACE];
    } else {
      Quiet(cfg, r, CLOSE_BRACE, seek);
    }
  }

  lemma ThenQuiet(cfg: Config, r: Receiver, a: Bytes, s: Receiver, b: Bytes, t: Receiver, f: seq<Event>)
    requires Takes(cfg, r, a, s, []) && Takes(cfg, s, b, t, f)
    ensures Takes(cfg, r, a + b, t, f)
  {
    hide Feed;
    Then(cfg, r, a, s, [], b, t, f);
    assert [] + f == f;
  }

  lemma {:induction false} DataBytes(cfg: Config, r: Receiver, b: Bytes)
    requires r.state == LiteralData(|b|) && b != [] && r.size + |r.buf| + |b| <= cfg.maxSize
    ensures Takes(cfg, r, b,
                  AddToken(r.(state := Argument(SP), buf := [], size := r.size + |r.buf| + |b|), Arg(r.buf + b)), [])
    decreases |b|
  {
    var after := AddToken(r.(state := Argument(SP), buf := [], size := r.size + |r.buf| + |b|), Arg(r.buf + b));
    if |b| == 1 {
      assert b == [b[0]];
      Quiet(cfg, r, b[0], after);
    } else {
      var pushed := r.(state := LiteralData(|b| - 1), buf := r.buf + [b[0]]);
      assert r.buf + b == pushed.buf + b[1..];
      DataBytes(cfg, pushed, b[1..]);
      Quiet(cfg, r, b[0], pushed);
      hide Feed, Step;
      Then(cfg, r, [b[0]], pushed, [], b[1..], after, []);
      assert [b[0]] + b[1..] == b;
    }
  }

  /** From the line feed on, in every reachable state: the data so far is the whole buffer, and the rest of the announced
      size is awaited. */
  lemma AnnouncedData(cfg: Config, r: Receiver, n: nat, nonSync: bool, b: Bytes)
    requires Inv(cfg, r) && r.state == LiteralSeek(n, nonSync) && r.size + n <= cfg.maxSize && |b| < n
    ensures Takes(cfg, r, [LF] + b, r.(state := LiteralData(n - |b|), buf := b),
                  if nonSync then [] else [NeedsLiteral(n)])
  {
    hide TotalCost;
    var asked: seq<Event> := if nonSync then [] else [NeedsLiteral(n)];
    var data := r.(state := LiteralData(n));
    OneByte(cfg, r, LF);
    assert Takes(cfg, r, [LF], data, asked);
    DataSoFar(cfg, data, n, b);
    assert data.buf + b == b;
    hide Feed, Step, Takes, Inv;
    Then(cfg, r, [LF], data, asked, b, r.(state := LiteralData(n - |b|), buf := b), []);
    assert asked + [] == asked;
  }

  lemma {:induction false} DataSoFar(cfg: Config, r: Receiver, n: nat, b: Bytes)
    requires r.state == LiteralData(n) && |b| < n
    ensures Takes(cfg, r, b, r.(state := LiteralData(n - |b|), buf := r.buf + b), [])
    decreases |b|
  {
    if b == [] {
      assert r.buf + b == r.buf;
    } else {
      var pushed := r.(state := LiteralData(n - 1), buf := r.buf + [b[0]]);
      assert r.buf + b == pushed.buf + b[1..];
      DataSoFar(cfg, pushed, n - 1, b[1..]);
      Quiet(cfg, r, b[0], pushed);
      hide Feed, Step;
      Then(cfg, r, [b[0]], pushed, [], b[1..], r.(state := LiteralData(n - |b|), buf := r.buf + b), []);
      assert [b[0]] + b[1..] == b;
    }
  }

  lemma {:induction false} DiscardBytes(cfg: Config, r: Receiver, b: Bytes)
    requires r.state == LiteralDiscard(|b|) && b != []
    ensures Takes(cfg, r, b, Fresh(cfg), [Bad(r.request.tag)])
    decreases |b|
  {
    if |b| == 1 {
      assert b == [b[0]];
      OneByte(cfg, r, b[0]);
    } else {
      var fewer := r.(state := LiteralDiscard(|b| - 1));
      DiscardBytes(cfg, fewer, b[1..]);
      Quiet(cfg, r, b[0], fewer);
      hide Feed, Step, Fresh;
      Then(cfg, r, [b[0]], fewer, [], b[1..], Fresh(cfg), [Bad(r.request.tag)]);
      assert [b[0]] + b[1..] == b;
    }
  }

  /** White space other than the line feed. */
  ghost predicate Blank(ws: Bytes) {
    forall i :: 0 <= i < |ws| ==> ws[i] == 32 || ws[i] == 9 || ws[i] == 12 || ws[i] == 13
  }

  lemma {:induction false} SeekTaken(cfg: Config, r: Receiver, ws: Bytes)
    requires r.state.LiteralSeek? && Blank(ws)
    ensures Takes(cfg, r, ws, r, [])
    decreases |ws|
  {
    if ws != [] {
      Quiet(cfg, r, ws[0], r);
      SeekTaken(cfg, r, ws[1..]);
      hide Feed, Step, Takes;
      ThenQuiet(cfg, r, [ws[0]], r, ws[1..], r, []);
      assert [ws[0]] + ws[1..] == ws;
    }
  }

  lemma OversizedLiteralTaken(cfg: Config, r: Receiver, ws: Bytes, data: Bytes)
    requires r.state == LiteralSeek(|data|, true) && Blank(ws)
    requires r.size <= cfg.maxSize < r.size + |data|
    ensures Takes(cfg, r, ws + [LF] + data, Fresh(cfg), [Bad(r.request.tag)])
  {
    var discard := r.(state := LiteralDiscard(|data|));
    SeekTaken(cfg, r, ws);
    Quiet(cfg, r, LF, discard);
    DiscardBytes(cfg, discard, data);
    hide Feed, Step, Takes, Fresh;
    ThenQuiet(cfg, r, ws, r, [LF], discard, []);
    ThenQuiet(cfg, r, ws + [LF], discard, data, Fresh(cfg), [Bad(r.request.tag)]);
  }

  /** An oversized non-synchronising literal, however it was announced: after any white space and the line feed exactly
      its announced bytes are dropped, whatever they are; one error is raised; and whatever comes next is read as by a
      fresh receiver. (FeedAppend: in whatever chunks it comes.) */
  lemma OversizedLiteralIsSkipped(cfg: Config, r: Receiver, ws: Bytes, data: Bytes, rest: Bytes)
    requires r.state == LiteralSeek(|data|, true) && Blank(ws)
    requires r.size <= cfg.maxSize < r.size + |data|
    ensures Feed(cfg, r, ws + [LF] + data + rest)
         == Fed(Feed(cfg, Fresh(cfg), rest).receiver, [Bad(r.request.tag)] + Feed(cfg, Fresh(cfg), rest).events)
  {
    hide Feed, Fresh;
    OversizedLiteralTaken(cfg, r, ws, data);
    FeedAppend(cfg, r, ws + [LF] + data, rest);
  }

  /** The same from its header, behind white space or a lone tilde. */
  lemma OversizedHeaderIsSkipped(cfg: Config, r: Receiver, ds: Bytes, ws: Bytes, data: Bytes, rest: Bytes)
    requires BeginsLiteral(r) && IsNumber(ds) && ValueOf(ds) == |data| <= MAX_U32 && Blank(ws)
    requires r.size <= cfg.maxSize < r.size + |data|
    ensures Feed(cfg, r, Header(ds, true) + (ws + [LF] + data) + rest)
         == Fed(Feed(cfg, Fresh(cfg), rest).receiver, [Bad(r.request.tag)] + Feed(cfg, Fresh(cfg), rest).events)
  {
    var seek := r.(state := LiteralSeek(|data|, true), buf := []);
    HeaderTaken(cfg, r, ds, true);
    OversizedLiteralTaken(cfg, seek, ws, data);
    hide Feed, Fresh, Header, ValueOf;
    ThenQuiet(cfg, r, Header(ds, true), seek, ws + [LF] + data, Fresh(cfg), [Bad(r.request.tag)]);
    FeedAppend(cfg, r, Header(ds, true) + (ws + [LF] + data), rest);
  }

  // ----- Arguments and tokens -----

  /** A token and the way it is written. A quoted or literal empty string is NIL; a literal may stand behind a tilde. */
  datatype Item =
    | Quoted(bytes: Bytes, raw: Bytes)
    | Counted(bytes: Bytes, digits: Bytes, nonSync: bool, binary: bool)
    | Atom(bytes: Bytes)
    | Punct(mark: Token)

  /** The bytes of the punctuation tokens. */
  function MarkByte(t: Token): Option<Byte> {
    match t
    case ParenthesisOpen => Some(40)
    case ParenthesisClose => Some(41)
    case BracketOpen => Some(91)
    case BracketClose => Some(93)
    case Lt => Some(60)
    case Gt => Some(62)
    case Dot => Some(46)
    case Arg(_) => None
    case Nil => None
  }

  /** Parentheses always count, the others only for some commands. */
  predicate IsMark(cfg: Config, command: nat, t: Token) {
    MarkByte(t).Some? && (t.ParenthesisOpen? || t.ParenthesisClose? || cfg.brackets(command))
  }

  lemma MarkIsPunctuation(cfg: Config, command: nat, t: Token)
    requires IsMark(cfg, command, t)
    ensures Punctuation(cfg, command, MarkByte(t).value) == Some(t)
  {
  }

  /** A byte that is neither white space nor punctuation for this command. */
  predicate IsAtomByte(cfg: Config, command: nat, c: Byte) {
    && c != 32 && c != 9 && c != 10 && c != 12 && c != 13
    && c != 40 && c != 41
    && (cfg.brackets(command) ==> c != 91 && c != 93 && c != 60 && c != 62 && c != 46)
  }

  lemma AtomByteIsNoMark(cfg: Config, command: nat, c: Byte)
    requires IsAtomByte(cfg, command, c)
    ensures !IsSpace(c) && Punctuation(cfg, command, c) == None
  {
  }

  ghost predicate ValidItem(cfg: Config, command: nat, item: Item) {
    match item
    case Quoted(b, raw) => |b| <= 8000 && Unquoted(raw) == Some(b)
    case Counted(b, ds, _, _) => IsNumber(ds) && ValueOf(ds) == |b| <= 0xFFFF_FFFF
    case Atom(b) => 1 <= |b| <= 8000 && IsAtom(cfg, command, b)
    case Punct(t) => IsMark(cfg, command, t)
  }

  ghost predicate IsAtom(cfg: Config, command: nat, b: Bytes) {
    && (forall i :: 0 <= i < |b| ==> IsAtomByte(cfg, command, b[i]))
    && (b != [] ==> b[0] != DQUOTE && b[0] != OPEN_BRACE)
    && !(|b| >= 2 && b[0] == TILDE && b[1] == OPEN_BRACE)
  }

  function TokenOf(item: Item): Token {
    match item
    case Punct(t) => t
    case _ => if item.bytes == [] then Nil else Arg(item.bytes)
  }

  /** What the item adds to the counted size: a quoted empty string adds nothing, a literal empty string one. */
  function SizeOf(item: Item): nat {
    match item
    case Punct(_) => 1
    case Counted(b, _, _, _) => if b == [] then 1 else |b|
    case _ => |item.bytes|
  }

  function TextOf(item: Item): Bytes {
    match item
    case Quoted(_, raw) => [DQUOTE] + raw + [DQUOTE]
    case Counted(b, ds, nonSync, binary) => (if binary then [TILDE] else []) + (Announced(ds, nonSync) + [LF] + b)
    case Atom(b) => b
    case Punct(t) => if MarkByte(t).Some? then [MarkByte(t).value] else []
  }

  /** A synchronising literal makes the receiver ask for its data. */
  function EventsOf(item: Item): seq<Event> {
    if item.Counted? && !item.nonSync then [NeedsLiteral(|item.bytes|)] else []
  }

  // ----- What may follow what -----

  /** Where the next item begins: after white space or a closed argument; right after an atom; or after punctuation that
      follows an atom. */
  datatype Place = Clear | Pending | Unclear

  /** Only an atom needs anything before it to be over, and only a quote or a brace needs to be seen as an opening. */
  predicate CanStand(place: Place, item: Item) {
    match item
    case Quoted(_, _) => place == Clear
    case Counted(_, _, _, binary) => place == Clear || (binary && place == Unclear)
    case Atom(_) => place != Pending
    case Punct(_) => true
  }

  function NextPlace(place: Place, item: Item, spaces: nat): Place {
    if spaces > 0 then Clear
    else
      match item
      case Atom(_) => Pending
      case Punct(_) => if place == Clear then Clear else Unclear
      case _ => Clear
  }

  ghost predicate At(place: Place, r: Receiver) {
    && r.state.Argument?
    && match place
       case Clear => r.state.lastCh == SP && r.buf == []
       case Unclear => r.buf == []
       case Pending => r.buf != []
  }

  ghost predicate Between(r: Receiver) { At(Clear, r) }

  /** The receiver with a pending argument pushed. */
  function Flush(r: Receiver): Receiver {
    if r.buf == [] then r else AddToken(r.(size := r.size + |r.buf|, buf := []), Arg(r.buf))
  }

  function AfterItem(r: Receiver, item: Item): Receiver {
    match item
    case Punct(t) => AddToken(Flush(r).(size := Flush(r).size + 1), t)
    case Atom(b) => r.(state := Argument(if b == [] then SP else b[|b| - 1]), buf := b)
    case _ => AddToken(r.(state := Argument(SP), buf := [], size := r.size + SizeOf(item)), TokenOf(item))
  }

  lemma QuotedTaken(cfg: Config, r: Receiver, b: Bytes, raw: Bytes)
    requires Between(r) && |b| <= ARG_MAX_LEN && Unquoted(raw) == Some(b) && r.size + |b| <= cfg.maxSize
    ensures Takes(cfg, r, TextOf(Quoted(b, raw)), AfterItem(r, Quoted(b, raw)), [])
  {
    hide Unquoted, Takes;
    var open := r.(state := ArgumentQuoted(false));
    var full := open.(buf := b);
    var after := AfterItem(r, Quoted(b, raw));
    Quiet(cfg, r, DQUOTE, open);
    QuotedBytes(cfg, open, raw, b);
    assert open.buf + b == b;
    Quiet(cfg, full, DQUOTE, after);
    hide Feed, Step, AfterItem;
    ThenQuiet(cfg, r, [DQUOTE], open, raw, full, []);
    ThenQuiet(cfg, r, [DQUOTE] + raw, full, [DQUOTE], after, []);
  }

  /** The header, from where a literal can begin, with the tilde if there is one. */
  lemma AnnouncedTaken(cfg: Config, r: Receiver, place: Place, item: Item)
    requires item.Counted? && At(place, r) && CanStand(place, item)
    requires IsNumber(item.digits) && ValueOf(item.digits) <= MAX_U32
    requires item.nonSync || r.size + ValueOf(item.digits) <= cfg.maxSize
    ensures Takes(cfg, r, (if item.binary then [TILDE] else []) + Announced(item.digits, item.nonSync),
                  r.(state := LiteralSeek(ValueOf(item.digits), item.nonSync)), [])
  {
    hide ValueOf, Header, Takes, IsNumber, IsSpace;
    var ds, nonSync := item.digits, item.nonSync;
    var seek := r.(state := LiteralSeek(ValueOf(ds), nonSync));
    assert Step(cfg, seek, CR) == Go(seek) by { assert IsSpace(CR) by { SpaceBytes(); } }
    Quiet(cfg, seek, CR, seek);
    var from := if item.binary then r.(state := Argument(TILDE), buf := [TILDE]) else r;
    if item.binary { TildeTaken(cfg, r); } else { SpaceBytes(); NothingTaken(cfg, r); }
    HeaderTaken(cfg, from, ds, nonSync);
    hide Step, Feed;
    ThenQuiet(cfg, from, Header(ds, nonSync), seek, [CR], seek, []);
    ThenQuiet(cfg, r, if item.binary then [TILDE] else [], from, Announced(ds, nonSync), seek, []);
  }

  lemma SpaceBytes()
    ensures IsSpace(CR) && IsSpace(SP)
  {
  }

  lemma TildeTaken(cfg: Config, r: Receiver)
    requires r.state.Argument? && r.buf == []
    ensures Takes(cfg, r, [TILDE], r.(state := Argument(TILDE), buf := [TILDE]), [])
  {
    hide Takes;
    assert [] + [TILDE] == [TILDE];
    Quiet(cfg, r, TILDE, r.(state := Argument(TILDE), buf := [TILDE]));
  }

  lemma CountedTaken(cfg: Config, r: Receiver, place: Place, item: Item)
    requires At(place, r) && CanStand(place, item)
    requires item.Counted? && IsNumber(item.digits) && ValueOf(item.digits) == |item.bytes| <= MAX_U32
    requires r.size + SizeOf(item) <= cfg.maxSize
    ensures Takes(cfg, r, TextOf(item), AfterItem(r, item), EventsOf(item))
  {
    var b, head := item.bytes, (if item.binary then [TILDE] else []) + Announced(item.digits, item.nonSync);
    var seek := r.(state := LiteralSeek(|b|, item.nonSync));
    AnnouncedTaken(cfg, r, place, item);
    BodyTaken(cfg, seek, item);
    hide Feed, Step, Takes, Announced, AfterItem;
    ThenQuiet(cfg, r, head, seek, [LF] + b, AfterItem(r, item), EventsOf(item));
    var tilde: Bytes := if item.binary then [TILDE] else [];
    Assoc(tilde, Announced(item.digits, item.nonSync), [LF] + b);
    Assoc(Announced(item.digits, item.nonSync), [LF], b);
  }

  /** The line feed after the header, and the data. */
  lemma BodyTaken(cfg: Config, seek: Receiver, item: Item)
    requires item.Counted? && seek.state == LiteralSeek(|item.bytes|, item.nonSync) && seek.buf == []
    requires seek.size + SizeOf(item) <= cfg.maxSize
    ensures Takes(cfg, seek, [LF] + item.bytes, AfterItem(seek, item), EventsOf(item))
  {
    var b, after := item.bytes, AfterItem(seek, item);
    OneByte(cfg, seek, LF);
    if b == [] {
      assert Takes(cfg, seek, [LF], after, EventsOf(item));
      assert [LF] + b == [LF];
    } else {
      var data := seek.(state := LiteralData(|b|));
      DataBytes(cfg, data, b);
      assert data.buf + b == b;
      assert Takes(cfg, seek, [LF], data, EventsOf(item));
      assert Takes(cfg, data, b, after, []);
      hide Feed, Step, Takes, AfterItem;
      Then(cfg, seek, [LF], data, EventsOf(item), b, after, []);
      assert EventsOf(item) + [] == EventsOf(item);
    }
  }

  /** The next byte of an atom. */
  lemma AtomByte(cfg: Config, r: Receiver, b: Bytes, k: nat)
    requires k < |b| <= ARG_MAX_LEN && IsAtom(cfg, r.request.command, b) && r.buf == b[..k]
    requires if k == 0 then r.state.Argument? else r.state == Argument(b[k - 1])
    ensures Takes(cfg, r, [b[k]], r.(state := Argument(b[k]), buf := b[..k + 1]), [])
  {
    hide Punctuation, Takes;
    AtomByteIsNoMark(cfg, r.request.command, b[k]);
    if k > 0 { AtomByteIsNoMark(cfg, r.request.command, b[k - 1]); }
    assert b[..k] + [b[k]] == b[..k + 1];
    Quiet(cfg, r, b[k], r.(state := Argument(b[k]), buf := b[..k + 1]));
  }

  lemma {:induction false} AtomBytes(cfg: Config, r: Receiver, b: Bytes, k: nat)
    requires 1 <= k <= |b| <= ARG_MAX_LEN && IsAtom(cfg, r.request.command, b)
    requires r.buf == b[..k] && r.state == Argument(b[k - 1])
    ensures Takes(cfg, r, b[k..], r.(state := Argument(b[|b| - 1]), buf := b), [])
    decreases |b| - k
  {
    hide Feed, Step, Takes, IsAtom;
    if k == |b| {
      NothingTaken(cfg, r);
      assert b[k..] == [] && b[..k] == b;
    } else {
      var pushed := r.(state := Argument(b[k]), buf := b[..k + 1]);
      AtomByte(cfg, r, b, k);
      AtomBytes(cfg, pushed, b, k + 1);
      ThenQuiet(cfg, r, [b[k]], pushed, b[k + 1..], r.(state := Argument(b[|b| - 1]), buf := b), []);
      assert [b[k]] + b[k + 1..] == b[k..];
    }
  }

  /** An atom waits in the buffer for what ends it. */
  lemma AtomTaken(cfg: Config, r: Receiver, b: Bytes)
    requires r.state.Argument? && r.buf == [] && 1 <= |b| <= ARG_MAX_LEN && IsAtom(cfg, r.request.command, b)
    ensures Takes(cfg, r, b, AfterItem(r, Atom(b)), [])
  {
    hide Feed, Step, Takes, IsAtom;
    var first := r.(state := Argument(b[0]), buf := b[..1]);
    AtomByte(cfg, r, b, 0);
    AtomBytes(cfg, first, b, 1);
    ThenQuiet(cfg, r, [b[0]], first, b[1..], AfterItem(r, Atom(b)), []);
    assert [b[0]] + b[1..] == b;
  }

  lemma PunctTaken(cfg: Config, r: Receiver, t: Token)
    requires r.state.Argument? && IsMark(cfg, r.request.command, t) && Flush(r).size + 1 <= cfg.maxSize
    ensures Takes(cfg, r, [MarkByte(t).value], AfterItem(r, Punct(t)), [])
  {
    hide Punctuation, Takes;
    MarkIsPunctuation(cfg, r.request.command, t);
    Quiet(cfg, r, MarkByte(t).value, AfterItem(r, Punct(t)));
  }

  /** Any printed item, wherever it can stand, with the argument before it still pending or not. */
  lemma ItemTaken(cfg: Config, r: Receiver, place: Place, item: Item)
    requires At(place, r) && CanStand(place, item) && ValidItem(cfg, r.request.command, item)
    requires Flush(r).size + SizeOf(item) <= cfg.maxSize
    ensures Takes(cfg, r, TextOf(item), AfterItem(r, item), EventsOf(item))
    ensures At(NextPlace(place, item, 0), AfterItem(r, item))
    ensures Flush(AfterItem(r, item)).size == Flush(r).size + SizeOf(item)
    ensures Flush(AfterItem(r, item)).request
         == Flush(r).request.(tokens := Flush(r).request.tokens + [TokenOf(item)])
  {
    hide Takes, Announced, Unquoted;
    match item {
      case Quoted(b, raw) => QuotedTaken(cfg, r, b, raw);
      case Counted(_, _, _, _) => CountedTaken(cfg, r, place, item);
      case Atom(b) => AtomTaken(cfg, r, b);
      case Punct(t) => PunctTaken(cfg, r, t);
    }
  }

  function Spaces(n: nat): Bytes { if n == 0 then [] else [SP] + Spaces(n - 1) }

  /** Spaces push what is pending. */
  lemma {:induction false} SpacesTaken(cfg: Config, r: Receiver, n: nat)
    requires r.state.Argument? && Flush(r).size <= cfg.maxSize && n > 0
    ensures Takes(cfg, r, Spaces(n), Flush(r).(state := Argument(SP)), [])
    decreases n
  {
    var after := Flush(r).(state := Argument(SP));
    Quiet(cfg, r, SP, after);
    hide Feed, Step, Takes;
    assert [SP] + [] == [SP];
    if n > 1 {
      SpacesTaken(cfg, after, n - 1);
      ThenQuiet(cfg, r, [SP], after, Spaces(n - 1), after, []);
    }
  }

  ghost predicate IsEndOfLine(eol: Bytes) { eol == [LF] || eol == [CR, LF] }

  lemma EndTaken(cfg: Config, r: Receiver, eol: Bytes)
    requires r.state.Argument? && Flush(r).size <= cfg.maxSize && IsEndOfLine(eol)
    ensures Takes(cfg, r, eol, Fresh(cfg), [Done(Flush(r).request)])
  {
    if eol == [LF] {
      OneByte(cfg, r, LF);
    } else {
      var cr := Flush(r).(state := Argument(CR));
      Quiet(cfg, r, CR, cr);
      OneByte(cfg, cr, LF);
      assert Takes(cfg, cr, [LF], Fresh(cfg), [Done(cr.request)]);
      hide Feed, Step, Takes, Fresh;
      ThenQuiet(cfg, r, [CR], cr, [LF], Fresh(cfg), [Done(cr.request)]);
      assert [CR] + [LF] == [CR, LF];
    }
  }

  // ----- Whole requests -----

  /** The items with `gaps[i]` spaces after the i-th. */
  function Texts(items: seq<Item>, gaps: seq<nat>): Bytes
    requires |items| == |gaps|
  {
    if items == [] then [] else TextOf(items[0]) + Spaces(gaps[0]) + Texts(items[1..], gaps[1..])
  }

  /** There is a space wherever one is needed. */
  predicate SpacedOut(place: Place, items: seq<Item>, gaps: seq<nat>)
    requires |items| == |gaps|
    decreases |items|
  {
    items == [] ||
    (CanStand(place, items[0]) && SpacedOut(NextPlace(place, items[0], gaps[0]), items[1..], gaps[1..]))
  }

  function AllEvents(items: seq<Item>): seq<Event> {
    if items == [] then [] else EventsOf(items[0]) + AllEvents(items[1..])
  }

  function TotalSize(items: seq<Item>): nat {
    if items == [] then 0 else SizeOf(items[0]) + TotalSize(items[1..])
  }

  function Tokens(items: seq<Item>): seq<Token> {
    if items == [] then [] else [TokenOf(items[0])] + Tokens(items[1..])
  }

  ghost predicate ValidItems(cfg: Config, command: nat, items: seq<Item>) {
    forall i :: 0 <= i < |items| ==> ValidItem(cfg, command, items[i])
  }

  /** The request that is read when `items` and the end of the line follow. */
  function With(r: Receiver, items: seq<Item>): Request {
    Flush(r).request.(tokens := Flush(r).request.tokens + Tokens(items))
  }

  /** One item with the spaces after it. */
  lemma ItemAndGap(cfg: Config, r: Receiver, place: Place, item: Item, gap: nat) returns (after: Receiver)
    requires At(place, r) && CanStand(place, item) && ValidItem(cfg, r.request.command, item)
    requires Flush(r).size + SizeOf(item) <= cfg.maxSize
    ensures Takes(cfg, r, TextOf(item) + Spaces(gap), after, EventsOf(item)) && At(NextPlace(place, item, gap), after)
    ensures Flush(after).size == Flush(r).size + SizeOf(item)
    ensures Flush(after).request == Flush(r).request.(tokens := Flush(r).request.tokens + [TokenOf(item)])
  {
    hide Feed, Step, Takes, TextOf, AfterItem, ValidItem, CanStand;
    ItemTaken(cfg, r, place, item);
    after := AfterItem(r, item);
    if gap == 0 {
      assert TextOf(item) + Spaces(0) == TextOf(item);
    } else {
      var spaced := Flush(after).(state := Argument(SP));
      SpacesTaken(cfg, after, gap);
      Then(cfg, r, TextOf(item), after, EventsOf(item), Spaces(gap), spaced, []);
      assert EventsOf(item) + [] == EventsOf(item);
      after := spaced;
    }
  }

  lemma {:induction false} LineTaken(cfg: Config, r: Receiver, place: Place, items: seq<Item>, gaps: seq<nat>, eol: Bytes)
    requires |items| == |gaps| && At(place, r) && SpacedOut(place, items, gaps) && IsEndOfLine(eol)
    requires ValidItems(cfg, r.request.command, items) && Flush(r).size + TotalSize(items) <= cfg.maxSize
    ensures Takes(cfg, r, Texts(items, gaps) + eol, Fresh(cfg), AllEvents(items) + [Done(With(r, items))])
    decreases |items|
  {
    hide Step, Feed, Takes, TextOf, EventsOf, TokenOf, SizeOf, ValidItem, Fresh, CanStand, NextPlace, Flush, At, IsEndOfLine;
    if items == [] {
      AtArgument(place, r);
      EndTaken(cfg, r, eol);
      assert [] + eol == eol && Flush(r).request.tokens + [] == Flush(r).request.tokens;
      assert [] + [Done(With(r, items))] == [Done(With(r, items))];
    } else {
      var item, rest, others := items[0], items[1..], gaps[1..];
      var text, events := TextOf(item) + Spaces(gaps[0]), AllEvents(rest) + [Done(With(r, items))];
      SameCommand(r);
      var after := ItemAndGap(cfg, r, place, item, gaps[0]);
      SameCommand(after);
      LineTaken(cfg, after, NextPlace(place, item, gaps[0]), rest, others, eol);
      Assoc(Flush(r).request.tokens, [TokenOf(item)], Tokens(rest));
      assert With(after, rest) == With(r, items);
      Then(cfg, r, text, after, EventsOf(item), Texts(rest, others) + eol, Fresh(cfg), events);
      Assoc(text, Texts(rest, others), eol);
      Assoc(EventsOf(item), AllEvents(rest), [Done(With(r, items))]);
    }
  }

  lemma AtArgument(place: Place, r: Receiver)
    requires At(place, r)
    ensures r.state.Argument?
  {
  }

  lemma SameCommand(r: Receiver)
    ensures Flush(r).request.command == r.request.command
  {
  }

  function Uppers(name: Bytes): Bytes {
    if name == [] then [] else [Upper(name[0])] + Uppers(name[1..])
  }

  /** Letters and digits of either case. */
  ghost predicate IsName(name: Bytes) {
    1 <= |name| <= 15 &&
    forall i :: 0 <= i < |name| ==> 48 <= name[i] <= 57 || 65 <= name[i] <= 90 || 97 <= name[i] <= 122
  }

  lemma {:induction false} NameBytes(cfg: Config, r: Receiver, name: Bytes)
    requires r.state.Command? && |r.buf| + |name| <= 15 && forall i :: 0 <= i < |name| ==> IsAlphanumeric(name[i])
    ensures Takes(cfg, r, name, r.(buf := r.buf + Uppers(name)), [])
    decreases |name|
  {
    if name == [] {
      assert r.buf + Uppers(name) == r.buf;
    } else {
      var pushed := r.(buf := r.buf + [Upper(name[0])]);
      Assoc(r.buf, [Upper(name[0])], Uppers(name[1..]));
      Quiet(cfg, r, name[0], pushed);
      NameBytes(cfg, pushed, name[1..]);
      hide Feed, Step, Takes;
      ThenQuiet(cfg, r, [name[0]], pushed, name[1..], r.(buf := r.buf + Uppers(name)), []);
      assert [name[0]] + name[1..] == name;
    }
  }

  /** The white space byte that ends the name is dropped, whichever it is. */
  lemma NameTaken(cfg: Config, r: Receiver, name: Bytes, command: nat, space: Byte)
    requires r.state.Command? && r.buf == [] && IsName(name) && Uppers(name) != UID && IsSpace(space) && space != LF
    requires cfg.parse(Uppers(name), r.state.isUid) == Some(command)
    ensures Takes(cfg, r, name + [space], r.(state := Argument(SP), request := r.request.(command := command)), [])
  {
    var full := r.(buf := Uppers(name));
    var after := r.(state := Argument(SP), request := r.request.(command := command));
    NameBytes(cfg, r, name);
    assert r.buf + Uppers(name) == Uppers(name);
    assert Uppers(name) != [];
    Quiet(cfg, full, space, after);
    hide Feed, Step, Takes, Uppers;
    ThenQuiet(cfg, r, name, full, [space], after, []);
  }

  /** A name directly before the line feed is a whole request. */
  lemma BareNameTaken(cfg: Config, r: Receiver, name: Bytes, command: nat)
    requires r.state.Command? && r.buf == [] && IsName(name) && Uppers(name) != UID
    requires cfg.parse(Uppers(name), r.state.isUid) == Some(command)
    ensures Takes(cfg, r, name + [LF], Fresh(cfg), [Done(r.request.(command := command))])
  {
    var full := r.(buf := Uppers(name));
    NameBytes(cfg, r, name);
    assert r.buf + Uppers(name) == Uppers(name);
    assert Uppers(name) != [];
    OneByte(cfg, full, LF);
    hide Feed, Step, Takes, Uppers, Fresh;
    ThenQuiet(cfg, r, name, full, [LF], Fresh(cfg), [Done(r.request.(command := command))]);
  }

  lemma UidIsUpper()
    ensures Uppers(UID) == UID
  {
    assert UID[1..] == [73, 68] && UID[1..][1..] == [68] && UID[1..][1..][1..] == [];
  }

  lemma UidTaken(cfg: Config, r: Receiver)
    requires r.state == Command(false) && r.buf == []
    ensures Takes(cfg, r, UID + [SP], r.(state := Command(true)), [])
  {
    var full := r.(buf := UID);
    UidIsUpper();
    UidSpace(cfg, full);
    NameBytes(cfg, r, UID);
    hide Feed, Step, Takes, Uppers;
    assert r.buf + UID == UID;
    ThenQuiet(cfg, r, UID, full, [SP], r.(state := Command(true)), []);
  }

  lemma UidSpace(cfg: Config, full: Receiver)
    requires full.state == Command(false) && full.buf == UID
    ensures Takes(cfg, full, [SP], full.(state := Command(true), buf := []), [])
  {
    hide Feed;
    Quiet(cfg, full, SP, full.(state := Command(true), buf := []));
  }

  ghost predicate IsTag(tag: Bytes) {
    && 1 <= |tag| <= 128 && IsUtf8(tag) && !IsSpace(tag[0])
    && forall i :: 0 <= i < |tag| ==> tag[i] != SP && tag[i] != TAB && tag[i] != CR && tag[i] != LF
  }

  lemma {:induction false} TagBytes(cfg: Config, r: Receiver, tag: Bytes, k: nat)
    requires 1 <= k <= |tag| && IsTag(tag) && r.state == Tag && r.buf == tag[..k]
    ensures Takes(cfg, r, tag[k..], r.(buf := tag), [])
    decreases |tag| - k
  {
    hide IsUtf8;
    if k == |tag| {
      assert tag[k..] == [] && tag[..k] == tag;
    } else {
      var pushed := r.(buf := tag[..k + 1]);
      assert tag[..k] + [tag[k]] == tag[..k + 1];
      Quiet(cfg, r, tag[k], pushed);
      TagBytes(cfg, pushed, tag, k + 1);
      hide Feed, Step, Takes;
      ThenQuiet(cfg, r, [tag[k]], pushed, tag[k + 1..], r.(buf := tag), []);
      assert [tag[k]] + tag[k + 1..] == tag[k..];
    }
  }

  lemma TagTaken(cfg: Config, tag: Bytes)
    requires cfg.start == Start && IsTag(tag)
    ensures Takes(cfg, Fresh(cfg), tag + [SP], Receiver(Command(false), [], Request(tag, cfg.noCommand, []), 0), [])
  {
    hide IsUtf8;
    var r := Fresh(cfg);
    var first, full := r.(state := Tag, buf := tag[..1]), r.(state := Tag, buf := tag);
    var after := Receiver(Command(false), [], Request(tag, cfg.noCommand, []), 0);
    assert [] + [tag[0]] == tag[..1];
    Quiet(cfg, r, tag[0], first);
    TagBytes(cfg, first, tag, 1);
    Quiet(cfg, full, SP, after);
    hide Feed, Step, Takes, IsTag;
    ThenQuiet(cfg, r, [tag[0]], first, tag[1..], full, []);
    assert [tag[0]] + tag[1..] == tag;
    ThenQuiet(cfg, r, tag, full, [SP], after, []);
  }

  function Preamble(cfg: Config, tag: Bytes, uid: bool): Bytes {
    (if cfg.start == Start then tag + [SP] else []) + (if uid then UID + [SP] else [])
  }

  lemma PreambleTaken(cfg: Config, tag: Bytes, uid: bool)
    requires ValidConfig(cfg) && if cfg.start == Start then IsTag(tag) else tag == []
    ensures Takes(cfg, Fresh(cfg), Preamble(cfg, tag, uid), Receiver(Command(uid), [], Request(tag, cfg.noCommand, []), 0), [])
  {
    var named := Receiver(Command(false), [], Request(tag, cfg.noCommand, []), 0);
    var first, second := if cfg.start == Start then tag + [SP] else [], if uid then UID + [SP] else [];
    var after := named.(state := Command(uid));
    if cfg.start == Start { TagTaken(cfg, tag); }
    if uid { UidTaken(cfg, named); }
    assert Takes(cfg, Fresh(cfg), first, named, []);
    assert Takes(cfg, named, second, after, []);
    hide Feed, Step, Takes, Fresh;
    ThenQuiet(cfg, Fresh(cfg), first, named, second, after, []);
  }

  /** A request as a client writes it, with spaces only where it likes; it must only put them where two items need one.
      ManageSieve, which starts at the command, has no tag. */
  function Printed(cfg: Config, tag: Bytes, uid: bool, name: Bytes, space: Byte, items: seq<Item>, gaps: seq<nat>, eol: Bytes)
    : Bytes
    requires |items| == |gaps|
  {
    Preamble(cfg, tag, uid) + (name + [space]) + (Texts(items, gaps) + eol)
  }

  /** Every request printed within the limits is read back exactly, after the continuation requests of its synchronising
      literals, and leaves the receiver as fresh as it was. */
  lemma RequestRoundTrip(
    cfg: Config, tag: Bytes, uid: bool, name: Bytes, command: nat, space: Byte,
    items: seq<Item>, gaps: seq<nat>, eol: Bytes)
    requires ValidConfig(cfg) && if cfg.start == Start then IsTag(tag) else tag == []
    requires IsName(name) && Uppers(name) != UID && cfg.parse(Uppers(name), uid) == Some(command)
    requires space == 32 || space == 9 || space == 12 || space == 13
    requires |items| == |gaps| && SpacedOut(Clear, items, gaps) && IsEndOfLine(eol)
    requires ValidItems(cfg, command, items) && TotalSize(items) <= cfg.maxSize
    ensures Feed(cfg, Fresh(cfg), Printed(cfg, tag, uid, name, space, items, gaps, eol))
         == Fed(Fresh(cfg), AllEvents(items) + [Done(Request(tag, command, Tokens(items)))])
  {
    hide IsUtf8, Feed, Step, Fresh, Texts, Tokens, AllEvents, ValidItem, TotalSize, Uppers, SpacedOut, IsEndOfLine;
    var r1 := Receiver(Command(uid), [], Request(tag, cfg.noCommand, []), 0);
    var r2 := Receiver(Argument(SP), [], Request(tag, command, []), 0);
    var events := AllEvents(items) + [Done(Request(tag, command, Tokens(items)))];
    PreambleTaken(cfg, tag, uid);
    NameTaken(cfg, r1, name, command, space);
    LineTaken(cfg, r2, Clear, items, gaps, eol);
    assert [] + Tokens(items) == Tokens(items);
    var start := Preamble(cfg, tag, uid);
    ThenQuiet(cfg, Fresh(cfg), start, r1, name + [space], r2, []);
    ThenQuiet(cfg, Fresh(cfg), start + (name + [space]), r2, Texts(items, gaps) + eol, Fresh(cfg), events);
  }

  /** And so is a command alone on its line. */
  lemma BareRequestRoundTrip(cfg: Config, tag: Bytes, uid: bool, name: Bytes, command: nat)
    requires ValidConfig(cfg) && if cfg.start == Start then IsTag(tag) else tag == []
    requires IsName(name) && Uppers(name) != UID && cfg.parse(Uppers(name), uid) == Some(command)
    ensures Feed(cfg, Fresh(cfg), Preamble(cfg, tag, uid) + (name + [LF]))
         == Fed(Fresh(cfg), [Done(Request(tag, command, []))])
  {
    hide IsUtf8, Feed, Step, Fresh, Uppers;
    var r1 := Receiver(Command(uid), [], Request(tag, cfg.noCommand, []), 0);
    PreambleTaken(cfg, tag, uid);
    BareNameTaken(cfg, r1, name, command);
    ThenQuiet(cfg, Fresh(cfg), Preamble(cfg, tag, uid), r1, name + [LF], Fresh(cfg), [Done(Request(tag, command, []))]);
  }

  // ----- NIL is free -----

  /** `n` quoted empty strings, one after the other. */
  function EmptyStrings(n: nat): Bytes { if n == 0 then [] else [DQUOTE, DQUOTE] + EmptyStrings(n - 1) }

  function Nils(n: nat): seq<Token> { if n == 0 then [] else [Nil] + Nils(n - 1) }

  /** However small the limit, any number of quoted empty strings adds as many NIL tokens and no size: the limit does not
      bound the number of tokens. */
  lemma {:induction false} NilIsFree(cfg: Config, r: Receiver, n: nat)
    requires Between(r) && r.size <= cfg.maxSize
    ensures Feed(cfg, r, EmptyStrings(n))
         == Fed(r.(request := r.request.(tokens := r.request.tokens + Nils(n))), [])
    decreases n
  {
    if n == 0 {
      assert r.request.tokens + Nils(0) == r.request.tokens;
    } else {
      var one := AddToken(r, Nil);
      QuotedTaken(cfg, r, [], []);
      assert [DQUOTE] + [] + [DQUOTE] == [DQUOTE, DQUOTE];
      NilIsFree(cfg, one, n - 1);
      Assoc(r.request.tokens, [Nil], Nils(n - 1));
      hide Feed, Step;
      ThenQuiet(cfg, r, [DQUOTE, DQUOTE], one, EmptyStrings(n - 1),
                r.(request := r.request.(tokens := r.request.tokens + Nils(n))), []);
    }
  }

  // ----- Every length can be announced -----

  function Decimal(n: nat): Bytes {
    if n < 10 then [48 + n] else Decimal(n / 10) + [48 + n % 10]
  }

  function Pow10(k: nat): nat { if k == 0 then 1 else 10 * Pow10(k - 1) }

  lemma {:induction false} DecimalIsNumber(n: nat, k: nat)
    requires 1 <= k && n < Pow10(k)
    ensures 1 <= |Decimal(n)| <= k && ValueOf(Decimal(n)) == n
    ensures forall i :: 0 <= i < |Decimal(n)| ==> IsDigit(Decimal(n)[i])
    decreases n
  {
    if n < 10 {
    } else {
      var init := Decimal(n / 10);
      assert k > 1 by { assert Pow10(1) == 10; }
      DecimalIsNumber(n / 10, k - 1);
      assert (init + [48 + n % 10])[..|init|] == init;
    }
  }

  lemma LengthsCanBeAnnounced(n: nat)
    requires n <= MAX_U32
    ensures IsNumber(Decimal(n)) && ValueOf(Decimal(n)) == n
  {
    assert Pow10(5) == 100_000;
    assert Pow10(10) == 10_000_000_000;
    DecimalIsNumber(n, 10);
  }
}

/**
  The receiver as an object: the fields that `parse` updates in place.
  */
module ImapReceiver {
  import opened Prelude
  import opened Imap

  /** The first event of a byte string, and how many bytes it takes. */
  datatype Parsed = Parsed(receiver: Receiver, event: Option<Event>, used: nat)

  function ParseFrom(cfg: Config, r: Receiver, bytes: Bytes): Parsed
    decreases |bytes|
  {
    if bytes == [] then Parsed(r, None, 0)
    else
      var o := Step(cfg, r, bytes[0]);
      if o.event.Some? then Parsed(o.receiver, o.event, 1)
      else
        var p := ParseFrom(cfg, o.receiver, bytes[1..]);
        p.(used := p.used + 1)
  }

  /** Calling `parse` again on what it left over yields the events of `Feed`. */
  lemma {:induction false} FeedIsRepeatedParse(cfg: Config, r: Receiver, bytes: Bytes)
    ensures var p := ParseFrom(cfg, r, bytes);
            && p.used <= |bytes|
            && (p.event == None ==> p.used == |bytes| && Feed(cfg, r, bytes) == Fed(p.receiver, []))
            && (p.event.Some? ==>
                  var rest := Feed(cfg, p.receiver, bytes[p.used..]);
                  p.used > 0 && Feed(cfg, r, bytes) == Fed(rest.receiver, [p.event.value] + rest.events))
    decreases |bytes|
  {
    hide Step;
    if bytes == [] {
    } else {
      var o := Step(cfg, r, bytes[0]);
      if o.event == None {
        FeedIsRepeatedParse(cfg, o.receiver, bytes[1..]);
        var p := ParseFrom(cfg, o.receiver, bytes[1..]);
        assert bytes[1..][p.used..] == bytes[p.used + 1..];
        assert [] + Feed(cfg, o.receiver, bytes[1..]).events == Feed(cfg, o.receiver, bytes[1..]).events;
      }
    }
  }

  class RequestReceiver {
    const cfg: Config
    var buf: Bytes
    var request: Request
    var state: State
    var currentRequestSize: nat

    function Model(): Receiver
      reads this
    {
      Receiver(state, buf, request, currentRequestSize)
    }

    constructor (cfg: Config)
      ensures this.cfg == cfg && Model() == Fresh(cfg)
    {
      this.cfg := cfg;
      buf := [];
      request := Request([], cfg.noCommand, []);
      state := cfg.start;
      currentRequestSize := 0;
    }

    /** Reads bytes until a request is complete, an error is found, or a literal is needed; `None` asks for more. */
    method Parse(bytes: Bytes, from: nat) returns (event: Option<Event>, next: nat)
      requires from <= |bytes|
      modifies this
      ensures var p := ParseFrom(cfg, old(Model()), bytes[from..]);
              event == p.event && next == from + p.used && Model() == p.receiver
    {
      hide Step;
      next := from;
      event := None;
      while next < |bytes|
        invariant from <= next <= |bytes| && event == None
        invariant var p := ParseFrom(cfg, Model(), bytes[next..]);
                  ParseFrom(cfg, old(Model()), bytes[from..]) == p.(used := p.used + (next - from))
      {
        assert bytes[next..][0] == bytes[next] && bytes[next..][1..] == bytes[next + 1..];
        event := OnByte(bytes[next]);
        next := next + 1;
        if event.Some? {
          return;
        }
      }
      assert bytes[next..] == [];
    }

    method OnByte(c: Byte) returns (event: Option<Event>)
      modifies this
      ensures Outcome(Model(), event) == Step(cfg, old(Model()), c)
    {
      hide StepTag, StepCommand, StepArgument, StepQuoted, StepLiteral, StepSeek;
      event := None;
      match state {
        case Start =>
          if !IsSpace(c) {
            buf := buf + [c];
            state := Tag;
          }
        case Tag => event := OnTag(c);
        case Command(isUid) => event := OnCommand(c, isUid);
        case Argument(lastCh) => event := OnArgument(c, lastCh);
        case ArgumentQuoted(escaped) => event := OnQuoted(c, escaped);
        case Literal(nonSync) => event := OnLiteral(c, nonSync);
        case LiteralSeek(n, nonSync) => event := OnSeek(c, n, nonSync);
        case LiteralDiscard(remaining) =>
          if remaining > 1 {
            state := LiteralDiscard(remaining - 1);
          } else {
            event := Reset();
          }
        case LiteralData(remaining) =>
          buf := buf + [c];
          if remaining > 1 {
            state := LiteralData(remaining - 1);
          } else {
            event := PushArg(false);
            if event == None {
              state := Argument(SP);
            }
          }
      }
    }

    method Reset() returns (event: Option<Event>)
      modifies this
      ensures Outcome(Model(), event) == ErrorReset(cfg, old(Model()))
    {
      event := Some(Bad(request.tag));
      request := Request([], cfg.noCommand, []);
      buf := [];
      state := cfg.start;
      currentRequestSize := 0;
    }

    method PushArg(inQuote: bool) returns (event: Option<Event>)
      modifies this
      ensures var p := PushArgument(cfg, old(Model()), inQuote);
              Outcome(Model(), event) == if p.Some? then Go(p.value) else ErrorReset(cfg, old(Model()))
    {
      event := None;
      if buf != [] {
        currentRequestSize := currentRequestSize + |buf|;
        if currentRequestSize > cfg.maxSize {
          event := Reset();
          return;
        }
        request := request.(tokens := request.tokens + [Arg(buf)]);
        buf := [];
      } else if inQuote {
        request := request.(tokens := request.tokens + [Nil]);
      }
    }

    method PushTok(t: Token) returns (event: Option<Event>)
      modifies this
      ensures var p := PushToken(cfg, old(Model()), t);
              Outcome(Model(), event) == if p.Some? then Go(p.value) else ErrorReset(cfg, old(Model()))
    {
      event := None;
      currentRequestSize := currentRequestSize + 1;
      if currentRequestSize > cfg.maxSize {
        event := Reset();
        return;
      }
      request := request.(tokens := request.tokens + [t]);
    }

    method PushChecked(c: Byte, limit: nat, after: State) returns (event: Option<Event>)
      modifies this
      ensures Outcome(Model(), event) == PushByte(cfg, old(Model()), c, limit, after)
    {
      event := None;
      if |buf| < limit {
        buf := buf + [c];
        state := after;
      } else {
        event := Reset();
      }
    }

    /** `mem::take` of a finished request. */
    method Finish() returns (event: Option<Event>)
      requires buf == []
      modifies this
      ensures Outcome(Model(), event) == Outcome(Fresh(cfg), Some(Done(old(request))))
    {
      event := Some(Done(request));
      state := cfg.start;
      currentRequestSize := 0;
      request := Request([], cfg.noCommand, []);
    }

    method OnTag(c: Byte) returns (event: Option<Event>)
      modifies this
      ensures Outcome(Model(), event) == StepTag(cfg, old(Model()), c)
    {
      hide IsUtf8;
      event := None;
      if c == SP {
        if buf != [] {
          if !IsUtf8(buf) {
            event := Reset();
          } else {
            request := request.(tag := buf);
            buf := [];
            state := Command(false);
          }
        }
      } else if c == TAB || c == CR {
      } else if c == LF {
        event := Reset();
      } else {
        event := PushChecked(c, 128, Tag);
      }
    }

    method OnCommand(c: Byte, isUid: bool) returns (event: Option<Event>)
      modifies this
      ensures Outcome(Model(), event) == StepCommand(cfg, old(Model()), c, isUid)
    {
      event := None;
      if IsAlphanumeric(c) {
        event := PushChecked(Upper(c), 15, state);
      } else if !IsSpace(c) {
        event := Reset();
      } else if buf == UID {
        buf := [];
        state := Command(true);
      } else if buf != [] {
        var command := cfg.parse(buf, isUid);
        if command == None {
          event := Reset();
          return;
        }
        request := request.(command := command.value);
        buf := [];
        if c != LF {
          state := Argument(SP);
        } else {
          event := Finish();
        }
      }
    }

    method OnArgument(c: Byte, lastCh: Byte) returns (event: Option<Event>)
      modifies this
      ensures Outcome(Model(), event) == StepArgument(cfg, old(Model()), c, lastCh)
    {
      var mark := Punctuation(cfg, request.command, c);
      hide Punctuation;
      if c == DQUOTE && IsSpace(lastCh) {
        event := PushArg(false);
        if event == None { state := ArgumentQuoted(false); }
      } else if c == OPEN_BRACE && (IsSpace(lastCh) || (lastCh == TILDE && |buf| == 1)) {
        event := None;
        if lastCh != TILDE {
          event := PushArg(false);
        } else {
          buf := [];
        }
        if event == None { state := Literal(false); }
      } else if mark.Some? {
        event := PushArg(false);
        if event == None { event := PushTok(mark.value); }
      } else if c == LF {
        event := PushArg(false);
        if event == None { event := Finish(); }
      } else if IsSpace(c) {
        event := PushArg(false);
        if event == None { state := Argument(c); }
      } else {
        event := PushChecked(c, ARG_MAX_LEN, Argument(c));
      }
    }

    method OnQuoted(c: Byte, escaped: bool) returns (event: Option<Event>)
      modifies this
      ensures Outcome(Model(), event) == StepQuoted(cfg, old(Model()), c, escaped)
    {
      event := None;
      if c == DQUOTE {
        if !escaped {
          event := PushArg(true);
          if event == None { state := Argument(SP); }
        } else {
          event := PushChecked(c, ARG_MAX_LEN, ArgumentQuoted(false));
        }
      } else if c == BACKSLASH {
        if escaped {
          event := PushChecked(c, ARG_MAX_LEN, ArgumentQuoted(false));
        } else {
          state := ArgumentQuoted(true);
        }
      } else if c == LF {
        event := Reset();
      } else {
        if escaped {
          buf := buf + [BACKSLASH];
        }
        event := PushChecked(c, ARG_MAX_LEN, ArgumentQuoted(false));
      }
    }

    method OnLiteral(c: Byte, nonSync: bool) returns (event: Option<Event>)
      modifies this
      ensures Outcome(Model(), event) == StepLiteral(cfg, old(Model()), c, nonSync)
    {
      hide ValueOf;
      event := None;
      if c == CLOSE_BRACE {
        var n := ValueOf(buf);
        if buf == [] || n > MAX_U32 || (currentRequestSize + n > cfg.maxSize && !nonSync) {
          event := Reset();
        } else {
          state := LiteralSeek(n, nonSync);
          buf := [];
        }
      } else if c == PLUS && buf != [] {
        state := Literal(true);
      } else if IsDigit(c) && !nonSync {
        event := PushChecked(c, 15, state);
      } else {
        event := Reset();
      }
    }

    method OnSeek(c: Byte, n: nat, nonSync: bool) returns (event: Option<Event>)
      modifies this
      ensures Outcome(Model(), event) == StepSeek(cfg, old(Model()), c, n, nonSync)
    {
      event := None;
      if c == LF {
        if nonSync && currentRequestSize + n > cfg.maxSize {
          state := LiteralDiscard(n);
        } else if n > 0 {
          state := LiteralData(n);
          if !nonSync { event := Some(NeedsLiteral(n)); }
        } else {
          state := Argument(SP);
          event := PushTok(Nil);
          if event == None && !nonSync { event := Some(NeedsLiteral(n)); }
        }
      } else if !IsSpace(c) {
        event := Reset();
      }
    }
  }
}
