/**
  The event-stream client: bearos-webui/src/services/sse.ts. The state that the closures of `openEventStream` share, the
  callbacks that change it, and a log of what they do to the outside: sources made and closed, messages delivered, and
  statuses reported.
  */
module StreamStatus {

  datatype StreamError = TokenError | Rejected | Disconnected | TimedOut

  datatype Status =
    | Idle
    | Connecting(attempt: nat)
    | Open(attempt: nat)
    | Reconnecting(attempt: nat, delayMs: real)
    | Closed
    | Failed(error: StreamError)

  datatype Action =
    | Connect
    | Opened
    | Stable
    | Error(error: StreamError, retryable: bool)
    | Retry
    | Stop

  datatype RetryPolicy = RetryPolicy(maxAttempts: int, baseDelayMs: real, maxDelayMs: real)

  function Min(a: real, b: real): real { if a <= b then a else b }

  function Pow2(n: nat): real { if n == 0 then 1.0 else 2.0 * Pow2(n - 1) }

  function BackoffDelay(attempt: nat, policy: RetryPolicy): real {
    Min(policy.maxDelayMs, policy.baseDelayMs * Pow2(if attempt == 0 then 0 else attempt - 1))
  }

  predicate IsFinal(status: Status) { status.Closed? || status.Failed? }

  /** `connecting`, `open` or `reconnecting` */
  predicate IsActive(status: Status) { status.Connecting? || status.Open? || status.Reconnecting? }

  function StreamTransition(status: Status, action: Action, policy: RetryPolicy): Status {
    match action
    case Connect => Connecting(0)
    case Opened => if status.Connecting? then Open(status.attempt) else status
    case Stable => if status.Open? && status.attempt > 0 then Open(0) else status
    case Retry => if status.Reconnecting? then Connecting(status.attempt) else status
    case Stop => if status.Idle? || IsFinal(status) then status else Closed
    case Error(error, retryable) =>
      if !IsActive(status) then status
      else
        var attempt := status.attempt + 1;
        if retryable && attempt <= policy.maxAttempts then Reconnecting(attempt, BackoffDelay(attempt, policy))
        else Failed(error)
  }

  /** Delays never shrink and never pass the maximum, and double until they reach it. */
  lemma BackoffIsBounded(attempt: nat, policy: RetryPolicy)
    requires attempt >= 1 && policy.baseDelayMs >= 0.0
    ensures BackoffDelay(attempt, policy) <= BackoffDelay(attempt + 1, policy) <= policy.maxDelayMs
    ensures BackoffDelay(attempt + 1, policy) < policy.maxDelayMs ==>
              BackoffDelay(attempt + 1, policy) == 2.0 * BackoffDelay(attempt, policy)
  {
    var base, pow := policy.baseDelayMs, Pow2(attempt - 1);
    PowIsPositive(attempt - 1);
    assert base * Pow2(attempt) == 2.0 * (base * pow);
    Product(base, pow);
  }

  lemma Product(a: real, b: real)
    requires a >= 0.0 && b >= 0.0
    ensures a * b >= 0.0
  {
  }

  lemma PowIsPositive(n: nat)
    ensures Pow2(n) >= 1.0
  {
  }
}

module StreamSteps {
  import opened Prelude
  import opened StreamStatus

  datatype Note = Created(id: nat) | SourceClosed(id: nat) | Delivered(id: nat) | Reported(status: Status)

  /** The shared variables, the token fetches under way by their generation, and the log. */
  datatype Stream = Stream(
    status: Status, source: Option<nat>, retryTimer: bool, deadlineTimer: bool, stableTimer: Option<nat>,
    generation: nat, fetches: set<nat>, created: nat, log: seq<Note>)

  /** What can happen to a stream, in any order. Timers and fetches only fire when they are pending; a source may call
      back at any time, even after it was closed. */
  datatype Event =
    | TokenArrives(generation: nat, accepted: bool)
    | TokenFails(generation: nat, retryable: bool)
    | SourceOpens(id: nat)
    | SourceErrors(id: nat)
    | Message(id: nat, parses: bool)
    | RetryFires
    | StableFires
    | DeadlineFires
    | StopCalled

  function Logged(s: Stream, n: Note): Stream { s.(log := s.log + [n]) }

  function CloseSource(s: Stream): Stream {
    var s := s.(stableTimer := None);
    if s.source == None then s else Logged(s.(source := None), SourceClosed(s.source.value))
  }

  /** The part of `connect` before the token arrives. */
  function StartConnect(s: Stream): Stream {
    CloseSource(s.(generation := s.generation + 1, fetches := s.fetches + {s.generation + 1}))
  }

  function Dispatch(p: RetryPolicy, s: Stream, action: Action): Stream {
    var next := StreamTransition(s.status, action, p);
    if next == s.status then s else Logged(Entered(s.(status := next)), Reported(next))
  }

  /** What entering a status does. */
  function Entered(s: Stream): Stream {
    match s.status
    case Reconnecting(_, _) => s.(retryTimer := true)
    case Connecting(_) => StartConnect(s)
    case Failed(_) => CloseSource(s.(generation := s.generation + 1)).(retryTimer := false, deadlineTimer := false)
    case Closed => CloseSource(s.(generation := s.generation + 1)).(retryTimer := false, deadlineTimer := false)
    case _ => s
  }

  function Started(p: RetryPolicy, deadline: bool): Stream {
    Dispatch(p, Stream(Idle, None, false, deadline, None, 0, {}, 0, []), Connect)
  }

  function Step(p: RetryPolicy, s: Stream, event: Event): Stream {
    match event
    case TokenArrives(g, accepted) =>
      if g !in s.fetches then s
      else if g != s.generation then s.(fetches := s.fetches - {g})
      else if accepted then
        Logged(s.(fetches := s.fetches - {g}, source := Some(s.created), created := s.created + 1), Created(s.created))
      else Dispatch(p, s.(fetches := s.fetches - {g}), Error(Rejected, false))
    case TokenFails(g, retryable) =>
      if g !in s.fetches then s
      else if g != s.generation then s.(fetches := s.fetches - {g})
      else Dispatch(p, s.(fetches := s.fetches - {g}), Error(TokenError, retryable))
    case SourceOpens(id) =>
      if s.source != Some(id) then s
      else
        var t := Dispatch(p, s, Opened);
        t.(stableTimer := if t.status.Open? && t.status.attempt > 0 then Some(id) else None)
    case SourceErrors(id) =>
      if s.source != Some(id) then s
      else if s.status == Connecting(0) then Dispatch(p, CloseSource(s), Error(Rejected, false))
      else Dispatch(p, CloseSource(s), Error(Disconnected, true))
    case Message(id, parses) =>
      if s.source != Some(id) || !parses then s
      else if s.status.Open? && s.status.attempt > 0 then
        Logged(Dispatch(p, s.(stableTimer := None), Stable), Delivered(id))
      else Logged(s, Delivered(id))
    case RetryFires => if !s.retryTimer then s else Dispatch(p, s.(retryTimer := false), Retry)
    case StableFires =>
      if s.stableTimer == None then s
      else if s.source != s.stableTimer then s.(stableTimer := None)
      else Dispatch(p, s.(stableTimer := None), Stable)
    case DeadlineFires =>
      if !s.deadlineTimer then s else Dispatch(p, CloseSource(s.(deadlineTimer := false)), Error(TimedOut, false))
    case StopCalled => Dispatch(p, s, Stop)
  }

  function Run(p: RetryPolicy, s: Stream, events: seq<Event>): Stream
    decreases |events|
  {
    if events == [] then s else Run(p, Step(p, s, events[0]), events[1..])
  }
}

module StreamSafety {
  import opened Prelude
  import opened StreamStatus
  import opened StreamSteps

  // ----- Reading a log -----

  function Last<T>(s: seq<T>): T
    requires s != []
  {
    s[|s| - 1]
  }

  function Init<T>(s: seq<T>): seq<T>
    requires s != []
  {
    s[..|s| - 1]
  }

  /** The sources made and not yet closed. */
  function Live(log: seq<Note>): set<nat> {
    if log == [] then {}
    else
      match Last(log)
      case Created(id) => Live(Init(log)) + {id}
      case SourceClosed(id) => Live(Init(log)) - {id}
      case _ => Live(Init(log))
  }

  predicate IsEnd(n: Note) { n.Reported? && IsFinal(n.status) }

  predicate Ended(log: seq<Note>) { log != [] && (IsEnd(Last(log)) || Ended(Init(log))) }

  /** The reconnects since the stream was last stable, or since its start. */
  function Retries(log: seq<Note>): nat {
    if log == [] then 0
    else if IsRetry(Last(log)) then Retries(Init(log)) + 1
    else if IsStable(Last(log)) then 0
    else Retries(Init(log))
  }

  predicate IsRetry(n: Note) { n.Reported? && n.status.Connecting? && n.status.attempt > 0 }

  predicate IsStable(n: Note) { n.Reported? && n.status == Open(0) }

  /** The most reconnects in a row. */
  function Limit(p: RetryPolicy): nat { if p.maxAttempts <= 0 then 0 else p.maxAttempts }

  /** When a note may follow a log. */
  predicate Fits(p: RetryPolicy, log: seq<Note>, n: Note) {
    && !Ended(log)
    && match n
       case Created(id) => Live(log) == {} && Created(id) !in log
       case SourceClosed(id) => Live(log) == {id}
       case Delivered(id) => Live(log) == {id}
       case Reported(status) =>
         && (Live(log) != {} ==> status.Connecting? || status.Open?)
         && (IsRetry(n) ==> Retries(log) < Limit(p))
  }

  predicate GoodLog(p: RetryPolicy, log: seq<Note>) {
    log == [] || (GoodLog(p, Init(log)) && Fits(p, Init(log), Last(log)))
  }

  lemma Appended(p: RetryPolicy, log: seq<Note>, n: Note)
    ensures Init(log + [n]) == log && Last(log + [n]) == n
    ensures Ended(log + [n]) == (Ended(log) || IsEnd(n))
    ensures Retries(log + [n]) == if IsRetry(n) then Retries(log) + 1 else if IsStable(n) then 0 else Retries(log)
    ensures GoodLog(p, log + [n]) == (GoodLog(p, log) && Fits(p, log, n))
    ensures Live(log + [n])
         == if n.Created? then Live(log) + {n.id} else if n.SourceClosed? then Live(log) - {n.id} else Live(log)
    ensures forall id: nat :: Created(id) in log + [n] <==> Created(id) in log || n == Created(id)
  {
  }

  // ----- The invariant -----

  function SourceSet(s: Stream): set<nat> { if s.source.Some? then {s.source.value} else {} }

  ghost predicate LogInv(p: RetryPolicy, s: Stream) {
    && GoodLog(p, s.log)
    && Live(s.log) == SourceSet(s)
    && (forall id: nat :: Created(id) in s.log ==> id < s.created)
    && (Ended(s.log) <==> IsFinal(s.status))
    && (s.status.Connecting? || s.status.Open? ==> Retries(s.log) == s.status.attempt)
    && (s.status.Reconnecting? ==> Retries(s.log) + 1 == s.status.attempt)
  }

  /** Timers, fetches and the source go with the status. */
  predicate StateInv(p: RetryPolicy, s: Stream) {
    && !s.status.Idle?
    && (IsActive(s.status) ==> s.status.attempt <= Limit(p))
    && (s.source.Some? ==> s.status.Connecting? || s.status.Open?)
    && (s.status.Open? ==> s.source.Some?)
    && (s.retryTimer <==> s.status.Reconnecting?)
    && (s.stableTimer.Some? ==> s.stableTimer == s.source && s.status.Open? && s.status.attempt > 0)
    && (s.deadlineTimer ==> !IsFinal(s.status))
    && (forall g :: g in s.fetches ==> g <= s.generation)
    && (s.generation in s.fetches <==> s.status.Connecting? && s.source == None)
  }

  ghost predicate Inv(p: RetryPolicy, s: Stream) { StateInv(p, s) && LogInv(p, s) }

  lemma CloseSourceKeepsLog(p: RetryPolicy, s: Stream)
    requires LogInv(p, s) && !IsFinal(s.status)
    ensures LogInv(p, CloseSource(s)) && CloseSource(s).source == None
  {
    hide Live, Ended, Retries, GoodLog, BackoffDelay;
    if s.source.Some? { Appended(p, s.log, SourceClosed(s.source.value)); }
  }

  /** Entering a status: the log before the report, with the old status' retry count. */
  lemma EnterConnecting(p: RetryPolicy, s: Stream, attempt: nat)
    requires LogInv(p, s) && s.source == None && !IsFinal(s.status)
    requires Retries(s.log) + (if attempt > 0 then 1 else 0) == attempt <= Limit(p)
    ensures LogInv(p, Logged(Entered(s.(status := Connecting(attempt))), Reported(Connecting(attempt))))
  {
    hide Live, Ended, Retries, GoodLog, BackoffDelay;
    Appended(p, s.log, Reported(Connecting(attempt)));
  }

  lemma EnterOpen(p: RetryPolicy, s: Stream, attempt: nat)
    requires LogInv(p, s) && !IsFinal(s.status) && (attempt == 0 || Retries(s.log) == attempt)
    ensures LogInv(p, Logged(Entered(s.(status := Open(attempt))), Reported(Open(attempt))))
  {
    hide Live, Ended, Retries, GoodLog, BackoffDelay;
    Appended(p, s.log, Reported(Open(attempt)));
  }

  lemma EnterReconnecting(p: RetryPolicy, s: Stream, status: Status)
    requires LogInv(p, s) && s.source == None && !IsFinal(s.status)
    requires status.Reconnecting? && Retries(s.log) + 1 == status.attempt
    ensures LogInv(p, Logged(Entered(s.(status := status)), Reported(status)))
  {
    hide Live, Ended, Retries, GoodLog, BackoffDelay;
    Appended(p, s.log, Reported(status));
  }

  lemma EnterFinal(p: RetryPolicy, s: Stream, status: Status)
    requires LogInv(p, s) && !IsFinal(s.status) && IsFinal(status)
    ensures LogInv(p, Logged(Entered(s.(status := status)), Reported(status)))
  {
    hide Live, Ended, Retries, GoodLog, BackoffDelay;
    var closed := CloseSource(s);
    CloseSourceKeepsLog(p, s);
    Appended(p, closed.log, Reported(status));
    assert Entered(s.(status := status)).log == closed.log;
  }

  lemma StartedInv(p: RetryPolicy, deadline: bool)
    ensures Inv(p, Started(p, deadline))
  {
    var s := Stream(Idle, None, false, deadline, None, 0, {}, 0, []);
    EnterConnecting(p, s, 0);
  }

  /** Every way an error is raised: the source is closed first. */
  lemma ErrorKeepsInv(p: RetryPolicy, s: Stream, error: StreamError, retryable: bool)
    requires LogInv(p, s) && s.source == None && IsActive(s.status) && s.stableTimer == None
    requires forall g :: g in s.fetches ==> g <= s.generation
    requires retryable ==> !s.status.Reconnecting? && s.generation !in s.fetches
    ensures Inv(p, Dispatch(p, s, Error(error, retryable)))
  {
    hide Live, Ended, Retries, GoodLog, BackoffDelay;
    var next := StreamTransition(s.status, Error(error, retryable), p);
    if next.Reconnecting? {
      EnterReconnecting(p, s, next);
    } else {
      EnterFinal(p, s, next);
    }
    hide LogInv;
  }

  lemma SourceMadeKeepsInv(p: RetryPolicy, s: Stream)
    requires Inv(p, s) && s.generation in s.fetches
    ensures Inv(p, Step(p, s, TokenArrives(s.generation, true)))
  {
    hide Live, Ended, Retries, GoodLog, BackoffDelay;
    Appended(p, s.log, Created(s.created));
    hide Dispatch;
  }

  lemma TokenErrorKeepsInv(p: RetryPolicy, s: Stream, error: StreamError, retryable: bool)
    requires Inv(p, s) && s.generation in s.fetches
    ensures Inv(p, Dispatch(p, s.(fetches := s.fetches - {s.generation}), Error(error, retryable)))
  {
    hide Live, Ended, Retries, GoodLog, BackoffDelay;
    var t := s.(fetches := s.fetches - {s.generation});
    assert LogInv(p, t);
    hide LogInv, Dispatch;
    ErrorKeepsInv(p, t, error, retryable);
  }

  lemma StaleTokenKeepsInv(p: RetryPolicy, s: Stream, g: nat)
    requires Inv(p, s) && g != s.generation
    ensures Inv(p, s.(fetches := s.fetches - {g}))
  {
    hide Live, Ended, Retries, GoodLog, BackoffDelay;
    assert LogInv(p, s.(fetches := s.fetches - {g}));
    hide LogInv;
  }

  lemma TokenKeepsInv(p: RetryPolicy, s: Stream, event: Event)
    requires Inv(p, s) && (event.TokenArrives? || event.TokenFails?)
    ensures Inv(p, Step(p, s, event))
  {
    hide Inv, Dispatch;
    if event.generation in s.fetches {
      if event.generation != s.generation {
        StaleTokenKeepsInv(p, s, event.generation);
      } else if event.TokenFails? {
        TokenErrorKeepsInv(p, s, TokenError, event.retryable);
      } else if !event.accepted {
        TokenErrorKeepsInv(p, s, Rejected, false);
      } else {
        SourceMadeKeepsInv(p, s);
      }
    }
  }

  lemma OpenKeepsInv(p: RetryPolicy, s: Stream, id: nat)
    requires Inv(p, s)
    ensures Inv(p, Step(p, s, SourceOpens(id)))
  {
    hide Live, Ended, Retries, GoodLog, BackoffDelay;
    if s.source == Some(id) && s.status.Connecting? {
      EnterOpen(p, s, s.status.attempt);
      assert StreamTransition(s.status, Opened, p) == Open(s.status.attempt);
    }
  }

  lemma StableKeepsInv(p: RetryPolicy, s: Stream)
    requires Inv(p, s) && s.status.Open? && s.status.attempt > 0
    ensures Inv(p, Dispatch(p, s.(stableTimer := None), Stable))
  {
    hide Live, Ended, Retries, GoodLog, BackoffDelay;
    EnterOpen(p, s.(stableTimer := None), 0);
    hide LogInv;
  }

  lemma MessageKeepsInv(p: RetryPolicy, s: Stream, id: nat, parses: bool)
    requires Inv(p, s)
    ensures Inv(p, Step(p, s, Message(id, parses)))
  {
    hide Live, Ended, Retries, GoodLog, BackoffDelay;
    var t := s;
    if s.source == Some(id) && parses {
      if s.status.Open? && s.status.attempt > 0 {
        t := Dispatch(p, s.(stableTimer := None), Stable);
        StableKeepsInv(p, s);
        assert t.source == s.source;
      }
      Appended(p, t.log, Delivered(id));
    }
    hide Dispatch;
  }

  lemma ErrorEventKeepsInv(p: RetryPolicy, s: Stream, event: Event)
    requires Inv(p, s) && (event.SourceErrors? || event.DeadlineFires?)
    ensures Inv(p, Step(p, s, event))
  {
    hide Live, Ended, Retries, GoodLog, BackoffDelay;
    if event.SourceErrors? && s.source == Some(event.id) {
      CloseSourceKeepsLog(p, s);
      ErrorKeepsInv(p, CloseSource(s), Rejected, false);
      ErrorKeepsInv(p, CloseSource(s), Disconnected, true);
    } else if event.DeadlineFires? && s.deadlineTimer {
      var t := s.(deadlineTimer := false);
      assert LogInv(p, t);
      CloseSourceKeepsLog(p, t);
      ErrorKeepsInv(p, CloseSource(t), TimedOut, false);
    }
    hide LogInv, Dispatch;
  }

  lemma RetryKeepsInv(p: RetryPolicy, s: Stream)
    requires Inv(p, s) && s.retryTimer
    ensures Inv(p, Dispatch(p, s.(retryTimer := false), Retry))
  {
    hide Live, Ended, Retries, GoodLog, BackoffDelay;
    EnterConnecting(p, s.(retryTimer := false), s.status.attempt);
    hide LogInv;
  }

  lemma StopKeepsInv(p: RetryPolicy, s: Stream)
    requires Inv(p, s)
    ensures Inv(p, Dispatch(p, s, Stop))
  {
    hide Live, Ended, Retries, GoodLog, BackoffDelay;
    if !IsFinal(s.status) { EnterFinal(p, s, Closed); }
    hide LogInv;
  }

  lemma TimerKeepsInv(p: RetryPolicy, s: Stream, event: Event)
    requires Inv(p, s) && (event.RetryFires? || event.StableFires? || event.StopCalled?)
    ensures Inv(p, Step(p, s, event))
  {
    hide Live, Ended, Retries, GoodLog, BackoffDelay;
    hide LogInv, Dispatch;
    if event.RetryFires? && s.retryTimer {
      RetryKeepsInv(p, s);
    } else if event.StableFires? && s.stableTimer.Some? {
      StableKeepsInv(p, s);
    } else if event.StopCalled? {
      StopKeepsInv(p, s);
    }
  }

  lemma StepKeepsInv(p: RetryPolicy, s: Stream, event: Event)
    requires Inv(p, s)
    ensures Inv(p, Step(p, s, event))
  {
    hide Inv, Dispatch;
    match event {
      case TokenArrives(_, _) | TokenFails(_, _) => TokenKeepsInv(p, s, event);
      case SourceOpens(id) => OpenKeepsInv(p, s, id);
      case Message(id, parses) => MessageKeepsInv(p, s, id, parses);
      case SourceErrors(_) | DeadlineFires => ErrorEventKeepsInv(p, s, event);
      case _ => TimerKeepsInv(p, s, event);
    }
  }

  lemma {:induction false} RunKeepsInv(p: RetryPolicy, s: Stream, events: seq<Event>)
    requires Inv(p, s)
    ensures Inv(p, Run(p, s, events))
    decreases |events|
  {
    hide Inv, Step;
    if events != [] {
      StepKeepsInv(p, s, events[0]);
      RunKeepsInv(p, Step(p, s, events[0]), events[1..]);
    }
  }

  // ----- What a good log shows -----

  lemma {:induction false} GoodPrefix(p: RetryPolicy, log: seq<Note>, i: nat)
    requires GoodLog(p, log) && i < |log|
    ensures GoodLog(p, log[..i]) && Fits(p, log[..i], log[i])
    decreases |log|
  {
    if i < |log| - 1 {
      GoodPrefix(p, Init(log), i);
      assert Init(log)[..i] == log[..i];
    }
  }

  lemma {:induction false} LiveIsOne(p: RetryPolicy, log: seq<Note>)
    requires GoodLog(p, log)
    ensures Live(log) == {} || exists id :: Live(log) == {id}
    decreases |log|
  {
    if log != [] {
      LiveIsOne(p, Init(log));
      match Last(log)
      case Created(id) => assert Live(log) == {id};
      case SourceClosed(id) => assert Live(log) == {};
      case _ =>
    }
  }

  lemma LogIsGood(p: RetryPolicy, deadline: bool, events: seq<Event>)
    ensures GoodLog(p, Run(p, Started(p, deadline), events).log)
  {
    hide Run, Started, Live, Ended, Retries, GoodLog;
    StartedInv(p, deadline);
    RunKeepsInv(p, Started(p, deadline), events);
  }

  /** In every run, at every moment: at most one source is live, and only while the stream connects or is open; while it
      connects it has a source or a token under way; while it waits to reconnect its timer runs; and when it is over
      nothing is pending that could still act. */
  lemma StreamIsSafe(p: RetryPolicy, deadline: bool, events: seq<Event>)
    ensures var s := Run(p, Started(p, deadline), events);
            && (Live(s.log) == {} || exists id :: Live(s.log) == {id})
            && (Live(s.log) != {} ==> s.status.Connecting? || s.status.Open?)
            && (s.status.Open? ==> Live(s.log) != {})
            && (s.status.Connecting? ==> (Live(s.log) == {} <==> s.generation in s.fetches))
            && (s.status.Reconnecting? <==> s.retryTimer)
            && (IsFinal(s.status) ==>
                  !s.retryTimer && !s.deadlineTimer && s.stableTimer == None && s.generation !in s.fetches)
  {
    StartedInv(p, deadline);
    RunKeepsInv(p, Started(p, deadline), events);
    var s := Run(p, Started(p, deadline), events);
    LiveIsOne(p, s.log);
    hide Live, GoodLog, Run, Started, Ended, Retries;
  }

  lemma NotLast(log: seq<Note>, i: nat)
    requires i < |log|
    ensures IsEnd(log[i]) ==> Ended(log[..i + 1])
  {
    assert Last(log[..i + 1]) == log[i];
  }

  /** Every message comes from the one live source, every source is new and made when none is live, and nothing at all
      follows the report that the stream closed or failed. */
  lemma NothingAfterTheEnd(p: RetryPolicy, deadline: bool, events: seq<Event>, i: nat)
    requires i < |Run(p, Started(p, deadline), events).log|
    ensures var log := Run(p, Started(p, deadline), events).log;
            && !Ended(log[..i])
            && (log[i].Delivered? ==> Live(log[..i]) == {log[i].id})
            && (log[i].Created? ==> Live(log[..i]) == {} && log[i] !in log[..i])
            && (IsEnd(log[i]) ==> Live(log[..i]) == {} && i == |log| - 1)
  {
    hide Run, Started;
    LogIsGood(p, deadline, events);
    var log := Run(p, Started(p, deadline), events).log;
    GoodPrefix(p, log, i);
    if i < |log| - 1 {
      GoodPrefix(p, log, i + 1);
      NotLast(log, i);
    }
    hide Live, GoodLog, Ended;
  }

  lemma FinalStep(p: RetryPolicy, s: Stream, event: Event)
    requires Inv(p, s) && IsFinal(s.status)
    ensures Step(p, s, event).status == s.status && Step(p, s, event).log == s.log
  {
    hide LogInv, BackoffDelay, Entered;
  }

  /** After the end, events change nothing that can be seen. */
  lemma {:induction false} FinalIsFinal(p: RetryPolicy, s: Stream, events: seq<Event>)
    requires Inv(p, s) && IsFinal(s.status)
    ensures Run(p, s, events).status == s.status && Run(p, s, events).log == s.log
    decreases |events|
  {
    if events != [] {
      hide Inv, Step;
      StepKeepsInv(p, s, events[0]);
      FinalStep(p, s, events[0]);
      FinalIsFinal(p, Step(p, s, events[0]), events[1..]);
    }
  }

  /** No message is lost: what the live source sends and the parser accepts is delivered, and proves the stream stable. */
  lemma LiveMessagesAreDelivered(p: RetryPolicy, deadline: bool, events: seq<Event>, id: nat)
    requires id in Live(Run(p, Started(p, deadline), events).log)
    ensures var s := Run(p, Started(p, deadline), events);
            var after := Step(p, s, Message(id, true));
            && |after.log| > |s.log| && Last(after.log) == Delivered(id)
            && (s.status.Open? ==> after.status == Open(0))
            && Live(after.log) == {id}
  {
    hide Run, Started, Live, Ended, Retries, GoodLog, BackoffDelay;
    StartedInv(p, deadline);
    RunKeepsInv(p, Started(p, deadline), events);
    var s := Run(p, Started(p, deadline), events);
    MessageKeepsInv(p, s, id, true);
  }

  /** Losing the live source: before the stream was ever open that is final; later it is retried while attempts remain. */
  lemma LostSourceIsRetried(p: RetryPolicy, deadline: bool, events: seq<Event>, id: nat)
    requires id in Live(Run(p, Started(p, deadline), events).log)
    ensures var s := Run(p, Started(p, deadline), events);
            var after := Step(p, s, SourceErrors(id));
            && Live(after.log) == {}
            && (after.status.Reconnecting? <==> s.status != Connecting(0) && Retries(s.log) < Limit(p))
            && (!after.status.Reconnecting? ==> after.status.Failed?)
  {
    hide Run, Started, Live, Ended, Retries, GoodLog, BackoffDelay;
    StartedInv(p, deadline);
    RunKeepsInv(p, Started(p, deadline), events);
    var s := Run(p, Started(p, deadline), events);
    ErrorEventKeepsInv(p, s, SourceErrors(id));
  }

  function CountRetries(notes: seq<Note>): nat {
    if notes == [] then 0 else CountRetries(Init(notes)) + if IsRetry(Last(notes)) then 1 else 0
  }

  lemma {:induction false} WindowCount(log: seq<Note>, i: nat, j: nat)
    requires i <= j <= |log| && forall k :: i <= k < j ==> !IsStable(log[k])
    ensures CountRetries(log[i..j]) <= Retries(log[..j])
    decreases j
  {
    if i < j {
      WindowCount(log, i, j - 1);
      assert Init(log[i..j]) == log[i..j - 1] && Last(log[i..j]) == log[j - 1];
      assert Init(log[..j]) == log[..j - 1] && Last(log[..j]) == log[j - 1];
    } else {
      assert log[i..j] == [];
    }
  }

  lemma {:induction false} RetriesAreLimited(p: RetryPolicy, log: seq<Note>)
    requires GoodLog(p, log)
    ensures Retries(log) <= Limit(p)
    decreases |log|
  {
    if log != [] { RetriesAreLimited(p, Init(log)); }
  }

  /** Between two moments with no stable point between them, at most `maxAttempts` reconnects. */
  lemma ReconnectsAreBounded(p: RetryPolicy, deadline: bool, events: seq<Event>, i: nat, j: nat)
    requires var log := Run(p, Started(p, deadline), events).log;
             i <= j <= |log| && forall k :: i <= k < j ==> !IsStable(log[k])
    ensures CountRetries(Run(p, Started(p, deadline), events).log[i..j]) <= Limit(p)
  {
    hide Run, Started;
    LogIsGood(p, deadline, events);
    var log := Run(p, Started(p, deadline), events).log;
    hide GoodLog, Retries, CountRetries;
    if j < |log| { GoodPrefix(p, log, j); } else { assert log[..j] == log; }
    RetriesAreLimited(p, log[..j]);
    WindowCount(log, i, j);
  }
}

/**
  What each event does to a stream in any state it can reach, in terms of what is live and how often it has reconnected.
  */
module StreamOutcomes {
  import opened Prelude
  import opened StreamStatus
  import opened StreamSteps
  import opened StreamSafety

  function Reached(p: RetryPolicy, deadline: bool, events: seq<Event>): Stream {
    Run(p, Started(p, deadline), events)
  }

  lemma ReachedInv(p: RetryPolicy, deadline: bool, events: seq<Event>)
    ensures Inv(p, Reached(p, deadline, events))
  {
    hide Inv, Run, Started;
    StartedInv(p, deadline);
    RunKeepsInv(p, Started(p, deadline), events);
  }

  /** The wait before reconnect number `n` in a row: the base, doubled `n - 1` times, up to the maximum. */
  function Wait(p: RetryPolicy, n: nat): real
    requires n >= 1
  {
    var wait := p.baseDelayMs * Doubled(n - 1);
    if wait > p.maxDelayMs then p.maxDelayMs else wait
  }

  function Doubled(n: nat): real { if n == 0 then 1.0 else Doubled(n - 1) + Doubled(n - 1) }

  lemma {:induction false} DoubledIsPow(n: nat)
    ensures Doubled(n) == Pow2(n)
  {
    if n > 0 { DoubledIsPow(n - 1); }
  }

  lemma WaitIsBackoff(p: RetryPolicy, n: nat)
    requires n >= 1
    ensures BackoffDelay(n, p) == Wait(p, n) && BackoffDelay(0, p) == Wait(p, 1)
  {
    assert Pow2(0) == 1.0 == Doubled(0);
    DoubledIsPow(n - 1);
    var pow := Pow2(n - 1);
    hide Pow2, Doubled;
  }

  /** How a stream goes on after an error that may be retried: one more reconnect if there were fewer than `maxAttempts`
      since it was last stable, and otherwise it fails. */
  function AfterError(p: RetryPolicy, s: Stream, error: StreamError): Status {
    var n := Retries(s.log) + 1;
    if n <= p.maxAttempts then Reconnecting(n, Wait(p, n)) else Failed(error)
  }

  lemma ErrorOutcome(p: RetryPolicy, s: Stream, error: StreamError, retryable: bool)
    requires LogInv(p, s) && (s.status.Connecting? || s.status.Open?)
    ensures Dispatch(p, s, Error(error, retryable)).status == if retryable then AfterError(p, s, error) else Failed(error)
  {
    hide Retries, GoodLog, Live, Ended, BackoffDelay, Wait, Entered;
    WaitIsBackoff(p, s.status.attempt + 1);
    EnteredKeepsStatus(s);
    EnteredStatus(s, StreamTransition(s.status, Error(error, retryable), p));
  }

  lemma EnteredKeepsStatus(s: Stream)
    ensures Entered(s).status == s.status
  {
  }

  lemma EnteredStatus(s: Stream, next: Status)
    ensures Logged(Entered(s.(status := next)), Reported(next)).status == next
  {
  }

  lemma ClosedRetries(p: RetryPolicy, s: Stream)
    ensures Retries(CloseSource(s).log) == Retries(s.log)
  {
    if s.source.Some? { Appended(p, s.log, SourceClosed(s.source.value)); }
    hide Retries;
  }

  /** The current token: a source is made, or refused, or the fetch failed. */
  lemma TokenOutcome(p: RetryPolicy, deadline: bool, events: seq<Event>, retryable: bool)
    requires Reached(p, deadline, events).status.Connecting? && Live(Reached(p, deadline, events).log) == {}
    ensures var s := Reached(p, deadline, events);
            var made := Step(p, s, TokenArrives(s.generation, true));
            && s.generation in s.fetches
            && made.status == s.status && made.log == s.log + [Created(s.created)] && made.source == Some(s.created)
            && Step(p, s, TokenArrives(s.generation, false)).status == Failed(Rejected)
            && Step(p, s, TokenFails(s.generation, retryable)).status
               == if retryable then AfterError(p, s, TokenError) else Failed(TokenError)
  {
    hide Retries, GoodLog, Live, Ended, BackoffDelay, Dispatch, AfterError;
    ReachedInv(p, deadline, events);
    var s := Reached(p, deadline, events);
    hide Reached;
    var t := s.(fetches := s.fetches - {s.generation});
    assert LogInv(p, t);
    ErrorOutcome(p, t, Rejected, false);
    ErrorOutcome(p, t, TokenError, retryable);
    SameError(p, s, t);
  }

  lemma SameError(p: RetryPolicy, s: Stream, t: Stream)
    requires s.log == t.log
    ensures forall error :: AfterError(p, s, error) == AfterError(p, t, error)
  {
  }

  /** The live source opens: the stream is open, and is watched for stability if it had reconnected. */
  lemma OpenOutcome(p: RetryPolicy, deadline: bool, events: seq<Event>, id: nat)
    requires Reached(p, deadline, events).status.Connecting? && id in Live(Reached(p, deadline, events).log)
    ensures var s := Reached(p, deadline, events);
            var after := Step(p, s, SourceOpens(id));
            && after.status == Open(Retries(s.log)) && Live(after.log) == {id}
            && after.stableTimer == (if Retries(s.log) > 0 then Some(id) else None)
  {
    hide Reached;
    ReachedInv(p, deadline, events);
    var s := Reached(p, deadline, events);
    OpenKeepsInv(p, s, id);
    hide Retries, GoodLog, Live, Ended;
  }

  /** The live source fails: before the stream was ever open that is final, and later it is retried. */
  lemma SourceErrorOutcome(p: RetryPolicy, deadline: bool, events: seq<Event>, id: nat)
    requires id in Live(Reached(p, deadline, events).log)
    ensures var s := Reached(p, deadline, events);
            Step(p, s, SourceErrors(id)).status
            == if s.status == Connecting(0) then Failed(Rejected) else AfterError(p, s, Disconnected)
  {
    hide Reached, Retries, GoodLog, Live, Ended, BackoffDelay, Dispatch, CloseSource, AfterError;
    ReachedInv(p, deadline, events);
    var s := Reached(p, deadline, events);
    var t := CloseSource(s);
    ClosedStatus(s);
    CloseSourceKeepsLog(p, s);
    ErrorOutcome(p, t, Rejected, false);
    ErrorOutcome(p, t, Disconnected, true);
    ClosedRetries(p, s);
    SameRetries(p, s, t);
  }

  lemma ClosedStatus(s: Stream)
    ensures CloseSource(s).status == s.status
  {
  }

  lemma SameRetries(p: RetryPolicy, s: Stream, t: Stream)
    requires Retries(s.log) == Retries(t.log)
    ensures forall error :: AfterError(p, s, error) == AfterError(p, t, error)
  {
  }

  /** The timers and the caller: a retry connects again, stability forgets the reconnects, and a stop closes any stream
      that is not over. */
  lemma TimerOutcome(p: RetryPolicy, deadline: bool, events: seq<Event>)
    ensures var s := Reached(p, deadline, events);
            && (s.status.Reconnecting? ==>
                  var after := Step(p, s, RetryFires);
                  after.status == Connecting(Retries(s.log) + 1) && after.generation in after.fetches)
            && (s.stableTimer.Some? ==> s.status.Open? && Step(p, s, StableFires).status == Open(0))
            && Step(p, s, StopCalled).status == if IsFinal(s.status) then s.status else Closed
  {
    hide Reached, Retries, GoodLog, Live, Ended;
    ReachedInv(p, deadline, events);
  }

  /** What comes from a source that is not live, or for an old token, changes nothing that can be seen. */
  lemma StaleEventsAreIgnored(p: RetryPolicy, deadline: bool, events: seq<Event>, id: nat, parses: bool, flag: bool)
    ensures var s := Reached(p, deadline, events);
            && (id !in Live(s.log) ==>
                  Step(p, s, SourceOpens(id)) == Step(p, s, SourceErrors(id)) == Step(p, s, Message(id, parses)) == s)
            && (id in Live(s.log) ==> Step(p, s, Message(id, false)) == s)
            && (id != s.generation ==>
                  && Step(p, s, TokenArrives(id, flag)) == s.(fetches := s.fetches - {id})
                  && Step(p, s, TokenFails(id, flag)) == s.(fetches := s.fetches - {id}))
  {
    hide Reached, Retries, GoodLog, Live, Ended, Dispatch;
    ReachedInv(p, deadline, events);
    var s := Reached(p, deadline, events);
    if id !in s.fetches { assert s.fetches - {id} == s.fetches; }
  }

  lemma DispatchDeadline(p: RetryPolicy, s: Stream, action: Action)
    requires s.deadlineTimer ==> !IsFinal(s.status)
    ensures var t := Dispatch(p, s, action); t.deadlineTimer == (s.deadlineTimer && !IsFinal(t.status))
  {
    hide StreamTransition;
  }

  lemma DeadlineStep(p: RetryPolicy, s: Stream, event: Event)
    requires Inv(p, s)
    ensures var after := Step(p, s, event); after.deadlineTimer == (s.deadlineTimer && !IsFinal(after.status))
  {
    hide LogInv, BackoffDelay;
    if event.DeadlineFires? {
      DeadlineFired(p, s);
    } else {
      forall t: Stream, action | t.deadlineTimer ==> !IsFinal(t.status)
        ensures Dispatch(p, t, action).deadlineTimer == (t.deadlineTimer && !IsFinal(Dispatch(p, t, action).status))
      {
        DispatchDeadline(p, t, action);
      }
      hide Dispatch;
    }
    hide Dispatch;
  }

  lemma DeadlineFired(p: RetryPolicy, s: Stream)
    requires Inv(p, s)
    ensures var after := Step(p, s, DeadlineFires); after.deadlineTimer == (s.deadlineTimer && !IsFinal(after.status))
  {
    hide LogInv, BackoffDelay;
  }

  lemma {:induction false} DeadlineRun(p: RetryPolicy, s: Stream, events: seq<Event>)
    requires Inv(p, s)
    ensures Run(p, s, events).deadlineTimer == (s.deadlineTimer && !IsFinal(Run(p, s, events).status))
    decreases |events|
  {
    hide Inv, Step;
    if events == [] {
      DeadlineIsOff(p, s);
    } else {
      StepKeepsInv(p, s, events[0]);
      DeadlineStep(p, s, events[0]);
      var t := Step(p, s, events[0]);
      DeadlineRun(p, t, events[1..]);
      if IsFinal(t.status) { FinalIsFinal(p, t, events[1..]); }
    }
  }

  lemma DeadlineIsOff(p: RetryPolicy, s: Stream)
    requires Inv(p, s)
    ensures s.deadlineTimer ==> !IsFinal(s.status)
  {
  }

  /** A deadline that was set stays set for as long as the stream is not over, and ends it when it fires. */
  lemma DeadlineOutcome(p: RetryPolicy, deadline: bool, events: seq<Event>)
    ensures var s := Reached(p, deadline, events);
            && s.deadlineTimer == (deadline && !IsFinal(s.status))
            && (s.deadlineTimer ==> Step(p, s, DeadlineFires).status == Failed(TimedOut))
  {
    hide Run, Retries, GoodLog, Live, Ended;
    StartedInv(p, deadline);
    DeadlineRun(p, Started(p, deadline), events);
    ReachedInv(p, deadline, events);
  }
}

/**
  `openEventStream`: the variables its closures share, and one method for each of the closures.
  */
module EventStreamClient {
  import opened Prelude
  import opened StreamStatus
  import opened StreamSteps

  class EventStream {
    const policy: RetryPolicy
    var status: Status
    var source: Option<nat>
    var retryTimer: bool
    var deadlineTimer: bool
    var stableTimer: Option<nat>
    var generation: nat
    var fetches: set<nat>
    var created: nat
    var log: seq<Note>

    function Model(): Stream
      reads this
    {
      Stream(status, source, retryTimer, deadlineTimer, stableTimer, generation, fetches, created, log)
    }

    constructor (policy: RetryPolicy, deadline: bool)
      ensures this.policy == policy && Model() == Started(policy, deadline)
    {
      this.policy := policy;
      status, source, log := Idle, None, [];
      retryTimer, deadlineTimer, stableTimer := false, deadline, None;
      generation, fetches, created := 0, {}, 0;
      new;
      DispatchAction(Connect);
    }

    method CloseSourceNow()
      modifies this
      ensures Model() == CloseSource(old(Model()))
    {
      stableTimer := None;
      if source.Some? {
        log := log + [SourceClosed(source.value)];
        source := None;
      }
    }

    method DispatchAction(action: Action)
      modifies this
      ensures Model() == Dispatch(policy, old(Model()), action)
    {
      hide StreamTransition;
      var next := StreamTransition(status, action, policy);
      if next == status { return; }
      status := next;
      Enter();
      log := log + [Reported(status)];
    }

    /** What a dispatch does on entering the new status. */
    method Enter()
      modifies this
      ensures Model() == Entered(old(Model()))
    {
      if status.Reconnecting? {
        retryTimer := true;
      } else if status.Connecting? {
        generation := generation + 1;
        fetches := fetches + {generation};
        CloseSourceNow();
      } else if status.Failed? || status.Closed? {
        generation := generation + 1;
        CloseSourceNow();
        retryTimer, deadlineTimer := false, false;
      }
    }

    /** `connect` goes on: the token is there, and the source was made or refused. */
    method OnToken(current: nat, accepted: bool)
      modifies this
      ensures Model() == Step(policy, old(Model()), TokenArrives(current, accepted))
    {
      if current !in fetches { return; }
      fetches := fetches - {current};
      if current != generation { return; }
      if !accepted {
        DispatchAction(Error(Rejected, false));
        return;
      }
      source := Some(created);
      log := log + [Created(created)];
      created := created + 1;
    }

    method OnTokenError(current: nat, retryable: bool)
      modifies this
      ensures Model() == Step(policy, old(Model()), TokenFails(current, retryable))
    {
      if current !in fetches { return; }
      fetches := fetches - {current};
      if current != generation { return; }
      DispatchAction(Error(TokenError, retryable));
    }

    method OnOpen(es: nat)
      modifies this
      ensures Model() == Step(policy, old(Model()), SourceOpens(es))
    {
      if source != Some(es) { return; }
      DispatchAction(Opened);
      stableTimer := None;
      if status.Open? && status.attempt > 0 {
        stableTimer := Some(es);
      }
    }

    method OnError(es: nat)
      modifies this
      ensures Model() == Step(policy, old(Model()), SourceErrors(es))
    {
      if source != Some(es) { return; }
      CloseSourceNow();
      if status == Connecting(0) {
        DispatchAction(Error(Rejected, false));
      } else {
        DispatchAction(Error(Disconnected, true));
      }
    }

    method OnEvent(es: nat, parses: bool)
      modifies this
      ensures Model() == Step(policy, old(Model()), Message(es, parses))
    {
      if source != Some(es) || !parses { return; }
      if status.Open? && status.attempt > 0 {
        stableTimer := None;
        DispatchAction(Stable);
      }
      log := log + [Delivered(es)];
    }

    method OnRetryTimer()
      modifies this
      ensures Model() == Step(policy, old(Model()), RetryFires)
    {
      if !retryTimer { return; }
      retryTimer := false;
      DispatchAction(Retry);
    }

    method OnStableTimer()
      modifies this
      ensures Model() == Step(policy, old(Model()), StableFires)
    {
      if stableTimer == None { return; }
      var es := stableTimer;
      stableTimer := None;
      if source == es { DispatchAction(Stable); }
    }

    method OnDeadline()
      modifies this
      ensures Model() == Step(policy, old(Model()), DeadlineFires)
    {
      if !deadlineTimer { return; }
      deadlineTimer := false;
      CloseSourceNow();
      DispatchAction(Error(TimedOut, false));
    }

    method StopStream()
      modifies this
      ensures Model() == Step(policy, old(Model()), StopCalled)
    {
      DispatchAction(Stop);
    }
  }
}
