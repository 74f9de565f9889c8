/**
  The egress quota: edge/src/meter.rs, and the forwarding loops of edge/src/relay.rs that consult it.
  */
module Meters {
  import opened Prelude
  import opened Frames

  /** 0.90 of 2^30 bytes, truncated. */
  const PAUSE_AT := 9 * 0x4000_0000 / 10
  const MAX_TX := 0xFFFF_FFFF_FFFF_FFFF

  /** 0.90 of 2^30 is not a whole number of bytes; the line is the last byte below it. */
  lemma PauseLine()
    ensures PAUSE_AT == 966_367_641 && 10 * PAUSE_AT <= 9 * 0x4000_0000 < 10 * (PAUSE_AT + 1)
    ensures forall tx: U64, overrideOn :: Allowed(tx, overrideOn) <==> overrideOn || tx <= 966_367_640
    ensures forall a: U64, b: U64 ::
              SaturatingAdd(a, b) == if a as int + b as int < 0x1_0000_0000_0000_0000 then a as int + b as int
                                     else 0xFFFF_FFFF_FFFF_FFFF
  {
  }

  predicate Allowed(tx: U64, overrideOn: bool) { overrideOn || tx < PAUSE_AT }

  function SaturatingAdd(a: U64, b: U64): U64 {
    var sum: int := a as int + b as int;
    if sum > MAX_TX then MAX_TX else sum
  }

  class Meter {
    var txBytes: U64
    const overrideOn: bool

    constructor (txBytes: U64, overrideOn: bool)
      ensures this.txBytes == txBytes && this.overrideOn == overrideOn
    {
      this.txBytes := txBytes;
      this.overrideOn := overrideOn;
    }

    method State() returns (s: QuotaState)
      ensures s.Override? <==> overrideOn
      ensures s.PausedQuota? <==> !Allowed(txBytes, overrideOn)
    {
      return if overrideOn then Override else if txBytes >= PAUSE_AT then PausedQuota else QuotaOpen;
    }

    method DataAllowed() returns (b: bool)
      ensures b == Allowed(txBytes, overrideOn)
    {
      return overrideOn || txBytes < PAUSE_AT;
    }

    method NoteTx(n: U64) returns (reached: bool)
      modifies this
      ensures txBytes == SaturatingAdd(old(txBytes), n) && txBytes >= old(txBytes)
      ensures reached == !Allowed(txBytes, overrideOn)
    {
      txBytes := SaturatingAdd(txBytes, n);
      reached := !(overrideOn || txBytes < PAUSE_AT);
    }
  }
}

/**
  Any number of forwarders that check the meter, send one frame and count it, in any interleaving.
  */
module QuotaRuns {
  import opened Prelude
  import opened Frames
  import opened Meters

  /** A forwarder between its locked sections. `Reached` has counted a frame that met the line and is about to call
      `pause`; `Refused` was turned away by the meter before a frame: the session thread then pauses, an uplink just
      ends. */
  datatype Forwarder = Idle | Cleared | Sent(n: U64) | Reached | Refused | Ended

  /** `wire` is every byte handed to a socket; `started` counts the checks that passed; `pauses` counts the runs of the
      pause body. */
  datatype State = State(
    tx: U64, stop: bool, forwarders: seq<Forwarder>,
    wire: nat, started: nat, pauses: nat)

  datatype Step =
    | Check(i: nat) | GiveUp(i: nat) | Send(i: nat, n: U64) | Count(i: nat) | Pause(i: nat) | End(i: nat) | SetStop

  predicate Enabled(s: State, step: Step) {
    match step
    case Check(i) => i < |s.forwarders| && s.forwarders[i] == Idle
    case GiveUp(i) => i < |s.forwarders| && s.forwarders[i] == Cleared
    case Send(i, n) => i < |s.forwarders| && s.forwarders[i] == Cleared && n <= MAX_DATA_PAYLOAD
    case Count(i) => i < |s.forwarders| && s.forwarders[i].Sent?
    case Pause(i) => i < |s.forwarders| && (s.forwarders[i] == Reached || s.forwarders[i] == Refused)
    case End(i) => i < |s.forwarders| && s.forwarders[i] == Refused
    case SetStop => true
  }

  function Apply(s: State, step: Step): State
    requires Enabled(s, step)
  {
    match step
    case Check(i) =>
      if Allowed(s.tx, false) then s.(forwarders := s.forwarders[i := Cleared], started := s.started + 1)
      else s.(forwarders := s.forwarders[i := Refused])
    case GiveUp(i) => s.(forwarders := s.forwarders[i := Idle])
    case Send(i, n) => s.(forwarders := s.forwarders[i := Sent(n)], wire := s.wire + n)
    case Count(i) =>
      var tx := SaturatingAdd(s.tx, s.forwarders[i].n);
      s.(tx := tx, forwarders := s.forwarders[i := if Allowed(tx, false) then Idle else Reached])
    case Pause(i) =>
      s.(forwarders := s.forwarders[i := Idle], stop := true, pauses := if s.stop then s.pauses else s.pauses + 1)
    case End(i) => s.(forwarders := s.forwarders[i := Ended])
    case SetStop => s.(stop := true)
  }

  /** The states a session can be in, from `start` on. */
  ghost predicate Reaches(start: State, steps: seq<Step>, s: State) {
    if steps == [] then s == start
    else
      var last := steps[|steps| - 1];
      exists before :: Reaches(start, steps[..|steps| - 1], before) && Enabled(before, last) && s == Apply(before, last)
  }

  ghost predicate Initial(s: State) {
    && s.tx < PAUSE_AT && !s.stop && s.wire == s.tx && s.started == 0 && s.pauses == 0
    && forall i :: 0 <= i < |s.forwarders| ==> s.forwarders[i] == Idle
  }

  // ----- The invariant -----

  /** What a forwarder that has passed its check may still send. */
  function Clearance(f: Forwarder): nat { if f == Cleared then MAX_DATA_PAYLOAD else 0 }

  /** What a forwarder has sent and not yet counted. */
  function InFlight(f: Forwarder): nat { if f.Sent? then f.n else 0 }

  function TotalCleared(fs: seq<Forwarder>): nat {
    if fs == [] then 0 else Clearance(fs[0]) + TotalCleared(fs[1..])
  }

  function TotalInFlight(fs: seq<Forwarder>): nat {
    if fs == [] then 0 else InFlight(fs[0]) + TotalInFlight(fs[1..])
  }

  lemma {:induction false} TotalsUpdate(fs: seq<Forwarder>, i: nat, f: Forwarder)
    requires i < |fs|
    ensures TotalCleared(fs[i := f]) == TotalCleared(fs) - Clearance(fs[i]) + Clearance(f)
    ensures TotalInFlight(fs[i := f]) == TotalInFlight(fs) - InFlight(fs[i]) + InFlight(f)
  {
    if i == 0 {
      assert fs[0 := f][1..] == fs[1..];
    } else {
      TotalsUpdate(fs[1..], i - 1, f);
      assert fs[i := f][1..] == fs[1..][i - 1 := f];
    }
  }

  lemma {:induction false} TotalsBound(fs: seq<Forwarder>)
    requires forall i :: 0 <= i < |fs| ==> InFlight(fs[i]) <= MAX_DATA_PAYLOAD
    ensures TotalInFlight(fs) + TotalCleared(fs) <= MAX_DATA_PAYLOAD * |fs|
  {
    if fs == [] {
    } else {
      TotalsBound(fs[1..]);
    }
  }

  lemma {:induction false} NothingInFlight(fs: seq<Forwarder>)
    requires forall i :: 0 <= i < |fs| ==> fs[i] == Idle
    ensures TotalCleared(fs) == 0 && TotalInFlight(fs) == 0
  {
    if fs == [] {
    } else {
      NothingInFlight(fs[1..]);
    }
  }

  /** What is on the wire, counted and still to come. */
  predicate Bytes(s: State) {
    && (forall i :: 0 <= i < |s.forwarders| ==> InFlight(s.forwarders[i]) <= MAX_DATA_PAYLOAD)
    && s.tx <= s.wire
    && s.wire + TotalCleared(s.forwarders) <= PAUSE_AT - 1 + MAX_DATA_PAYLOAD * |s.forwarders|
    && (s.tx < MAX_TX ==> s.wire == s.tx + TotalInFlight(s.forwarders))
  }

  ghost predicate Inv(s: State) {
    && Bytes(s)
    // The line is not crossed unnoticed, and the pause body runs once.
    && (s.tx >= PAUSE_AT ==> s.stop || exists i :: 0 <= i < |s.forwarders| && s.forwarders[i] == Reached)
    && s.pauses <= 1 && (s.pauses == 1 ==> s.stop)
  }

  lemma {:induction false} StepKeepsInv(s: State, step: Step)
    requires Inv(s) && Enabled(s, step)
    ensures Inv(Apply(s, step)) && |Apply(s, step).forwarders| == |s.forwarders|
    ensures Apply(s, step).tx >= s.tx
    ensures s.tx >= PAUSE_AT ==> Apply(s, step).started == s.started
  {
    var s' := Apply(s, step);
    StepKeepsBytes(s, step);
    hide TotalCleared, TotalInFlight, Bytes;
    if s'.tx >= PAUSE_AT && !s'.stop {
      KeepsReached(s, step);
    }
  }

  lemma StepKeepsBytes(s: State, step: Step)
    requires Bytes(s) && Enabled(s, step)
    ensures Bytes(Apply(s, step))
  {
    var s' := Apply(s, step);
    if step != SetStop {
      TotalsUpdate(s.forwarders, step.i, s'.forwarders[step.i]);
      FramesStayBounded(s, step);
      TotalsBound(s'.forwarders);
    }
    hide TotalCleared, TotalInFlight;
  }

  lemma FramesStayBounded(s: State, step: Step)
    requires Enabled(s, step) && forall i :: 0 <= i < |s.forwarders| ==> InFlight(s.forwarders[i]) <= MAX_DATA_PAYLOAD
    ensures forall i :: 0 <= i < |Apply(s, step).forwarders| ==> InFlight(Apply(s, step).forwarders[i]) <= MAX_DATA_PAYLOAD
  {
  }

  lemma KeepsReached(s: State, step: Step)
    requires Inv(s) && Enabled(s, step) && Apply(s, step).tx >= PAUSE_AT && !Apply(s, step).stop
    ensures exists i :: 0 <= i < |Apply(s, step).forwarders| && Apply(s, step).forwarders[i] == Reached
  {
    hide TotalCleared, TotalInFlight;
    var s' := Apply(s, step);
    if s.tx >= PAUSE_AT {
      var k :| 0 <= k < |s.forwarders| && s.forwarders[k] == Reached;
      assert s'.forwarders[k] == Reached;
    } else {
      assert s'.forwarders[step.i] == Reached;
    }
  }

  lemma {:induction false} RunKeepsInv(start: State, steps: seq<Step>, s: State)
    requires Initial(start) && Reaches(start, steps, s)
    ensures Inv(s) && |s.forwarders| == |start.forwarders|
    decreases |steps|
  {
    hide Inv;
    if steps == [] {
      InitialInv(start);
    } else {
      var last := steps[|steps| - 1];
      var before :| Reaches(start, steps[..|steps| - 1], before) && Enabled(before, last) && s == Apply(before, last);
      RunKeepsInv(start, steps[..|steps| - 1], before);
      StepKeepsInv(before, last);
    }
  }

  lemma InitialInv(s: State)
    requires Initial(s)
    ensures Inv(s)
  {
    NothingInFlight(s.forwarders);
  }

  // ----- Every run -----

  /** With N forwarders, the counter and the bytes really sent stay below the line plus one frame each. */
  lemma OvershootIsBounded(start: State, steps: seq<Step>, s: State)
    requires Initial(start) && Reaches(start, steps, s)
    ensures s.tx <= s.wire <= 966_367_640 + 16_384 * |start.forwarders|
  {
    hide Reaches;
    RunKeepsInv(start, steps, s);
  }

  /** The pause body runs at most once, and once the line is met it has run, or a forwarder is about to call it, or the
      session was stopped otherwise. */
  lemma PauseRunsOnce(start: State, steps: seq<Step>, s: State)
    requires Initial(start) && Reaches(start, steps, s)
    ensures s.pauses <= 1
    ensures s.tx >= 966_367_641 ==> s.stop || exists i :: 0 <= i < |s.forwarders| && s.forwarders[i] == Reached
  {
    hide Reaches;
    RunKeepsInv(start, steps, s);
  }

  /** Once the line is met it stays met, and no forward starts any more. */
  lemma {:induction false} NothingStartsAfterTheLine(
    start: State, first: seq<Step>, s: State, steps: seq<Step>, later: State)
    requires Initial(start) && Reaches(start, first, s) && s.tx >= 966_367_641 && Reaches(s, steps, later)
    ensures later.tx >= 966_367_641 && later.started == s.started
  {
    hide Reaches;
    RunKeepsInv(start, first, s);
    StartedStays(s, steps, later);
  }

  lemma {:induction false} StartedStays(s: State, steps: seq<Step>, later: State)
    requires Inv(s) && s.tx >= PAUSE_AT && Reaches(s, steps, later)
    ensures Inv(later) && later.tx >= PAUSE_AT && later.started == s.started
    decreases |steps|
  {
    hide Inv;
    if steps == [] {
    } else {
      var last := steps[|steps| - 1];
      var before :| Reaches(s, steps[..|steps| - 1], before) && Enabled(before, last) && later == Apply(before, last);
      StartedStays(s, steps[..|steps| - 1], before);
      StepKeepsInv(before, last);
    }
  }

  // ----- The bound is met, and the pause happens -----

  lemma Take(start: State, steps: seq<Step>, s: State, step: Step) returns (more: seq<Step>, after: State)
    requires Reaches(start, steps, s) && Enabled(s, step)
    ensures Reaches(start, more, after) && after == Apply(s, step)
  {
    hide Enabled, Apply;
    more, after := steps + [step], Apply(s, step);
    assert more[..|more| - 1] == steps && more[|more| - 1] == step;
    assert Reaches(start, more[..|more| - 1], s);
  }

  /** The first `k` forwarders are `f` and the others `g`. */
  predicate FirstAre(fs: seq<Forwarder>, k: nat, f: Forwarder, g: Forwarder) {
    k <= |fs| && forall i :: 0 <= i < |fs| ==> fs[i] == if i < k then f else g
  }

  lemma {:induction false} AllClear(start: State, k: nat) returns (steps: seq<Step>, s: State)
    requires Initial(start) && k <= |start.forwarders|
    ensures Reaches(start, steps, s) && FirstAre(s.forwarders, k, Cleared, Idle) && |s.forwarders| == |start.forwarders|
    ensures s == start.(forwarders := s.forwarders, started := k)
  {
    if k == 0 {
      steps, s := [], start;
    } else {
      steps, s := AllClear(start, k - 1);
      hide Reaches;
      steps, s := Take(start, steps, s, Check(k - 1));
    }
  }

  lemma {:induction false} AllSend(start: State, k: nat) returns (steps: seq<Step>, s: State)
    requires Initial(start) && k <= |start.forwarders|
    ensures Reaches(start, steps, s) && FirstAre(s.forwarders, k, Sent(16_384), Cleared)
    ensures |s.forwarders| == |start.forwarders|
    ensures s == start.(forwarders := s.forwarders, started := |start.forwarders|, wire := start.wire + 16_384 * k)
  {
    if k == 0 {
      steps, s := AllClear(start, |start.forwarders|);
    } else {
      steps, s := AllSend(start, k - 1);
      hide Reaches;
      steps, s := Take(start, steps, s, Send(k - 1, 16_384));
    }
  }

  /** The bound of OvershootIsBounded is met: one byte below the line, every forwarder may clear its check and send a full
      frame. */
  lemma OvershootIsTight(start: State) returns (steps: seq<Step>, s: State)
    requires Initial(start) && start.tx == 966_367_640
    ensures Reaches(start, steps, s) && s.wire == 966_367_640 + 16_384 * |start.forwarders|
    ensures s.started == |start.forwarders|
  {
    hide Reaches;
    steps, s := AllSend(start, |start.forwarders|);
  }

  /** A forwarder that counts past the line pauses the session, and the next check is refused for good. */
  lemma LineIsMet(start: State) returns (steps: seq<Step>, s: State)
    requires Initial(start) && start.tx == 966_367_640 && |start.forwarders| == 1
    ensures Reaches(start, steps, s) && s.tx == s.wire == 966_367_641 && s.stop && s.pauses == 1
    ensures s.started == 1 && s.forwarders == [Ended]
  {
    hide Reaches;
    assert Reaches(start, [], start) by { NoSteps(start); }
    steps, s := Take(start, [], start, Check(0));
    steps, s := Take(start, steps, s, Send(0, 1));
    steps, s := Take(start, steps, s, Count(0));
    steps, s := Take(start, steps, s, Pause(0));
    assert s.forwarders[0] == Idle;
    steps, s := Take(start, steps, s, Check(0));
    steps, s := Take(start, steps, s, End(0));
  }

  lemma NoSteps(start: State)
    ensures Reaches(start, [], start)
  {
  }

  /** Below the line nobody is refused, and nobody pauses or is about to. */
  lemma {:induction false} PausesOnlyAtTheLine(start: State, steps: seq<Step>, s: State)
    requires Initial(start) && Reaches(start, steps, s) && s.tx < 966_367_641
    ensures s.pauses == 0
    ensures forall i :: 0 <= i < |s.forwarders| ==>
              s.forwarders[i] != Reached && s.forwarders[i] != Refused && s.forwarders[i] != Ended
    decreases |steps|
  {
    if steps != [] {
      var last := steps[|steps| - 1];
      var before :| Reaches(start, steps[..|steps| - 1], before) && Enabled(before, last) && s == Apply(before, last);
      TxGrows(before, last);
      PausesOnlyAtTheLine(start, steps[..|steps| - 1], before);
    }
  }

  lemma TxGrows(s: State, step: Step)
    requires Enabled(s, step)
    ensures Apply(s, step).tx >= s.tx
  {
  }

  /** Unless something else stops the session, it is stopped exactly when the pause body has run. */
  lemma {:induction false} OnlyPauseStops(start: State, steps: seq<Step>, s: State)
    requires Initial(start) && Reaches(start, steps, s) && SetStop !in steps
    ensures s.pauses == if s.stop then 1 else 0
    decreases |steps|
  {
    if steps != [] {
      var last := steps[|steps| - 1];
      var before :| Reaches(start, steps[..|steps| - 1], before) && Enabled(before, last) && s == Apply(before, last);
      OnlyPauseStops(start, steps[..|steps| - 1], before);
      assert last in steps;
    }
  }
}
