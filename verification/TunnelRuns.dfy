/**
  The claims about every run of the tunnel, in terms of frames and positions only.
  */
module TunnelRuns {
  import opened TunnelState
  import opened TunnelPhases
  import opened TunnelSafety

  // ----- Protocol errors -----

  /** Until the VM pauses, no interleaving makes the Mac reject a frame; and whenever it does reject one, that frame
      is a DATA behind the CLOSE that the pause sent for the same id. */
  lemma MacRejectsOnlyDataAfterPause(steps: seq<Step>, s: State)
    requires IsRun(steps, s)
    ensures !Paused(s.vm) ==> s.mac.status != MacProtocolError
    ensures s.mac.status == MacProtocolError ==> DataAfterPauseClose(s)
  {
    hide IsRun;
    RunKeepsInv(steps, s);
  }

  /** The exact condition: the Mac rejects the next frame if and only if it is such a DATA. */
  lemma MacRejectsExactly(steps: seq<Step>, s: State, dial: Dial)
    requires IsRun(steps, s) && Enabled(s, MacRead(dial))
    ensures Apply(s, MacRead(dial)).mac.status == MacProtocolError <==> DataAfterPauseClose(s)
  {
    hide IsRun;
    RunKeepsInv(steps, s);
    MacRejectsOnlyAfterPause(s, dial);
    if DataAfterPauseClose(s) {
      assert IdInv(s, s.toMac[s.macRead].id);
    }
  }

  /** The VM ends its session only over a DATA or a CLOSE, never over an answer to its OPEN. */
  lemma VmRejectsOnlyDataOrClose(steps: seq<Step>, s: State)
    requires IsRun(steps, s)
    ensures s.vm.reader.VmFailed? ==> s.vm.reader.cause.Data? || s.vm.reader.cause.Close?
  {
    hide IsRun;
    RunKeepsInv(steps, s);
  }

  /** The exact condition: a CLOSE for an id that is not open, or a DATA for one that is not open or has no writer. */
  lemma VmRejectsExactly(steps: seq<Step>, s: State)
    requires IsRun(steps, s) && Enabled(s, VmRead)
    ensures var m := s.toVm[s.vmRead];
            Apply(s, VmRead).vm.reader.VmFailed? <==>
              || (m.Close? && m.id !in s.vm.open)
              || (m.Data? && (m.id !in s.vm.open || m.id !in s.vm.writers))
  {
    hide IsRun;
    RunKeepsInv(steps, s);
    VmReadFailsOnlyOnOwnClose(s);
    hide Inv;
  }

  /** And only over a connection that it is closing itself, or whose local side it lost before data could flow. */
  lemma VmRejectsOnlyWhatItCloses(steps: seq<Step>, s: State)
    requires IsRun(steps, s) && Enabled(s, VmRead) && Apply(s, VmRead).vm.reader.VmFailed?
    ensures var m := s.toVm[s.vmRead];
            && (m.Data? || m.Close?)
            && (HangsUp(s.vm, m.id) || (m.Data? && m.id !in s.vm.uplinks))
  {
    hide IsRun;
    RunKeepsInv(steps, s);
    VmReadFailsOnlyOnOwnClose(s);
    var id := s.toVm[s.vmRead].id;
    assert IdInv(s, id);
    HeardIsSent(s, s.vmRead + 1, id);
    BackRead(s.toVm, s.vmRead, id);
    hide OutPhase, BackPhase;
  }

  // ----- What is refused from any peer -----

  /** In any state, whatever was sent before: the frames that the VM refuses, and refusing changes nothing else. */
  lemma VmRefuses(vm: Vm, m: Msg)
    requires vm.reader == Reading
    ensures OnVmFrame(vm, m).reader.VmFailed? <==>
              || m.Open?
              || (m.OpenOk? && (m.id !in vm.open || m.id !in vm.waiting))
              || (m.OpenFail? && m.id !in vm.open)
              || (m.Data? && (m.id !in vm.open || m.id !in vm.writers))
              || (m.Close? && m.id !in vm.open)
    ensures OnVmFrame(vm, m).reader.VmFailed? ==> OnVmFrame(vm, m) == vm.(reader := VmFailed(m))
  {
  }

  /** And the frames that the Mac refuses. */
  lemma MacRefuses(mac: Mac, m: Msg, dial: Dial)
    requires mac.status == MacRunning
    ensures OnMacFrame(mac, m, dial).status == MacProtocolError <==>
              || m.OpenOk? || m.OpenFail?
              || (m.Open? && (m.id != mac.next || mac.next == 0xFFFF_FFFF_FFFF_FFFF || mac.next > MAX_U64))
              || (m.Data? && (m.id !in mac.open || m.id !in mac.writers))
              || (m.Close? && m.id !in mac.open)
    ensures OnMacFrame(mac, m, dial).status == MacProtocolError ==>
              OnMacFrame(mac, m, dial) == mac.(status := MacProtocolError)
  {
  }

  // ----- OPENs in flight -----

  function OpenIds(log: seq<Msg>): seq<nat> {
    if log == [] then []
    else (if log[0].Open? then [log[0].id] else []) + OpenIds(log[1..])
  }

  function Range(from: nat, to: nat): seq<nat>
    decreases to - from
  {
    if from >= to then [] else [from] + Range(from + 1, to)
  }

  lemma {:induction false} OpenIdsAreRange(log: seq<Msg>, k: nat)
    requires OpensInOrder(log) && k <= |log|
    ensures OpenIds(log[k..]) == Range(OpenCount(log[..k]) + 1, OpenCount(log) + 1)
    decreases |log| - k
  {
    if k == |log| {
      assert log[k..] == [] && log[..k] == log;
    } else {
      OpenIdsAreRange(log, k + 1);
      OpenCountRead(log, k);
      CountPrefix(log, k + 1);
      assert log[k..][1..] == log[k + 1..];
    }
  }

  /** The OPENs in flight carry, in order, exactly the ids from the Mac's next one up to the last one sent. */
  lemma OpensInFlight(steps: seq<Step>, s: State)
    requires IsRun(steps, s)
    ensures s.macRead <= |s.toMac| && OpenIds(s.toMac[s.macRead..]) == Range(s.mac.next, OpenCount(s.toMac) + 1)
    ensures s.vm.acceptor == Listening || s.vm.acceptor == Accepting ==>
              OpenIds(s.toMac[s.macRead..]) == Range(s.mac.next, s.vm.next)
  {
    hide IsRun;
    RunKeepsInv(steps, s);
    OpenIdsAreRange(s.toMac, s.macRead);
    hide OpenCount, OpenIds, Range, IdInv;
  }

  // ----- Where an open id is -----

  predicate NotYetSent(s: State, id: nat) { id > OpenCount(s.toMac) }

  predicate OpenInFlight(s: State, id: nat) {
    exists k :: s.macRead <= k < |s.toMac| && s.toMac[k] == Open(id)
  }

  predicate OpenFailInFlight(s: State, id: nat) {
    exists k :: s.vmRead <= k < |s.toVm| && s.toVm[k] == OpenFail(id)
  }

  function Count(b: bool): nat { if b then 1 else 0 }

  /** Each id open at the VM is in exactly one place: not yet announced, announced by an OPEN in flight, refused by an
      OPEN_FAIL in flight, or open at the Mac. */
  lemma OpenIdIsInOnePlace(steps: seq<Step>, s: State, id: nat)
    requires IsRun(steps, s) && id in s.vm.open
    ensures Count(NotYetSent(s, id)) + Count(OpenInFlight(s, id)) + Count(OpenFailInFlight(s, id))
            + Count(id in s.mac.open) == 1
  {
    hide IsRun;
    RunKeepsInv(steps, s);
    assert IdInv(s, id);
    var out, taken := OutPhase(s.toMac, id), OutPhase(s.toMac[..s.macRead], id);
    var back, heard := BackPhase(s.toVm, id), BackPhase(s.toVm[..s.vmRead], id);
    OpenedIffCounted(s.toMac, id);
    OutPrefix(s.toMac, s.macRead, id);
    BackPrefix(s.toVm, s.vmRead, id);
    OpenInSuffix(s.toMac, s.macRead, id);
    OpenFailInSuffix(s.toVm, s.vmRead, id);
    hide OutPhase, BackPhase, OpenCount;
    assert OpenInFlight(s, id) <==> taken == Unsent && out != Unsent;
    assert OpenFailInFlight(s, id) <==> heard == Silent && back == Failed;
  }

  lemma {:induction false} OpenInSuffix(log: seq<Msg>, k: nat, id: nat)
    requires k <= |log| && OutPhase(log, id) != OutBad
    ensures (exists j :: k <= j < |log| && log[j] == Open(id))
       <==> OutPhase(log[..k], id) == Unsent && OutPhase(log, id) != Unsent
    decreases |log| - k
  {
    OutPrefix(log, k, id);
    if k == |log| {
      assert log[..k] == log;
    } else {
      OutPrefix(log, k + 1, id);
      OutRead(log, k, id);
      OpenInSuffix(log, k + 1, id);
      hide OutPhase;
    }
  }

  lemma {:induction false} OpenFailInSuffix(log: seq<Msg>, k: nat, id: nat)
    requires k <= |log| && BackPhase(log, id) != BackBad
    ensures (exists j :: k <= j < |log| && log[j] == OpenFail(id))
       <==> BackPhase(log[..k], id) == Silent && BackPhase(log, id) == Failed
    decreases |log| - k
  {
    BackPrefix(log, k, id);
    if k == |log| {
      assert log[..k] == log;
    } else {
      BackPrefix(log, k + 1, id);
      BackRead(log, k, id);
      OpenFailInSuffix(log, k + 1, id);
      hide BackPhase;
    }
  }

  // ----- What is said about one id -----

  predicate About(m: Msg, id: nat) { m != Other && m.id == id }

  /** The Mac's frames for an id are OPEN_FAIL alone, or OPEN_OK, then DATA, then at most one CLOSE. */
  lemma MacFramesForm(steps: seq<Step>, s: State, id: nat, i: nat, j: nat)
    requires IsRun(steps, s) && i < j < |s.toVm| && About(s.toVm[i], id) && About(s.toVm[j], id)
    ensures s.toVm[i].OpenOk? || s.toVm[i].Data?
    ensures s.toVm[j].Data? || s.toVm[j].Close?
  {
    hide IsRun;
    RunKeepsInv(steps, s);
    assert IdInv(s, id);
    hide BackPhase, OutPhase, VmSide, MacSide, Globals;
    BackForm(s.toVm, id, i, j);
  }

  lemma BackForm(log: seq<Msg>, id: nat, i: nat, j: nat)
    requires BackPhase(log, id) != BackBad && i < j < |log| && About(log[i], id) && About(log[j], id)
    ensures log[i].OpenOk? || log[i].Data?
    ensures log[j].Data? || log[j].Close?
  {
    BackPrefix(log, i + 1, id);
    BackPrefix(log, j + 1, id);
    BackPrefixes(log, i + 1, j, id);
    BackRead(log, i, id);
    BackRead(log, j, id);
    hide BackPhase;
  }

  lemma BackPrefixes(log: seq<Msg>, i: nat, j: nat, id: nat)
    requires i <= j <= |log| && BackPhase(log, id) != BackBad
    ensures BackLe(BackPhase(log[..i], id), BackPhase(log[..j], id))
  {
    BackPrefix(log, j, id);
    BackPrefix(log[..j], i, id);
    assert log[..j][..i] == log[..i];
  }

  /** ... and a DATA or CLOSE of the Mac comes after an OPEN_OK for the same id. */
  lemma MacFramesStart(steps: seq<Step>, s: State, id: nat, j: nat)
    requires IsRun(steps, s) && j < |s.toVm| && (s.toVm[j] == Data(id) || s.toVm[j] == Close(id))
    ensures exists i :: 0 <= i < j && s.toVm[i] == OpenOk(id)
  {
    hide IsRun;
    RunKeepsInv(steps, s);
    assert IdInv(s, id);
    BackPrefix(s.toVm, j + 1, id);
    BackRead(s.toVm, j, id);
    var i := LiveHasOpenOk(s.toVm[..j], id);
    assert s.toVm[i] == OpenOk(id);
  }

  lemma {:induction false} LiveHasOpenOk(log: seq<Msg>, id: nat) returns (i: nat)
    requires BackPhase(log, id) == Live
    ensures i < |log| && log[i] == OpenOk(id)
    decreases |log|
  {
    var init, last := log[..|log| - 1], log[|log| - 1];
    if last == OpenOk(id) {
      i := |log| - 1;
    } else {
      i := LiveHasOpenOk(init, id);
    }
  }

  lemma OutPrefixes(log: seq<Msg>, i: nat, j: nat, id: nat)
    requires i <= j <= |log| && OutPhase(log, id) != OutBad
    ensures OutLe(OutPhase(log[..i], id), OutPhase(log[..j], id))
  {
    OutPrefix(log, j, id);
    OutPrefix(log[..j], i, id);
    assert log[..j][..i] == log[..i];
  }

  /** The VM's frames for an id begin with its one OPEN; after its one CLOSE there is nothing, unless the VM has paused,
      and then only a DATA. */
  lemma VmFramesForm(steps: seq<Step>, s: State, id: nat, i: nat, j: nat)
    requires IsRun(steps, s) && i < j < |s.toMac| && About(s.toMac[i], id) && About(s.toMac[j], id)
    ensures s.toMac[i].Open? || s.toMac[i].Data? || s.toMac[i].Close?
    ensures s.toMac[j].Data? || s.toMac[j].Close?
    ensures s.toMac[i].Close? ==> s.toMac[j].Data? && Paused(s.vm)
  {
    hide IsRun;
    RunKeepsInv(steps, s);
    assert IdInv(s, id);
    hide OutPhase, BackPhase, MacSide, Globals;
    OutForm(s.toMac, id, i, j);
  }

  lemma OutForm(log: seq<Msg>, id: nat, i: nat, j: nat)
    requires OutPhase(log, id) != OutBad && i < j < |log| && About(log[i], id) && About(log[j], id)
    ensures log[i].Open? || log[i].Data? || log[i].Close?
    ensures log[j].Data? || log[j].Close?
    ensures log[i].Close? ==> log[j].Data? && OutPhase(log, id) == Trailing
  {
    OutPrefix(log, i + 1, id);
    OutPrefix(log, j + 1, id);
    OutPrefixes(log, i + 1, j, id);
    OutRead(log, i, id);
    OutRead(log, j, id);
    hide OutPhase;
  }

  /** ... and after the CLOSE of a pause at most one DATA follows. */
  lemma OneDataAfterClose(steps: seq<Step>, s: State, id: nat, i: nat, j: nat, k: nat)
    requires IsRun(steps, s) && i < j < k < |s.toMac|
    requires s.toMac[i] == Close(id) && About(s.toMac[j], id)
    ensures !About(s.toMac[k], id)
  {
    hide IsRun;
    RunKeepsInv(steps, s);
    assert IdInv(s, id);
    hide OutPhase, BackPhase, VmSide, MacSide, Globals;
    NothingAfterTrailing(s.toMac, id, i, j, k);
  }

  lemma NothingAfterTrailing(log: seq<Msg>, id: nat, i: nat, j: nat, k: nat)
    requires OutPhase(log, id) != OutBad && i < j < k < |log|
    requires log[i] == Close(id) && About(log[j], id)
    ensures !About(log[k], id)
  {
    assert OutPhase(log[..j + 1], id) == Trailing by {
      OutPrefix(log, j + 1, id);
      OutForm(log[..j + 1], id, i, j);
    }
    OutPrefix(log, k + 1, id);
    OutPrefixes(log, j + 1, k, id);
    OutRead(log, k, id);
    hide OutPhase;
  }

  /** Ids are handed out in increasing order and at most 64 are open on either side. */
  lemma IdsAreNotReused(steps: seq<Step>, s: State, i: nat, j: nat)
    requires IsRun(steps, s)
    ensures |s.vm.open| <= 64 && |s.mac.open| <= 64
    ensures i < j < |s.toMac| && s.toMac[i].Open? && s.toMac[j].Open? ==> s.toMac[i].id < s.toMac[j].id
  {
    hide IsRun;
    RunKeepsInv(steps, s);
    if i < j < |s.toMac| && s.toMac[i].Open? && s.toMac[j].Open? {
      OpenCountRead(s.toMac, i);
      CountPrefix(s.toMac[..j], i + 1);
      assert s.toMac[..j][..i + 1] == s.toMac[..i + 1];
    }
  }

  // ----- Runs that reach the two errors -----

  lemma Take(steps: seq<Step>, s: State, step: Step) returns (more: seq<Step>, after: State)
    requires IsRun(steps, s) && Enabled(s, step)
    ensures IsRun(more, after) && after == Apply(s, step)
  {
    hide Enabled, Apply;
    more, after := steps + [step], Apply(s, step);
    assert more[..|more| - 1] == steps && more[|more| - 1] == step;
    assert IsRun(more[..|more| - 1], s);
  }

  /** `n` connections have come and gone, each closed by the Mac's side: nothing is in flight and no thread is busy. */
  ghost predicate Quiet(s: State, n: nat) {
    && s.vm.next == n + 1 && s.vm.open == {} && s.vm.writers == {} && s.vm.acceptor == Listening && s.vm.reader == Reading
    && s.vm.pauser == NotPaused && !s.vm.stop && (forall id :: id in s.vm.closed ==> id <= n)
    && (forall id :: id in s.vm.uplinks ==> id <= n && s.vm.uplinks[id] == Looping)
    && s.mac.next == n + 1 && |s.mac.open| == n && (forall id :: id in s.mac.open ==> 1 <= id <= n)
    && (forall id :: id in s.mac.closed ==> id <= n) && s.mac.status == MacRunning
    && s.macRead == |s.toMac| && s.vmRead == |s.toVm|
  }

  /** The next connection is up on both sides. */
  ghost predicate Up(s: State, n: nat) {
    && s.vm.next == n + 2 && s.vm.open == {n + 1} && s.vm.acceptor == Listening && s.vm.reader == Reading
    && s.vm.pauser == NotPaused && !s.vm.stop
    && (forall id :: id in s.vm.closed ==> id <= n) && s.vm.writers == {n + 1}
    && (forall id :: id in s.vm.uplinks ==> id <= n + 1 && s.vm.uplinks[id] == Looping)
    && s.mac.next == n + 2 && |s.mac.open| == n + 1 && (forall id :: id in s.mac.open ==> 1 <= id <= n + 1)
    && (forall id :: id in s.mac.closed ==> id <= n) && s.mac.status == MacRunning
    && MacUplinkAt(s.mac, n + 1, MacLooping) && n + 1 in s.mac.open && UplinkAt(s.vm, n + 1, Looping)
    && s.macRead == |s.toMac| && s.vmRead == |s.toVm|
  }

  lemma ConnectNext(steps: seq<Step>, s: State, n: nat) returns (more: seq<Step>, after: State)
    requires IsRun(steps, s) && Quiet(s, n) && n < MAX_CONNS
    ensures IsRun(more, after) && Up(after, n)
  {
    hide IsRun;
    more, after := Take(steps, s, VmDoes(Accept));
    more, after := Take(more, after, VmDoes(Alloc));
    more, after := Take(more, after, VmDoes(Park));
    more, after := Take(more, after, VmDoes(SendOpen));
    more, after := Take(more, after, MacRead(Connected));
    more, after := Take(more, after, VmRead);
    more, after := Take(more, after, VmDoes(InsertWriter));
  }

  lemma ConnectedRun() returns (steps: seq<Step>, s: State)
    ensures IsRun(steps, s) && Up(s, 0)
  {
    hide IsRun;
    EmptyRun();
    steps, s := ConnectNext([], INITIAL, 0);
  }

  lemma EmptyRun()
    ensures IsRun([], INITIAL)
  {
  }

  /** A pause has sent its CLOSE while an uplink is past its checks. */
  lemma PausedRun() returns (steps: seq<Step>, s: State)
    ensures IsRun(steps, s) && UplinkAt(s.vm, 1, Checked)
    ensures s.macRead < |s.toMac| && s.toMac[s.macRead..] == [Close(1)]
    ensures s.mac.status == MacRunning && 1 in s.mac.open
  {
    hide IsRun;
    steps, s := ConnectedRun();
    ghost var sent := s.toMac;
    steps, s := Take(steps, s, VmDoes(UpCheck(1)));
    steps, s := Take(steps, s, VmDoes(PauseBegin));
    steps, s := Take(steps, s, VmDoes(TakeSnapshot));
    steps, s := Take(steps, s, VmDoes(PauseRelease(1)));
    steps, s := Take(steps, s, VmDoes(PauseRemoveWriter));
    steps, s := Take(steps, s, VmDoes(PauseSendClose));
    assert s.toMac == sent + [Close(1)];
  }

  /** The race that the condition on pausing excludes: an uplink past its checks sends DATA behind the pause's CLOSE,
      and the Mac answers with a protocol error. */
  lemma PauseRace() returns (steps: seq<Step>, s: State)
    ensures IsRun(steps, s) && s.mac.status == MacProtocolError
  {
    hide IsRun;
    steps, s := PausedRun();
    ghost var k, log := s.macRead, s.toMac;
    assert log[k..][0] == log[k] == Close(1) && |log| == k + 1;
    steps, s := Take(steps, s, VmDoes(UpSend(1)));
    assert s.toMac == log + [Data(1)];
    steps, s := Take(steps, s, MacRead(Connected));
    steps, s := Take(steps, s, MacRead(Connected));
  }

  /** Crossing CLOSEs: both local sockets end, and the VM ends the session over the Mac's CLOSE, without any pause. */
  lemma CrossingCloses() returns (steps: seq<Step>, s: State)
    ensures IsRun(steps, s) && s.vm.reader == VmFailed(Close(1)) && !Paused(s.vm)
  {
    hide IsRun;
    steps, s := ConnectedRun();
    ghost var sent := s.toVm;
    steps, s := Take(steps, s, VmDoes(UpCheck(1)));
    steps, s := Take(steps, s, VmDoes(UpEnd(1)));
    steps, s := Take(steps, s, VmDoes(UpRelease(1)));
    steps, s := Take(steps, s, MacDoes(MacCheck(1)));
    steps, s := Take(steps, s, MacDoes(MacEnd(1)));
    steps, s := Take(steps, s, MacDoes(MacClose(1)));
    assert s.toVm == sent + [Close(1)];
    steps, s := Take(steps, s, VmRead);
  }

  // ----- Runs of a whole pause -----

  /** From the moment a pause has released the only connection. */
  lemma PauseStarts(steps: seq<Step>, s: State) returns (more: seq<Step>, after: State)
    requires IsRun(steps, s) && s.vm.pauser == NotPaused && !s.vm.stop && s.vm.open == {1} && s.vm.writers == {1}
    ensures IsRun(more, after)
    ensures after == s.(vm := s.vm.(stop := true, open := {}, pauser := PauseRemove({}, 1)))
  {
    hide IsRun;
    more, after := Take(steps, s, VmDoes(PauseBegin));
    more, after := Take(more, after, VmDoes(TakeSnapshot));
    assert {1} - {1} == {};
    more, after := Take(more, after, VmDoes(PauseRelease(1)));
  }

  /** The rest of a pause that has nothing more to do. */
  lemma PauseEnds(steps: seq<Step>, s: State) returns (more: seq<Step>, after: State)
    requires IsRun(steps, s) && s.vm.pauser == PauseForget({}, 1)
    ensures IsRun(more, after)
    ensures after == s.(vm := s.vm.(waiting := s.vm.waiting - {1}, pauser := PauseDone), toMac := s.toMac + [Other])
  {
    hide IsRun;
    more, after := Take(steps, s, VmDoes(PauseForgetWaiting));
    more, after := Take(more, after, VmDoes(PauseEnd));
  }

  /** A pause that meets one open connection: it releases the id, drops the writer, sends one CLOSE and then QUOTA. */
  lemma PauseCloses() returns (steps: seq<Step>, s: State, before: seq<Msg>)
    ensures IsRun(steps, s) && s.toMac == before + [Close(1), Other] && s.macRead == |before|
    ensures s.vm.pauser == PauseDone && s.vm.open == {} && s.vm.writers == {} && 1 in s.vm.closed
    ensures s.mac.status == MacRunning && 1 in s.mac.open
  {
    hide IsRun;
    steps, s := ConnectedRun();
    before := s.toMac;
    steps, s := PauseStarts(steps, s);
    steps, s := Take(steps, s, VmDoes(PauseRemoveWriter));
    steps, s := Take(steps, s, VmDoes(PauseSendClose));
    steps, s := PauseEnds(steps, s);
    assert before + [Close(1)] + [Other] == before + [Close(1), Other];
  }

  /** Then the Mac releases the id too. */
  lemma PauseReachesMac() returns (steps: seq<Step>, s: State)
    ensures IsRun(steps, s) && s.macRead == |s.toMac| && s.vm.open == {}
    ensures s.mac.status == MacRunning && 1 !in s.mac.open && 1 !in s.mac.writers
  {
    hide IsRun;
    var before;
    steps, s, before := PauseCloses();
    assert s.toMac[s.macRead] == Close(1);
    steps, s := Take(steps, s, MacRead(Connected));
    steps, s := Take(steps, s, MacRead(Connected));
  }

  lemma PausedWhileEnding() returns (steps: seq<Step>, s: State)
    ensures IsRun(steps, s) && s.vm.pauser == PauseRemove({}, 1) && s.vm.open == {} && s.vm.writers == {1}
    ensures 1 in s.vm.closed && UplinkAt(s.vm, 1, Swapped)
  {
    hide IsRun;
    steps, s := ConnectedRun();
    steps, s := Take(steps, s, VmDoes(UpCheck(1)));
    steps, s := Take(steps, s, VmDoes(UpEnd(1)));
    steps, s := PauseStarts(steps, s);
  }

  lemma PausePassesBy() returns (steps: seq<Step>, s: State)
    ensures IsRun(steps, s) && s.vm.pauser == PauseForget({}, 1)
    ensures s.vm.open == {} && s.vm.writers == {} && UplinkAt(s.vm, 1, Swapped)
  {
    hide IsRun;
    steps, s := PausedWhileEnding();
    steps, s := Take(steps, s, VmDoes(PauseRemoveWriter));
  }

  /** The rest of an uplink that has swapped its flag. */
  lemma UplinkCloses(steps: seq<Step>, s: State) returns (more: seq<Step>, after: State)
    requires IsRun(steps, s) && UplinkAt(s.vm, 1, Swapped)
    ensures IsRun(more, after) && after.toMac == s.toMac + [Close(1)]
    ensures after.vm == s.vm.(open := s.vm.open - {1}, uplinks := s.vm.uplinks[1 := UplinkDone])
  {
    hide IsRun;
    more, after := Take(steps, s, VmDoes(UpRelease(1)));
    more, after := Take(more, after, VmDoes(UpClose(1)));
    assert s.vm.uplinks[1 := Released][1 := UplinkDone] == s.vm.uplinks[1 := UplinkDone];
  }

  /** A pause that meets a connection whose uplink is already closing: the uplink sends the only CLOSE. */
  lemma PauseMeetsEnd() returns (steps: seq<Step>, s: State, before: seq<Msg>)
    ensures IsRun(steps, s) && s.toMac == before + [Other, Close(1)]
    ensures s.vm.pauser == PauseDone && s.vm.open == {} && s.vm.writers == {} && UplinkAt(s.vm, 1, UplinkDone)
  {
    hide IsRun;
    steps, s := PausePassesBy();
    before := s.toMac;
    steps, s := PauseEnds(steps, s);
    steps, s := UplinkCloses(steps, s);
    assert before + [Other] + [Close(1)] == before + [Other, Close(1)];
  }
}
