/**
  What a side still says about a connection once it has been told to stop: at most the one frame that its uplink already
  had in hand.
  */
module TunnelCloses {
  import opened Prelude
  import opened TunnelState
  import opened TunnelPhases
  import opened TunnelSafety
  import opened TunnelMaps
  import opened TunnelRuns
  import opened TunnelLeaks

  function CountAbout(log: seq<Msg>, id: nat): nat {
    if log == [] then 0 else CountAbout(log[..|log| - 1], id) + if About(log[|log| - 1], id) then 1 else 0
  }

  function CountData(log: seq<Msg>, id: nat): nat {
    if log == [] then 0 else CountData(log[..|log| - 1], id) + if log[|log| - 1] == Data(id) then 1 else 0
  }

  lemma CountsAppend(log: seq<Msg>, m: Msg, id: nat)
    ensures CountAbout(log + [m], id) == CountAbout(log, id) + if About(m, id) then 1 else 0
    ensures CountData(log + [m], id) == CountData(log, id) + if m == Data(id) then 1 else 0
    ensures OpenCount(log + [m]) == OpenCount(log) + if m.Open? then 1 else 0
  {
    assert (log + [m])[..|log|] == log;
  }

  lemma {:induction false} CountsSplit(a: seq<Msg>, b: seq<Msg>, id: nat)
    ensures CountAbout(a + b, id) == CountAbout(a, id) + CountAbout(b, id)
    ensures CountData(a + b, id) == CountData(a, id) + CountData(b, id)
    ensures OpenCount(a + b) == OpenCount(a) + OpenCount(b)
    decreases |b|
  {
    if b == [] {
      assert a + b == a;
    } else {
      var init, last := b[..|b| - 1], b[|b| - 1];
      CountsSplit(a, init, id);
      CountsAppend(a + init, last, id);
      CountsAppend(init, last, id);
      assert a + b == a + init + [last] && init + [last] == b;
    }
  }

  /** `later` has the same log and more. */
  function Added(log: seq<Msg>, later: seq<Msg>): seq<Msg> {
    if log <= later then later[|log|..] else []
  }

  // ----- The Mac, after the VM's CLOSE -----

  function MacOwes(mac: Mac, id: nat): nat {
    if MacUplinkAt(mac, id, MacChecked) || MacUplinkAt(mac, id, MacSwapped) then 1 else 0
  }

  /** The VM's CLOSE was read, and the uplink is told. */
  predicate MacTold(mac: Mac, id: nat, taken: Out) { IsClosed(taken) && (id in mac.uplinks ==> id in mac.closed) }

  lemma MacDoesTold(mac: Mac, a: MacAction, id: nat, taken: Out)
    requires MacTold(mac, id, taken) && MacCan(mac, a)
    ensures var after, m := MacDo(mac, a), MacSends(mac, a);
            && MacTold(after, id, taken)
            && (if m.Some? && About(m.value, id) then 1 else 0) + MacOwes(after, id) <= MacOwes(mac, id)
            && (m == Some(Close(id)) || MacUplinkAt(after, id, MacSwapped) ==> MacUplinkAt(mac, id, MacSwapped))
  {
  }

  lemma MacReadsTold(mac: Mac, m: Msg, dial: Dial, id: nat, taken: Out)
    requires MacTold(mac, id, taken) && OutStep(taken, m, id) != OutBad
    ensures var after, answer := OnMacFrame(mac, m, dial), MacAnswers(mac, m, dial);
            && MacTold(after, id, OutStep(taken, m, id)) && MacTold(after, id, taken)
            && (answer.Some? ==> !About(answer.value, id))
            && MacOwes(after, id) == MacOwes(mac, id)
            && (MacUplinkAt(after, id, MacSwapped) ==> MacUplinkAt(mac, id, MacSwapped))
  {
  }

  /** The log of the Mac and what it may still add, for one step. */
  ghost predicate MacSaysLess(s: State, after: State, id: nat)
  {
    && s.macRead <= |s.toMac| && after.macRead <= |after.toMac|
    && MacTold(after.mac, id, OutPhase(after.toMac[..after.macRead], id))
    && s.toVm <= after.toVm
    && CountAbout(after.toVm, id) + MacOwes(after.mac, id) <= CountAbout(s.toVm, id) + MacOwes(s.mac, id)
    && (Close(id) in Added(s.toVm, after.toVm) || MacUplinkAt(after.mac, id, MacSwapped) ==>
          MacUplinkAt(s.mac, id, MacSwapped))
  }

  lemma LogMore(log: seq<Msg>, m: Option<Msg>, id: nat)
    ensures log <= Log(log, m) && Added(log, Log(log, m)) == (if m.Some? then [m.value] else [])
    ensures CountAbout(Log(log, m), id) == CountAbout(log, id) + if m.Some? && About(m.value, id) then 1 else 0
    ensures CountData(Log(log, m), id) == CountData(log, id) + if m == Some(Data(id)) then 1 else 0
    ensures OpenCount(Log(log, m)) == OpenCount(log) + if m.Some? && m.value.Open? then 1 else 0
  {
    if m.Some? { CountsAppend(log, m.value, id); }
  }

  lemma MacActionSaysLess(s: State, a: MacAction, id: nat)
    requires Inv(s) && MacCan(s.mac, a) && MacTold(s.mac, id, OutPhase(s.toMac[..s.macRead], id))
    ensures MacSaysLess(s, Apply(s, MacDoes(a)), id)
  {
    hide Inv, OutPhase, CountAbout, MacDo, MacSends, MacTold, MacOwes;
    InBounds(s);
    MacDoesTold(s.mac, a, id, OutPhase(s.toMac[..s.macRead], id));
    LogMore(s.toVm, MacSends(s.mac, a), id);
  }

  lemma NextTaken(s: State, id: nat)
    requires Inv(s) && s.macRead < |s.toMac|
    ensures OutPhase(s.toMac[..s.macRead + 1], id) == OutStep(OutPhase(s.toMac[..s.macRead], id), s.toMac[s.macRead], id)
    ensures OutPhase(s.toMac[..s.macRead + 1], id) != OutBad
  {
    assert IdInv(s, id);
    OutPrefix(s.toMac, s.macRead + 1, id);
    OutRead(s.toMac, s.macRead, id);
    hide OutPhase, BackPhase, VmSide, MacSide;
  }

  lemma MacFrameSaysLess(s: State, dial: Dial, id: nat)
    requires Inv(s) && Enabled(s, MacRead(dial)) && MacTold(s.mac, id, OutPhase(s.toMac[..s.macRead], id))
    ensures MacSaysLess(s, Apply(s, MacRead(dial)), id)
  {
    hide Inv, OutPhase, CountAbout, OnMacFrame, MacAnswers, MacTold, MacOwes, OutStep;
    InBounds(s);
    var m := s.toMac[s.macRead];
    NextTaken(s, id);
    MacReadsTold(s.mac, m, dial, id, OutPhase(s.toMac[..s.macRead], id));
    LogMore(s.toVm, MacAnswers(s.mac, m, dial), id);
    assert Added(s.toVm, s.toVm) == [];
  }

  lemma MacStepSaysLess(s: State, step: Step, id: nat)
    requires Inv(s) && Enabled(s, step) && MacTold(s.mac, id, OutPhase(s.toMac[..s.macRead], id))
    ensures MacSaysLess(s, Apply(s, step), id)
  {
    match step
    case MacDoes(a) => MacActionSaysLess(s, a, id);
    case MacRead(dial) => MacFrameSaysLess(s, dial, id);
    case VmDoes(a) =>
      OutLog(s.toMac, VmSends(s.vm, a), s.macRead, id);
      hide OutPhase, CountAbout, IdInv, VmDo, VmSends, MacTold, MacOwes, VmGlobals;
    case _ =>
      hide OutPhase, CountAbout, IdInv, OnVmFrame, MacTold, MacOwes, VmGlobals;
  }

  lemma AddedMore(a: seq<Msg>, b: seq<Msg>, c: seq<Msg>)
    requires a <= b <= c
    ensures a <= c && Added(a, c) == Added(a, b) + Added(b, c)
  {
  }

  lemma {:induction false} MacLeadsSaysLess(s: State, steps: seq<Step>, later: State, id: nat)
    requires Inv(s) && MacTold(s.mac, id, OutPhase(s.toMac[..s.macRead], id)) && Leads(s, steps, later)
    ensures Inv(later) && MacSaysLess(s, later, id)
    decreases |steps|
  {
    hide Inv, MacTold, OutPhase, CountAbout;
    InBounds(s);
    if steps == [] {
      assert Added(s.toVm, s.toVm) == [];
    } else {
      var last := steps[|steps| - 1];
      var before :| Leads(s, steps[..|steps| - 1], before) && Enabled(before, last) && later == Apply(before, last);
      MacLeadsSaysLess(s, steps[..|steps| - 1], before, id);
      StepKeepsInv(before, last);
      MacStepSaysLess(before, last, id);
      AddedMore(s.toVm, before.toVm, later.toVm);
    }
  }

  lemma {:induction false} ClosedIsRead(log: seq<Msg>, id: nat)
    requires OutPhase(log, id) != OutBad
    ensures Close(id) in log <==> IsClosed(OutPhase(log, id))
    decreases |log|
  {
    if log != [] {
      var init, last := log[..|log| - 1], log[|log| - 1];
      ClosedIsRead(init, id);
      assert log == init + [last];
    }
  }

  lemma MacIsTold(steps: seq<Step>, s: State, id: nat)
    requires IsRun(steps, s) && s.macRead <= |s.toMac| && Close(id) in s.toMac[..s.macRead]
    ensures Inv(s) && MacTold(s.mac, id, OutPhase(s.toMac[..s.macRead], id))
  {
    hide IsRun;
    RunKeepsMaps(steps, s, id);
    assert IdInv(s, id);
    OutPrefix(s.toMac, s.macRead, id);
    ClosedIsRead(s.toMac[..s.macRead], id);
    hide OutPhase, BackPhase, VmSide, MacSide, VmMaps;
  }

  /** Once the Mac has read CLOSE for an id, every continuation adds at most one frame of the Mac about it, the one that
      its uplink has in hand, and a CLOSE only if the uplink had already swapped its flag. */
  lemma MacStopsAfterClose(steps: seq<Step>, s: State, id: nat, more: seq<Step>, later: State)
    requires IsRun(steps, s) && s.macRead <= |s.toMac| && Close(id) in s.toMac[..s.macRead] && Leads(s, more, later)
    ensures s.toVm <= later.toVm
    ensures CountAbout(later.toVm[|s.toVm|..], id) <= MacOwes(s.mac, id) <= 1
    ensures Close(id) in later.toVm[|s.toVm|..] ==> MacUplinkAt(s.mac, id, MacSwapped)
  {
    hide IsRun, Leads, OutPhase, CountAbout, MacTold, Inv;
    MacIsTold(steps, s, id);
    MacLeadsSaysLess(s, more, later, id);
    assert s.toVm + later.toVm[|s.toVm|..] == later.toVm;
    CountsSplit(s.toVm, later.toVm[|s.toVm|..], id);
  }

  // ----- The VM, after the Mac's CLOSE -----

  function VmOwes(vm: Vm, id: nat): nat {
    if UplinkAt(vm, id, Checked) || UplinkAt(vm, id, Swapped) || UplinkAt(vm, id, Released) then 1 else 0
  }

  /** The Mac's CLOSE was read, and no thread but the uplink has anything to do with the id. */
  predicate VmTold(vm: Vm, id: nat, heard: Back) {
    && heard == Ended && id !in vm.open && (id in vm.uplinks ==> id in vm.closed)
    && !PauserCloses(vm, id) && !(vm.pauser.PauseRemove? && vm.pauser.id == id)
  }

  predicate IsClosing(vm: Vm, id: nat) { UplinkAt(vm, id, Swapped) || UplinkAt(vm, id, Released) }

  /** What one action of the VM may say about a told id. */
  predicate SaysLess(vm: Vm, a: VmAction, id: nat, heard: Back)
    requires VmCan(vm, a)
  {
    var after, m := VmDo(vm, a), VmSends(vm, a);
    && VmTold(after, id, heard)
    && (if m.Some? && About(m.value, id) then 1 else 0) + VmOwes(after, id) <= VmOwes(vm, id)
    && (m == Some(Close(id)) || IsClosing(after, id) ==> IsClosing(vm, id))
  }

  lemma UplinksSayLess(vm: Vm, a: VmAction, id: nat, out: Out, heard: Back)
    requires a.UpCheck? || a.UpSend? || a.UpCount? || a.UpEnd? || a.UpRelease? || a.UpClose? || a.UpHalt?
    requires VmSide(vm, id, out, heard) && VmCan(vm, a) && VmTold(vm, id, heard) && (a == Alloc ==> id != vm.next)
    ensures SaysLess(vm, a, id, heard)
  {
  }

  lemma PauserSaysLess(vm: Vm, a: VmAction, id: nat, out: Out, heard: Back)
    requires a.PauseRelease? || a.PauseRemoveWriter? || a.PauseSendClose? || a.PauseForgetWaiting?
    requires VmSide(vm, id, out, heard) && VmCan(vm, a) && VmTold(vm, id, heard) && (a == Alloc ==> id != vm.next)
    ensures SaysLess(vm, a, id, heard)
  {
  }

  lemma StopSaysLess(vm: Vm, a: VmAction, id: nat, out: Out, heard: Back)
    requires a.SetStop? || a.PauseBegin? || a.TakeSnapshot? || a.PauseEnd? || a.VmSendOther?
    requires VmSide(vm, id, out, heard) && VmCan(vm, a) && VmTold(vm, id, heard) && (a == Alloc ==> id != vm.next)
    ensures SaysLess(vm, a, id, heard)
  {
  }

  lemma OthersSayLess(vm: Vm, a: VmAction, id: nat, out: Out, heard: Back)
    requires a.Accept? || a.Alloc? || a.Park? || a.SendOpen? || a.HaltAccept?
          || a.InsertWriter? || a.LoseWriter? || a.RemoveWriter? || a.ForgetWaiting?
    requires VmSide(vm, id, out, heard) && VmCan(vm, a) && VmTold(vm, id, heard) && (a == Alloc ==> id != vm.next)
    ensures SaysLess(vm, a, id, heard)
  {
  }

  lemma VmDoesTold(vm: Vm, a: VmAction, id: nat, out: Out, heard: Back)
    requires VmSide(vm, id, out, heard) && VmCan(vm, a) && VmTold(vm, id, heard) && (a == Alloc ==> id != vm.next)
    ensures SaysLess(vm, a, id, heard)
  {
    hide VmSide, VmTold, SaysLess;
    match a {
      case UpCheck(_) | UpSend(_) | UpCount(_) | UpEnd(_) | UpRelease(_) | UpClose(_) | UpHalt(_) =>
        UplinksSayLess(vm, a, id, out, heard);
      case Accept | Alloc | Park | SendOpen | HaltAccept | InsertWriter | LoseWriter | RemoveWriter | ForgetWaiting =>
        OthersSayLess(vm, a, id, out, heard);
      case PauseRelease(_) | PauseRemoveWriter | PauseSendClose | PauseForgetWaiting => PauserSaysLess(vm, a, id, out, heard);
      case _ => StopSaysLess(vm, a, id, out, heard);
    }
  }

  lemma VmReadsTold(vm: Vm, m: Msg, id: nat, heard: Back)
    requires VmTold(vm, id, heard) && BackStep(heard, m, id) != BackBad
    ensures BackStep(heard, m, id) == heard && VmTold(OnVmFrame(vm, m), id, heard)
    ensures OnVmFrame(vm, m).uplinks == vm.uplinks
  {
  }

  ghost predicate VmSaysLess(s: State, after: State, id: nat) {
    && s.vmRead <= |s.toVm| && after.vmRead <= |after.toVm|
    && VmTold(after.vm, id, BackPhase(after.toVm[..after.vmRead], id))
    && s.toMac <= after.toMac
    && CountAbout(after.toMac, id) + VmOwes(after.vm, id) <= CountAbout(s.toMac, id) + VmOwes(s.vm, id)
    && (Close(id) in Added(s.toMac, after.toMac) || IsClosing(after.vm, id) ==> IsClosing(s.vm, id))
  }

  lemma SideOf(s: State, a: VmAction, id: nat)
    requires Inv(s) && VmCan(s.vm, a)
    ensures s.vmRead <= |s.toVm| && VmSide(s.vm, id, OutPhase(s.toMac, id), BackPhase(s.toVm[..s.vmRead], id))
    ensures a == Alloc && id == s.vm.next ==> OutPhase(s.toMac, id) == Unsent
  {
    assert IdInv(s, id);
    if a == Alloc { OpenedIffCounted(s.toMac, id); }
    hide OutPhase, BackPhase, VmSide, MacSide;
  }

  lemma HeardIsOpened(vm: Vm, id: nat, out: Out, heard: Back)
    requires VmSide(vm, id, out, heard) && VmTold(vm, id, heard)
    ensures out != Unsent
  {
  }

  lemma VmActionSaysLess(s: State, a: VmAction, id: nat)
    requires Inv(s) && VmCan(s.vm, a) && VmTold(s.vm, id, BackPhase(s.toVm[..s.vmRead], id))
    ensures VmSaysLess(s, Apply(s, VmDoes(a)), id)
  {
    hide Inv, OutPhase, BackPhase, CountAbout, VmSide, VmCan, VmDo, VmSends, VmTold, IsClosing, VmOwes;
    SideOf(s, a, id);
    HeardIsOpened(s.vm, id, OutPhase(s.toMac, id), BackPhase(s.toVm[..s.vmRead], id));
    VmDoesTold(s.vm, a, id, OutPhase(s.toMac, id), BackPhase(s.toVm[..s.vmRead], id));
    LogMore(s.toMac, VmSends(s.vm, a), id);
  }

  lemma VmStepSaysLess(s: State, step: Step, id: nat)
    requires Inv(s) && Enabled(s, step) && VmTold(s.vm, id, BackPhase(s.toVm[..s.vmRead], id))
    ensures VmSaysLess(s, Apply(s, step), id)
  {
    var heard := BackPhase(s.toVm[..s.vmRead], id);
    match step
    case VmDoes(a) => VmActionSaysLess(s, a, id);
    case MacDoes(a) =>
      BackLog(s.toVm, MacSends(s.mac, a), s.vmRead, id);
      hide BackPhase, CountAbout, IdInv, MacDo, MacSends, VmGlobals;
    case MacRead(dial) =>
      BackLog(s.toVm, MacAnswers(s.mac, s.toMac[s.macRead], dial), s.vmRead, id);
      hide BackPhase, CountAbout, IdInv, OnMacFrame, MacAnswers, VmGlobals;
    case _ =>
      HeardIsSent(s, s.vmRead + 1, id);
      BackRead(s.toVm, s.vmRead, id);
      VmReadsTold(s.vm, s.toVm[s.vmRead], id, heard);
      hide BackPhase, CountAbout, IdInv, OnVmFrame, VmTold, VmGlobals;
  }

  lemma {:induction false} VmLeadsSaysLess(s: State, steps: seq<Step>, later: State, id: nat)
    requires Inv(s) && s.vmRead <= |s.toVm| && VmTold(s.vm, id, BackPhase(s.toVm[..s.vmRead], id)) && Leads(s, steps, later)
    ensures Inv(later) && VmSaysLess(s, later, id)
    decreases |steps|
  {
    hide Inv, VmTold, BackPhase, CountAbout, VmOwes, IsClosing;
    if steps == [] {
      assert Added(s.toMac, s.toMac) == [];
    } else {
      var last := steps[|steps| - 1];
      var before :| Leads(s, steps[..|steps| - 1], before) && Enabled(before, last) && later == Apply(before, last);
      VmLeadsSaysLess(s, steps[..|steps| - 1], before, id);
      StepKeepsInv(before, last);
      VmStepSaysLess(before, last, id);
      AddedMore(s.toMac, before.toMac, later.toMac);
    }
  }

  lemma {:induction false} EndedIsRead(log: seq<Msg>, id: nat)
    requires BackPhase(log, id) != BackBad
    ensures Close(id) in log <==> BackPhase(log, id) == Ended
    decreases |log|
  {
    if log != [] {
      var init, last := log[..|log| - 1], log[|log| - 1];
      EndedIsRead(init, id);
      assert log == init + [last];
    }
  }

  lemma VmIsTold(steps: seq<Step>, s: State, id: nat)
    requires IsRun(steps, s) && s.vmRead <= |s.toVm| && Close(id) in s.toVm[..s.vmRead] && s.vm.reader == Reading
    ensures Inv(s) && VmTold(s.vm, id, BackPhase(s.toVm[..s.vmRead], id))
  {
    hide IsRun;
    RunKeepsMaps(steps, s, id);
    assert IdInv(s, id);
    BackPrefix(s.toVm, s.vmRead, id);
    EndedIsRead(s.toVm[..s.vmRead], id);
    hide OutPhase, BackPhase, MacSide, MacMaps;
  }

  /** Once the VM's session thread has read CLOSE for an id and is reading again, every continuation adds at most one frame
      of the VM about it, and a CLOSE only if its uplink was already closing. */
  lemma VmStopsAfterClose(steps: seq<Step>, s: State, id: nat, more: seq<Step>, later: State)
    requires IsRun(steps, s) && s.vmRead <= |s.toVm| && Close(id) in s.toVm[..s.vmRead] && s.vm.reader == Reading
    requires Leads(s, more, later)
    ensures s.toMac <= later.toMac
    ensures CountAbout(later.toMac[|s.toMac|..], id) <= VmOwes(s.vm, id) <= 1
    ensures Close(id) in later.toMac[|s.toMac|..] ==> IsClosing(s.vm, id)
  {
    hide IsRun, Leads, BackPhase, CountAbout, VmTold, Inv, IsClosing;
    VmIsTold(steps, s, id);
    VmLeadsSaysLess(s, more, later, id);
    assert s.toMac + later.toMac[|s.toMac|..] == later.toMac;
    CountsSplit(s.toMac, later.toMac[|s.toMac|..], id);
  }

  // ----- The VM, after it is stopped -----

  function DataOwed(vm: Vm, id: nat): nat { if UplinkAt(vm, id, Checked) then 1 else 0 }

  function OpenOwed(vm: Vm): nat {
    if vm.acceptor.Accepting? || vm.acceptor.Allocated? || vm.acceptor.Parked? then 1 else 0
  }

  ghost predicate Stopping(s: State, after: State, id: nat) {
    && after.vm.stop && s.toMac <= after.toMac
    && CountData(after.toMac, id) + DataOwed(after.vm, id) <= CountData(s.toMac, id) + DataOwed(s.vm, id)
    && OpenCount(after.toMac) + OpenOwed(after.vm) <= OpenCount(s.toMac) + OpenOwed(s.vm)
  }

  lemma StoppedDoes(vm: Vm, a: VmAction, id: nat)
    requires vm.stop && VmCan(vm, a)
    ensures var after, m := VmDo(vm, a), VmSends(vm, a);
            && after.stop
            && (if m == Some(Data(id)) then 1 else 0) + DataOwed(after, id) <= DataOwed(vm, id)
            && (if m.Some? && m.value.Open? then 1 else 0) + OpenOwed(after) <= OpenOwed(vm)
  {
  }

  lemma StoppedStep(s: State, step: Step, id: nat)
    requires s.vm.stop && Enabled(s, step)
    ensures Stopping(s, Apply(s, step), id)
  {
    if step.VmDoes? {
      StoppedDoes(s.vm, step.vmAction, id);
      LogMore(s.toMac, VmSends(s.vm, step.vmAction), id);
      hide VmDo, VmSends, CountData, OpenCount, DataOwed, OpenOwed;
    } else {
      hide CountData, OpenCount, OnMacFrame, MacDo;
    }
    hide CountData, OpenCount;
  }

  /** After the VM is stopped, whatever follows: at most one more OPEN, and for each id at most one more DATA. */
  lemma {:induction false} StopEndsTraffic(s: State, steps: seq<Step>, later: State, id: nat)
    requires s.vm.stop && Leads(s, steps, later)
    ensures Stopping(s, later, id)
    ensures OpenCount(later.toMac[|s.toMac|..]) <= OpenOwed(s.vm) <= 1
    ensures CountData(later.toMac[|s.toMac|..], id) <= DataOwed(s.vm, id) <= 1
    decreases |steps|
  {
    if steps != [] {
      hide Enabled, Apply, CountData, OpenCount, DataOwed, OpenOwed;
      var last := steps[|steps| - 1];
      var before :| Leads(s, steps[..|steps| - 1], before) && Enabled(before, last) && later == Apply(before, last);
      StopEndsTraffic(s, steps[..|steps| - 1], before, id);
      StoppedStep(before, last, id);
    }
    hide CountData, OpenCount;
    assert s.toMac + later.toMac[|s.toMac|..] == later.toMac;
    CountsSplit(s.toMac, later.toMac[|s.toMac|..], id);
  }
}
