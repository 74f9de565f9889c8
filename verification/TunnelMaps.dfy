/**
  What the maps and flags that the threads share hold, id by id, in terms of the frames sent and read.
  */
module TunnelMaps {
  import opened Prelude
  import opened TunnelState
  import opened TunnelPhases
  import opened TunnelSafety

  predicate IsClosed(p: Out) { p == Closed || p == Trailing }

  predicate PauserDropped(vm: Vm, id: nat) {
    (vm.pauser.PauseSend? || vm.pauser.PauseForget?) && vm.pauser.id == id
  }

  /** The VM: an id waits exactly for the Mac's answer, and a retired or paused id has no writer. */
  predicate VmMaps(vm: Vm, id: nat, heard: Back) {
    && (id in vm.waiting ==> heard == Silent && id in vm.open)
    && (PauserDropped(vm, id) ==> id !in vm.writers)
    && (heard == Ended && !vm.reader.VmFailed? ==> !PauserCloses(vm, id) && !(vm.pauser.PauseRemove? && vm.pauser.id == id))
    && (heard == Ended && !vm.reader.VmFailed? && vm.reader != Retiring(id) ==> id !in vm.writers)
    && (vm.reader == Forgetting(id) ==> id !in vm.writers)
  }

  /** The Mac: only open ids have writers, and a flag is set once the VM's CLOSE is read or the Mac's own is due. */
  predicate MacMaps(mac: Mac, id: nat, taken: Out, back: Back) {
    && (id in mac.writers ==> id in mac.open)
    && (IsClosed(taken) && id in mac.uplinks ==> id in mac.closed)
    && (MacUplinkAt(mac, id, MacSwapped) || back == Ended ==> id in mac.closed)
    && (id in mac.closed ==> IsClosed(taken) || MacUplinkAt(mac, id, MacSwapped) || MacUplinkAt(mac, id, MacUplinkDone))
    && (id in mac.closed ==> id in mac.uplinks)
  }

  ghost predicate MapInv(s: State, id: nat)
    requires s.macRead <= |s.toMac| && s.vmRead <= |s.toVm|
  {
    && VmMaps(s.vm, id, BackPhase(s.toVm[..s.vmRead], id))
    && MacMaps(s.mac, id, OutPhase(s.toMac[..s.macRead], id), BackPhase(s.toVm, id))
  }

  // ----- Steps -----

  lemma PauserKeepsMaps(vm: Vm, a: VmAction, id: nat, out: Out, heard: Back)
    requires a.PauseBegin? || a.TakeSnapshot? || a.PauseRelease? || a.PauseRemoveWriter? || a.PauseSendClose?
          || a.PauseForgetWaiting? || a.PauseEnd?
    requires VmSide(vm, id, out, heard) && VmCan(vm, a) && VmMaps(vm, id, heard)
    ensures VmMaps(VmDo(vm, a), id, heard)
  {
  }

  lemma ReaderKeepsMaps(vm: Vm, a: VmAction, id: nat, out: Out, heard: Back)
    requires a.InsertWriter? || a.LoseWriter? || a.RemoveWriter? || a.ForgetWaiting?
    requires VmSide(vm, id, out, heard) && VmCan(vm, a) && VmMaps(vm, id, heard)
    ensures VmMaps(VmDo(vm, a), id, heard)
  {
  }

  lemma OthersKeepMaps(vm: Vm, a: VmAction, id: nat, out: Out, heard: Back)
    requires a.Accept? || a.Alloc? || a.Park? || a.SendOpen? || a.HaltAccept? || a.UpCheck? || a.UpSend? || a.UpCount?
          || a.UpEnd? || a.UpRelease? || a.UpClose? || a.UpHalt? || a.SetStop? || a.VmSendOther?
    requires VmSide(vm, id, out, heard) && VmCan(vm, a) && VmMaps(vm, id, heard)
    ensures VmMaps(VmDo(vm, a), id, heard)
  {
  }

  lemma VmKeepsMaps(vm: Vm, a: VmAction, id: nat, out: Out, heard: Back)
    requires VmSide(vm, id, out, heard) && VmCan(vm, a) && VmMaps(vm, id, heard)
    ensures VmMaps(VmDo(vm, a), id, heard)
  {
    hide VmSide, VmMaps;
    match a {
      case PauseBegin | TakeSnapshot | PauseRelease(_) | PauseRemoveWriter | PauseSendClose | PauseForgetWaiting | PauseEnd =>
        PauserKeepsMaps(vm, a, id, out, heard);
      case InsertWriter | LoseWriter | RemoveWriter | ForgetWaiting => ReaderKeepsMaps(vm, a, id, out, heard);
      case _ => OthersKeepMaps(vm, a, id, out, heard);
    }
  }

  lemma VmReadKeepsMaps(vm: Vm, m: Msg, id: nat, out: Out, heard: Back)
    requires VmSide(vm, id, out, heard) && VmMaps(vm, id, heard) && vm.reader == Reading
    requires BackStep(heard, m, id) != BackBad && (BackStep(heard, m, id) != Silent ==> out != Unsent)
    ensures VmMaps(OnVmFrame(vm, m), id, BackStep(heard, m, id))
  {
  }

  lemma MacKeepsMaps(mac: Mac, a: MacAction, id: nat, taken: Out, back: Back)
    requires MacSide(mac, id, taken, back) && MacCan(mac, a) && MacMaps(mac, id, taken, back) && back != BackBad
    ensures MacMaps(MacDo(mac, a), id, taken, BackAfter(back, MacSends(mac, a), id))
  {
  }

  lemma MacReadKeepsMaps(mac: Mac, m: Msg, dial: Dial, id: nat, taken: Out, back: Back)
    requires MacSide(mac, id, taken, back) && MacMaps(mac, id, taken, back) && mac.status == MacRunning
    requires back != BackBad && OutStep(taken, m, id) != OutBad
    requires OnMacFrame(mac, m, dial).status != MacProtocolError
    ensures MacMaps(OnMacFrame(mac, m, dial), id, OutStep(taken, m, id), BackAfter(back, MacAnswers(mac, m, dial), id))
  {
  }

  lemma VmStepKeepsMaps(s: State, step: Step, id: nat)
    requires Inv(s) && Enabled(s, step) && MapInv(s, id) && (step.VmDoes? || step.VmRead? || step.VmSkipData?)
    ensures Inv(Apply(s, step)) && MapInv(Apply(s, step), id)
  {
    StepKeepsInv(s, step);
    assert IdInv(s, id);
    var out, heard := OutPhase(s.toMac, id), BackPhase(s.toVm[..s.vmRead], id);
    if step.VmDoes? {
      OutLog(s.toMac, VmSends(s.vm, step.vmAction), s.macRead, id);
      hide VmSide, MacSide, VmMaps, MacMaps, OutPhase, BackPhase, Globals;
      VmKeepsMaps(s.vm, step.vmAction, id, out, heard);
    } else {
      HeardIsSent(s, s.vmRead + 1, id);
      BackRead(s.toVm, s.vmRead, id);
      hide VmSide, MacSide, MacMaps, OutPhase, BackPhase, Globals, OnVmFrame;
      if step.VmRead? { VmReadKeepsMaps(s.vm, s.toVm[s.vmRead], id, out, heard); }
    }
  }

  lemma MacStepKeepsMaps(s: State, step: Step, id: nat)
    requires Inv(s) && Enabled(s, step) && MapInv(s, id) && (step.MacDoes? || step.MacRead?)
    ensures Inv(Apply(s, step)) && MapInv(Apply(s, step), id)
  {
    StepKeepsInv(s, step);
    assert IdInv(s, id);
    var taken, back := OutPhase(s.toMac[..s.macRead], id), BackPhase(s.toVm, id);
    if step.MacDoes? {
      BackLog(s.toVm, MacSends(s.mac, step.macAction), s.vmRead, id);
      hide VmSide, MacSide, VmMaps, MacMaps, OutPhase, BackPhase, Globals;
      MacKeepsMaps(s.mac, step.macAction, id, taken, back);
    } else {
      var m := s.toMac[s.macRead];
      if OnMacFrame(s.mac, m, step.dial).status == MacProtocolError {
        RejectionKeepsMaps(s.mac, m, step.dial, id, taken, back);
        hide VmSide, MacSide, VmMaps, MacMaps, OutPhase, BackPhase, Globals;
      } else {
        OutPrefix(s.toMac, s.macRead + 1, id);
        OutRead(s.toMac, s.macRead, id);
        BackLog(s.toVm, MacAnswers(s.mac, m, step.dial), s.vmRead, id);
        hide VmSide, MacSide, VmMaps, MacMaps, OutPhase, BackPhase, Globals, OnMacFrame;
        MacReadKeepsMaps(s.mac, m, step.dial, id, taken, back);
      }
    }
  }

  lemma RejectionKeepsMaps(mac: Mac, m: Msg, dial: Dial, id: nat, taken: Out, back: Back)
    requires MacMaps(mac, id, taken, back) && OnMacFrame(mac, m, dial).status == MacProtocolError
    requires mac.status == MacRunning
    ensures MacMaps(OnMacFrame(mac, m, dial), id, taken, back)
  {
  }

  lemma StepKeepsMaps(s: State, step: Step, id: nat)
    requires Inv(s) && Enabled(s, step) && MapInv(s, id)
    ensures Inv(Apply(s, step)) && MapInv(Apply(s, step), id)
  {
    hide Inv, MapInv, Apply, Enabled;
    match step {
      case VmDoes(_) | VmRead | VmSkipData => VmStepKeepsMaps(s, step, id);
      case MacDoes(_) | MacRead(_) => MacStepKeepsMaps(s, step, id);
    }
  }

  lemma {:induction false} RunKeepsMaps(steps: seq<Step>, s: State, id: nat)
    requires IsRun(steps, s)
    ensures Inv(s) && MapInv(s, id)
    decreases |steps|
  {
    if steps == [] {
      Start();
      assert INITIAL.toMac[..0] == [] && INITIAL.toVm[..0] == [];
    } else {
      var last := steps[|steps| - 1];
      var before :| IsRun(steps[..|steps| - 1], before) && Enabled(before, last) && s == Apply(before, last);
      RunKeepsMaps(steps[..|steps| - 1], before, id);
      StepKeepsMaps(before, last, id);
    }
  }

  // ----- In every run -----

  /** The Mac's maps: an id is open exactly from its OPEN to the VM's CLOSE unless it was refused; while the Mac runs,
      exactly the open ids have writers; and the flag of an uplink is set exactly when the VM's CLOSE was read or the
      uplink has ended on its own. */
  lemma MacMapsAre(steps: seq<Step>, s: State, id: nat)
    requires IsRun(steps, s)
    ensures s.macRead <= |s.toMac|
    ensures id in s.mac.open <==> IsOpen(OutPhase(s.toMac[..s.macRead], id)) && BackPhase(s.toVm, id) != Failed
    ensures s.mac.status == MacRunning ==> (id in s.mac.writers <==> id in s.mac.open)
    ensures IsClosed(OutPhase(s.toMac[..s.macRead], id)) && id in s.mac.uplinks ==> id in s.mac.closed
    ensures MacUplinkAt(s.mac, id, MacSwapped) || BackPhase(s.toVm, id) == Ended ==> id in s.mac.closed
    ensures id in s.mac.closed ==>
              || IsClosed(OutPhase(s.toMac[..s.macRead], id))
              || MacUplinkAt(s.mac, id, MacSwapped) || MacUplinkAt(s.mac, id, MacUplinkDone)
  {
    hide IsRun;
    RunKeepsMaps(steps, s, id);
    assert IdInv(s, id);
    hide OutPhase, BackPhase;
  }

  /** The VM's maps: an id waits from the moment it is parked until the Mac's answer is read; and once the Mac's CLOSE was
      read and dealt with, the id is not open and has no writer, and its uplink is told. */
  lemma VmMapsAre(steps: seq<Step>, s: State, id: nat)
    requires IsRun(steps, s)
    ensures s.vmRead <= |s.toVm|
    ensures id in s.vm.waiting ==> BackPhase(s.toVm[..s.vmRead], id) == Silent && id in s.vm.open
    ensures OutPhase(s.toMac, id) != Unsent && BackPhase(s.toVm[..s.vmRead], id) == Silent ==> id in s.vm.waiting
    ensures BackPhase(s.toVm[..s.vmRead], id) == Ended && s.vm.reader == Reading ==>
              id !in s.vm.open && id !in s.vm.writers && (id in s.vm.uplinks ==> id in s.vm.closed)
    ensures PauserDropped(s.vm, id) ==> id !in s.vm.writers
  {
    hide IsRun;
    RunKeepsMaps(steps, s, id);
    assert IdInv(s, id);
    hide OutPhase, BackPhase;
  }
}
