/**
  Ids that only the Mac keeps. When the Mac's local socket ends first, the Mac sends CLOSE and does not release its own
  id; the VM releases the id and answers nothing.
  */
module TunnelLeaks {
  import opened TunnelState
  import opened TunnelPhases
  import opened TunnelSafety
  import opened TunnelRuns

  /** The steps lead from `s` to `later`. */
  ghost predicate Leads(s: State, steps: seq<Step>, later: State) {
    if steps == [] then later == s
    else
      var last := steps[|steps| - 1];
      exists before :: Leads(s, steps[..|steps| - 1], before) && Enabled(before, last) && later == Apply(before, last)
  }

  // ----- Leaks -----

  /** The VM has let the id go after the Mac's CLOSE, and no thread of it will send a CLOSE any more. */
  predicate LetGo(vm: Vm, id: nat, out: Out, heard: Back) {
    && id !in vm.open && IsOpen(out) && heard == Ended
    && (id in vm.closed || id !in vm.uplinks)
    && !UplinkAt(vm, id, Swapped) && !UplinkAt(vm, id, Released) && !PauserCloses(vm, id)
  }

  ghost predicate Leaked(s: State, id: nat)
    requires s.vmRead <= |s.toVm|
  {
    id in s.mac.open && LetGo(s.vm, id, OutPhase(s.toMac, id), BackPhase(s.toVm[..s.vmRead], id))
  }

  lemma UplinkKeepsLetGo(vm: Vm, a: VmAction, id: nat, out: Out, heard: Back)
    requires a.UpCheck? || a.UpSend? || a.UpCount? || a.UpEnd? || a.UpRelease? || a.UpClose? || a.UpHalt?
    requires VmSide(vm, id, out, heard) && VmCan(vm, a) && LetGo(vm, id, out, heard)
    requires a == Alloc ==> id != vm.next
    ensures LetGo(VmDo(vm, a), id, OutAfter(out, VmSends(vm, a), id), heard)
  {
  }

  lemma PauserKeepsLetGo(vm: Vm, a: VmAction, id: nat, out: Out, heard: Back)
    requires a.SetStop? || a.PauseBegin? || a.TakeSnapshot? || a.PauseRelease? || a.PauseRemoveWriter? || a.PauseSendClose?
          || a.PauseForgetWaiting? || a.PauseEnd? || a.VmSendOther?
    requires VmSide(vm, id, out, heard) && VmCan(vm, a) && LetGo(vm, id, out, heard)
    requires a == Alloc ==> id != vm.next
    ensures LetGo(VmDo(vm, a), id, OutAfter(out, VmSends(vm, a), id), heard)
  {
  }

  lemma VmKeepsLetGo(vm: Vm, a: VmAction, id: nat, out: Out, heard: Back)
    requires VmSide(vm, id, out, heard) && VmCan(vm, a) && LetGo(vm, id, out, heard)
    requires a == Alloc ==> id != vm.next
    ensures LetGo(VmDo(vm, a), id, OutAfter(out, VmSends(vm, a), id), heard)
  {
    hide VmSide, LetGo;
    match a {
      case UpCheck(_) | UpSend(_) | UpCount(_) | UpEnd(_) | UpRelease(_) | UpClose(_) | UpHalt(_) =>
        UplinkKeepsLetGo(vm, a, id, out, heard);
      case Accept | Alloc | Park | SendOpen | HaltAccept | InsertWriter | LoseWriter | RemoveWriter | ForgetWaiting =>
        OthersKeepLetGo(vm, a, id, out, heard);
      case _ => PauserKeepsLetGo(vm, a, id, out, heard);
    }
  }

  lemma OthersKeepLetGo(vm: Vm, a: VmAction, id: nat, out: Out, heard: Back)
    requires a.Accept? || a.Alloc? || a.Park? || a.SendOpen? || a.HaltAccept?
          || a.InsertWriter? || a.LoseWriter? || a.RemoveWriter? || a.ForgetWaiting?
    requires VmSide(vm, id, out, heard) && VmCan(vm, a) && LetGo(vm, id, out, heard)
    requires a == Alloc ==> id != vm.next
    ensures LetGo(VmDo(vm, a), id, OutAfter(out, VmSends(vm, a), id), heard)
  {
  }

  lemma VmReadKeepsLetGo(vm: Vm, m: Msg, id: nat, out: Out, heard: Back)
    requires LetGo(vm, id, out, heard) && BackStep(heard, m, id) != BackBad
    ensures LetGo(OnVmFrame(vm, m), id, out, BackStep(heard, m, id))
  {
  }

  lemma VmDoesKeepsLeak(s: State, a: VmAction, id: nat)
    requires Inv(s) && VmCan(s.vm, a) && Leaked(s, id)
    ensures Leaked(Apply(s, VmDoes(a)), id)
  {
    assert IdInv(s, id);
    if a == Alloc { OpenedIffCounted(s.toMac, id); }
    OutLog(s.toMac, VmSends(s.vm, a), s.macRead, id);
    hide VmSide, MacSide, OutPhase, BackPhase, LetGo, VmDo, VmSends;
    VmKeepsLetGo(s.vm, a, id, OutPhase(s.toMac, id), BackPhase(s.toVm[..s.vmRead], id));
  }

  lemma VmReadsKeepLeak(s: State, step: Step, id: nat)
    requires Inv(s) && Enabled(s, step) && (step == VmRead || step == VmSkipData) && Leaked(s, id)
    ensures s.vmRead < |s.toVm| && Leaked(Apply(s, step), id)
  {
    var m := s.toVm[s.vmRead];
    HeardIsSent(s, s.vmRead + 1, id);
    BackRead(s.toVm, s.vmRead, id);
    hide OutPhase, BackPhase, OnVmFrame, Inv;
    VmReadKeepsLetGo(s.vm, m, id, OutPhase(s.toMac, id), BackPhase(s.toVm[..s.vmRead], id));
  }

  /** While the VM's frames about an id are open, none of them is a CLOSE. */
  lemma NoCloseAhead(s: State, id: nat)
    requires Inv(s) && s.macRead < |s.toMac| && IsOpen(OutPhase(s.toMac, id))
    ensures s.toMac[s.macRead] != Close(id)
  {
    OutPrefix(s.toMac, s.macRead + 1, id);
    OutRead(s.toMac, s.macRead, id);
    hide OutPhase, Inv;
  }

  lemma MacFrameKeepsOpen(mac: Mac, m: Msg, dial: Dial, id: nat)
    requires id in mac.open && m != Close(id)
    ensures id in OnMacFrame(mac, m, dial).open
  {
  }

  lemma MacReadKeepsLeak(s: State, dial: Dial, id: nat)
    requires Inv(s) && Enabled(s, MacRead(dial)) && Leaked(s, id)
    ensures Leaked(Apply(s, MacRead(dial)), id)
  {
    var m := s.toMac[s.macRead];
    NoCloseAhead(s, id);
    MacFrameKeepsOpen(s.mac, m, dial, id);
    BackLog(s.toVm, MacAnswers(s.mac, m, dial), s.vmRead, id);
    hide OutPhase, BackPhase, IdInv, OnMacFrame, LetGo, VmGlobals;
  }

  lemma MacDoesKeepsLeak(s: State, a: MacAction, id: nat)
    requires Inv(s) && MacCan(s.mac, a) && Leaked(s, id)
    ensures Leaked(Apply(s, MacDoes(a)), id)
  {
    BackLog(s.toVm, MacSends(s.mac, a), s.vmRead, id);
    hide OutPhase, BackPhase, IdInv, LetGo, VmGlobals;
  }

  lemma StepKeepsLeak(s: State, step: Step, id: nat)
    requires Inv(s) && Enabled(s, step) && Leaked(s, id)
    ensures Inv(Apply(s, step)) && Leaked(Apply(s, step), id)
  {
    hide Globals, IdInv, OutPhase, BackPhase, LetGo, OnMacFrame, OnVmFrame, VmDo, MacDo;
    StepKeepsInv(s, step);
    InBounds(s);
    InBounds(Apply(s, step));
    hide Inv, Leaked;
    match step
    case VmDoes(a) => VmDoesKeepsLeak(s, a, id);
    case VmRead => VmReadsKeepLeak(s, step, id);
    case VmSkipData => VmReadsKeepLeak(s, step, id);
    case MacRead(dial) => MacReadKeepsLeak(s, dial, id);
    case MacDoes(a) => MacDoesKeepsLeak(s, a, id);
  }

  lemma InBounds(s: State)
    requires Inv(s)
    ensures s.macRead <= |s.toMac| && s.vmRead <= |s.toVm|
  {
  }

  lemma {:induction false} LeadsKeepsInv(s: State, steps: seq<Step>, later: State)
    requires Inv(s) && Leads(s, steps, later)
    ensures Inv(later)
    decreases |steps|
  {
    hide Inv;
    if steps != [] {
      var last := steps[|steps| - 1];
      var before :| Leads(s, steps[..|steps| - 1], before) && Enabled(before, last) && later == Apply(before, last);
      LeadsKeepsInv(s, steps[..|steps| - 1], before);
      StepKeepsInv(before, last);
    }
  }

  lemma {:induction false} LeadsKeepsLeak(s: State, steps: seq<Step>, later: State, id: nat)
    requires Inv(s) && Leaked(s, id) && Leads(s, steps, later)
    ensures Inv(later) && Leaked(later, id)
    decreases |steps|
  {
    if steps != [] {
      var last := steps[|steps| - 1];
      var before :| Leads(s, steps[..|steps| - 1], before) && Enabled(before, last) && later == Apply(before, last);
      LeadsKeepsLeak(s, steps[..|steps| - 1], before, id);
      StepKeepsLeak(before, last, id);
    }
  }

  /** Whatever happens afterwards, a leaked id stays open at the Mac and closed at the VM. */
  lemma LeakIsPermanent(steps: seq<Step>, s: State, id: nat, more: seq<Step>, later: State)
    requires IsRun(steps, s) && s.vmRead <= |s.toVm| && Leaked(s, id) && Leads(s, more, later)
    ensures later.vmRead <= |later.toVm| && Leaked(later, id)
  {
    hide IsRun, Leads;
    RunKeepsInv(steps, s);
    LeadsKeepsLeak(s, more, later, id);
  }

  /** Once 64 ids are leaked, every OPEN that the Mac reads from then on is answered by OPEN_FAIL. */
  lemma FullOfLeaks(steps: seq<Step>, s: State, ids: set<nat>, more: seq<Step>, later: State, dial: Dial)
    requires IsRun(steps, s) && s.vmRead <= |s.toVm| && Leads(s, more, later)
    requires |ids| >= 64 && forall id :: id in ids ==> Leaked(s, id)
    requires Enabled(later, MacRead(dial)) && later.toMac[later.macRead].Open?
    ensures var id := later.toMac[later.macRead].id;
            var after := Apply(later, MacRead(dial));
            && after.toVm == later.toVm + [OpenFail(id)]
            && after.mac.open == later.mac.open && after.mac.status == MacRunning
  {
    hide IsRun, Leads;
    RunKeepsInv(steps, s);
    LeadsKeepsInv(s, more, later);
    forall id | id in ids ensures id in later.mac.open {
      LeadsKeepsLeak(s, more, later, id);
    }
    SubsetCard(ids, later.mac.open);
    MacRejectsOnlyAfterPause(later, dial);
    hide Inv, Leaked;
  }

  // ----- When the two sides differ -----

  /** All frames are read, and no thread of the VM is in the middle of closing `id`. */
  predicate Settled(s: State, id: nat) {
    && s.macRead == |s.toMac| && s.vmRead == |s.toVm|
    && !OwesClose(s.vm, id) && !(s.vm.pauser.PauseRemove? && s.vm.pauser.id == id)
  }

  /** With nothing in flight, the Mac has an id open that the VM has not exactly when the VM opened it and sent no CLOSE,
      and the Mac did. */
  lemma OpenOnlyAtMac(steps: seq<Step>, s: State, id: nat)
    requires IsRun(steps, s) && Settled(s, id)
    ensures id in s.mac.open && id !in s.vm.open <==> IsOpen(OutPhase(s.toMac, id)) && BackPhase(s.toVm, id) == Ended
  {
    hide IsRun;
    RunKeepsInv(steps, s);
    assert IdInv(s, id);
    assert s.toMac[..s.macRead] == s.toMac && s.toVm[..s.vmRead] == s.toVm;
    hide OutPhase, BackPhase;
  }

  /** And then, once the VM's session thread is back at reading, the id is leaked for good. */
  lemma OpenOnlyAtMacIsLeaked(steps: seq<Step>, s: State, id: nat)
    requires IsRun(steps, s) && Settled(s, id) && s.vm.reader == Reading
    ensures id in s.mac.open && id !in s.vm.open <==> Leaked(s, id)
  {
    hide IsRun;
    OpenOnlyAtMac(steps, s, id);
    RunKeepsInv(steps, s);
    assert IdInv(s, id);
    assert s.toVm[..s.vmRead] == s.toVm;
    hide OutPhase, BackPhase;
  }

  /** With nothing in flight, the VM has an id open that the Mac has not exactly when its OPEN is not sent yet. */
  lemma OpenOnlyAtVm(steps: seq<Step>, s: State, id: nat)
    requires IsRun(steps, s) && s.macRead == |s.toMac| && s.vmRead == |s.toVm| && id in s.vm.open
    ensures id !in s.mac.open <==> OutPhase(s.toMac, id) == Unsent
  {
    hide IsRun;
    RunKeepsInv(steps, s);
    assert IdInv(s, id);
    assert s.toMac[..s.macRead] == s.toMac && s.toVm[..s.vmRead] == s.toVm;
    hide OutPhase, BackPhase;
  }

  // ----- Runs that leak -----

  lemma MacHangsUp(steps: seq<Step>, s: State, n: nat) returns (more: seq<Step>, after: State)
    requires IsRun(steps, s) && Up(s, n)
    ensures IsRun(more, after) && Quiet(after, n + 1)
  {
    hide IsRun;
    more, after := Take(steps, s, MacDoes(MacCheck(n + 1)));
    more, after := Take(more, after, MacDoes(MacEnd(n + 1)));
    more, after := Take(more, after, MacDoes(MacClose(n + 1)));
    more, after := Take(more, after, VmRead);
    more, after := Take(more, after, VmDoes(RemoveWriter));
    more, after := Take(more, after, VmDoes(ForgetWaiting));
  }

  /** Up to 64 connections that end at the Mac first leave as many ids leaked, all of them open at the Mac and none at
      the VM. */
  lemma {:induction false} LeakRun(n: nat) returns (steps: seq<Step>, s: State)
    requires n <= MAX_CONNS
    ensures IsRun(steps, s) && Quiet(s, n)
    ensures s.vm.open == {} && |s.mac.open| == n && forall id :: id in s.mac.open ==> Leaked(s, id)
  {
    hide IsRun, Up;
    if n == 0 {
      steps, s := [], INITIAL;
      EmptyRun();
    } else {
      steps, s := LeakRun(n - 1);
      steps, s := ConnectNext(steps, s, n - 1);
      steps, s := MacHangsUp(steps, s, n - 1);
    }
    forall id | id in s.mac.open ensures Leaked(s, id) {
      OpenOnlyAtMacIsLeaked(steps, s, id);
    }
  }

  /** The Mac's next frame is an OPEN that it will refuse. */
  ghost predicate RefusesNext(s: State, dial: Dial)
    requires Enabled(s, MacRead(dial)) && s.toMac[s.macRead].Open?
  {
    Apply(s, MacRead(dial)).toVm == s.toVm + [OpenFail(s.toMac[s.macRead].id)]
  }

  /** So there is a run after which no connection can ever be opened again, although the VM has none open. */
  lemma TunnelCanFillUp() returns (steps: seq<Step>, s: State)
    ensures IsRun(steps, s) && s.vm.open == {} && s.mac.status == MacRunning
    ensures forall more, later, dial ::
              Leads(s, more, later) && Enabled(later, MacRead(dial)) && later.toMac[later.macRead].Open? ==>
                RefusesNext(later, dial)
  {
    hide IsRun, Leaked, Leads;
    steps, s := LeakRun(MAX_CONNS);
    forall more, later, dial | Leads(s, more, later) && Enabled(later, MacRead(dial)) && later.toMac[later.macRead].Open?
      ensures RefusesNext(later, dial)
    {
      FullOfLeaks(steps, s, s.mac.open, more, later, dial);
    }
  }
}
