/**
  What every step of the tunnel keeps, and what follows for every run.
  */
module TunnelSafety {
  import opened Prelude
  import opened TunnelState
  import opened TunnelPhases

  predicate Paused(vm: Vm) { vm.pauser != NotPaused }

  /** The pauser is about to send CLOSE for `id`. */
  predicate PauserCloses(vm: Vm, id: nat) { vm.pauser.PauseSend? && vm.pauser.id == id }

  /** The pauser still has `id` on its hands. */
  predicate PauserHas(vm: Vm, id: nat) {
    match vm.pauser
    case PauseLoop(todo) => id in todo
    case PauseRemove(todo, k) => id in todo || k == id
    case PauseSend(todo, k) => id in todo || k == id
    case PauseForget(todo, k) => id in todo || k == id
    case _ => false
  }

  /** The VM closes the connection of its own accord. */
  predicate HangsUp(vm: Vm, id: nat) { id in vm.closed || (vm.pauser.PauseRemove? && vm.pauser.id == id) }

  /** A thread of the VM has taken it upon itself to send CLOSE for `id`, or has died doing so. */
  predicate OwesClose(vm: Vm, id: nat) {
    || PauserCloses(vm, id)
    || UplinkAt(vm, id, Swapped) || UplinkAt(vm, id, Released) || UplinkAt(vm, id, UplinkLost)
  }

  /** The VM's own bookkeeping for one id against what it has sent (`out`) and read (`heard`). */
  predicate VmSide(vm: Vm, id: nat, out: Out, heard: Back) {
    && (id !in vm.uplinks ==> (out == Unsent || out == Opened) && id !in vm.closed && id !in vm.writers && !PauserHas(vm, id))
    && (id in vm.uplinks ==> (heard == Live || heard == Ended) && out != Unsent)
    && (vm.reader == Starting(id) ==> heard == Live && id !in vm.uplinks)
    && (vm.reader == Retiring(id) || vm.reader == Forgetting(id) ==> heard == Ended)
    // CLOSE goes out once, after the id is released.
    && (out == Closed || out == Trailing ==>
          id in vm.closed && id !in vm.open && (UplinkAt(vm, id, UplinkDone) || Paused(vm)))
    && (out == Trailing ==>
          Paused(vm) && (UplinkAt(vm, id, Counting) || UplinkAt(vm, id, Looping) || UplinkAt(vm, id, UplinkDone)))
    && (UplinkAt(vm, id, Swapped) || UplinkAt(vm, id, Released) ==>
          id in vm.closed && IsOpen(out) && !PauserCloses(vm, id))
    && (UplinkAt(vm, id, Released) ==> id !in vm.open)
    && (vm.pauser.PauseRemove? && vm.pauser.id == id ==> id !in vm.open)
    && (PauserCloses(vm, id) ==> id in vm.closed && IsOpen(out) && id !in vm.open)
    // An id waits until the Mac has answered.
    && (heard == Silent && out != Unsent ==> id in vm.open && id in vm.waiting)
    && (heard != Silent ==> out != Unsent)
    && (heard == Failed ==> id !in vm.open)
    && (vm.acceptor == Allocated(id) || vm.acceptor == Parked(id) ==> id in vm.open && out == Unsent)
    && (vm.acceptor == Parked(id) ==> id in vm.waiting)
    // While the Mac talks, the VM keeps the id and its writer until it hangs up itself.
    && (heard == Live && id !in vm.open ==> HangsUp(vm, id))
    && (heard == Live && id in vm.uplinks ==> id in vm.writers || id in vm.closed)
    && (heard == Live && id in vm.closed && IsOpen(out) ==> OwesClose(vm, id))
    // Once the Mac has closed, the id is released and its uplink is told.
    && (heard == Ended ==> id !in vm.open)
    && (vm.reader == Retiring(id) && id in vm.uplinks ==> id in vm.writers || id in vm.closed)
    && (heard == Ended && id in vm.uplinks && !vm.reader.VmFailed? && vm.reader != Retiring(id) ==> id in vm.closed)
  }

  /** The Mac's own bookkeeping for one id against what it has read (`taken`) and sent (`back`). */
  predicate MacSide(mac: Mac, id: nat, taken: Out, back: Back) {
    && (id in mac.open ==> IsOpen(taken) && back != Failed)
    && (taken == Unsent ==> back == Silent)
    && (taken != Unsent && back == Silent ==> id in mac.open && mac.status != MacRunning)
    && (IsOpen(taken) && (back == Live || back == Ended) ==> id in mac.open)
    && (IsOpen(taken) && (back == Live || back == Ended) && mac.status == MacRunning ==> id in mac.writers)
    && (id !in mac.uplinks ==> back == Silent || back == Failed || (back == Live && mac.status != MacRunning))
    && (id in mac.uplinks ==> back == Live || (back == Ended && mac.uplinks[id] == MacUplinkDone))
  }

  ghost predicate IdInv(s: State, id: nat)
    requires s.macRead <= |s.toMac| && s.vmRead <= |s.toVm|
  {
    && OutPhase(s.toMac, id) != OutBad && BackPhase(s.toVm, id) != BackBad
    && VmSide(s.vm, id, OutPhase(s.toMac, id), BackPhase(s.toVm[..s.vmRead], id))
    && MacSide(s.mac, id, OutPhase(s.toMac[..s.macRead], id), BackPhase(s.toVm, id))
  }

  /** The accept loop is at most one id ahead of the OPENs it has sent. */
  predicate AcceptorInv(vm: Vm, sent: nat) {
    match vm.acceptor
    case Listening => vm.next == sent + 1
    case Accepting => vm.next == sent + 1
    case Allocated(id) => id == sent + 1 && vm.next == sent + 2
    case Parked(id) => id == sent + 1 && vm.next == sent + 2
    case AcceptHalted => sent + 1 <= vm.next <= sent + 2
  }

  predicate WindowInv(vm: Vm) {
    && 1 <= vm.next <= MAX_U64
    && |vm.open| <= MAX_CONNS
    && (forall id :: id in vm.open ==> 1 <= id < vm.next)
  }

  predicate VmGlobals(vm: Vm, sent: nat) {
    && AcceptorInv(vm, sent)
    && WindowInv(vm)
    && (Paused(vm) ==> vm.stop)
    && (vm.reader.VmFailed? ==> vm.reader.cause.Data? || vm.reader.cause.Close?)
  }

  ghost predicate Globals(s: State) {
    && s.macRead <= |s.toMac| && s.vmRead <= |s.toVm|
    && OpensInOrder(s.toMac)
    && VmGlobals(s.vm, OpenCount(s.toMac))
    && s.mac.next == OpenCount(s.toMac[..s.macRead]) + 1
    && |s.mac.open| <= MAX_CONNS
    && (s.mac.status == MacProtocolError ==> DataAfterPauseClose(s))
  }

  /** The Mac's next frame is a DATA whose id the VM closed while pausing. */
  ghost predicate DataAfterPauseClose(s: State) {
    && s.macRead < |s.toMac|
    && s.toMac[s.macRead].Data?
    && OutPhase(s.toMac[..s.macRead], s.toMac[s.macRead].id) == Closed
    && Paused(s.vm)
  }

  ghost predicate Inv(s: State) {
    && Globals(s)
    && forall id: nat :: IdInv(s, id)
  }

  lemma Start()
    ensures Inv(INITIAL)
  {
    forall id: nat
      ensures IdInv(INITIAL, id)
    {
      assert INITIAL.toMac[..0] == [] && INITIAL.toVm[..0] == [];
    }
    assert INITIAL.toMac[..0] == [];
  }

  // ----- Steps of the VM's threads -----

  /** The phase after sending nothing or one frame. */
  function OutAfter(p: Out, m: Option<Msg>, id: nat): Out {
    if m.Some? then OutStep(p, m.value, id) else p
  }

  lemma ListenerKeeps(vm: Vm, a: VmAction, id: nat, out: Out, heard: Back)
    requires a.Accept? || a.HaltAccept?
    requires VmSide(vm, id, out, heard) && VmCan(vm, a) && out != OutBad && (Paused(vm) ==> vm.stop)
    ensures OutAfter(out, VmSends(vm, a), id) != OutBad
    ensures VmSide(VmDo(vm, a), id, OutAfter(out, VmSends(vm, a), id), heard)
  {
  }

  lemma AcceptorKeeps(vm: Vm, a: VmAction, id: nat, out: Out, heard: Back)
    requires a.Alloc? || a.Park? || a.SendOpen?
    requires VmSide(vm, id, out, heard) && VmCan(vm, a) && out != OutBad && (Paused(vm) ==> vm.stop)
    requires a == Alloc && id == vm.next ==> out == Unsent
    ensures OutAfter(out, VmSends(vm, a), id) != OutBad
    ensures VmSide(VmDo(vm, a), id, OutAfter(out, VmSends(vm, a), id), heard)
  {
  }

  lemma ReaderKeeps(vm: Vm, a: VmAction, id: nat, out: Out, heard: Back)
    requires a.InsertWriter? || a.LoseWriter? || a.RemoveWriter? || a.ForgetWaiting?
    requires VmSide(vm, id, out, heard) && VmCan(vm, a) && out != OutBad && (Paused(vm) ==> vm.stop)
    ensures OutAfter(out, VmSends(vm, a), id) != OutBad
    ensures VmSide(VmDo(vm, a), id, OutAfter(out, VmSends(vm, a), id), heard)
  {
  }

  lemma UplinkKeeps(vm: Vm, a: VmAction, id: nat, out: Out, heard: Back)
    requires a.UpCheck? || a.UpSend? || a.UpCount?
    requires VmSide(vm, id, out, heard) && VmCan(vm, a) && out != OutBad && (Paused(vm) ==> vm.stop)
    ensures OutAfter(out, VmSends(vm, a), id) != OutBad
    ensures VmSide(VmDo(vm, a), id, OutAfter(out, VmSends(vm, a), id), heard)
  {
  }

  lemma EndKeeps(vm: Vm, a: VmAction, id: nat, out: Out, heard: Back)
    requires a.UpEnd?
    requires VmSide(vm, id, out, heard) && VmCan(vm, a) && out != OutBad && (Paused(vm) ==> vm.stop)
    ensures OutAfter(out, VmSends(vm, a), id) != OutBad
    ensures VmSide(VmDo(vm, a), id, OutAfter(out, VmSends(vm, a), id), heard)
  {
  }

  lemma HaltKeeps(vm: Vm, a: VmAction, id: nat, out: Out, heard: Back)
    requires a.UpHalt?
    requires VmSide(vm, id, out, heard) && VmCan(vm, a) && out != OutBad && (Paused(vm) ==> vm.stop)
    ensures OutAfter(out, VmSends(vm, a), id) != OutBad
    ensures VmSide(VmDo(vm, a), id, OutAfter(out, VmSends(vm, a), id), heard)
  {
  }

  lemma ClosingKeeps(vm: Vm, a: VmAction, id: nat, out: Out, heard: Back)
    requires a.UpRelease? || a.UpClose?
    requires VmSide(vm, id, out, heard) && VmCan(vm, a) && out != OutBad && (Paused(vm) ==> vm.stop)
    ensures OutAfter(out, VmSends(vm, a), id) != OutBad
    ensures VmSide(VmDo(vm, a), id, OutAfter(out, VmSends(vm, a), id), heard)
  {
  }

  lemma SnapshotKeeps(vm: Vm, a: VmAction, id: nat, out: Out, heard: Back)
    requires a.TakeSnapshot? || a.PauseEnd?
    requires VmSide(vm, id, out, heard) && VmCan(vm, a) && out != OutBad && (Paused(vm) ==> vm.stop)
    ensures OutAfter(out, VmSends(vm, a), id) != OutBad
    ensures VmSide(VmDo(vm, a), id, OutAfter(out, VmSends(vm, a), id), heard)
  {
  }

  lemma StopKeeps(vm: Vm, a: VmAction, id: nat, out: Out, heard: Back)
    requires a.SetStop? || a.PauseBegin? || a.VmSendOther?
    requires VmSide(vm, id, out, heard) && VmCan(vm, a) && out != OutBad && (Paused(vm) ==> vm.stop)
    ensures OutAfter(out, VmSends(vm, a), id) != OutBad
    ensures VmSide(VmDo(vm, a), id, OutAfter(out, VmSends(vm, a), id), heard)
  {
  }

  lemma PauseKeeps(vm: Vm, a: VmAction, id: nat, out: Out, heard: Back)
    requires a.PauseRelease? || a.PauseRemoveWriter?
    requires VmSide(vm, id, out, heard) && VmCan(vm, a) && out != OutBad && (Paused(vm) ==> vm.stop)
    ensures OutAfter(out, VmSends(vm, a), id) != OutBad
    ensures VmSide(VmDo(vm, a), id, OutAfter(out, VmSends(vm, a), id), heard)
  {
  }

  lemma PauseClosesKeeps(vm: Vm, a: VmAction, id: nat, out: Out, heard: Back)
    requires a.PauseSendClose? || a.PauseForgetWaiting?
    requires VmSide(vm, id, out, heard) && VmCan(vm, a) && out != OutBad && (Paused(vm) ==> vm.stop)
    ensures OutAfter(out, VmSends(vm, a), id) != OutBad
    ensures VmSide(VmDo(vm, a), id, OutAfter(out, VmSends(vm, a), id), heard)
  {
  }

  lemma VmSideKept(vm: Vm, a: VmAction, id: nat, out: Out, heard: Back)
    requires VmSide(vm, id, out, heard) && VmCan(vm, a) && out != OutBad && (Paused(vm) ==> vm.stop)
    requires a == Alloc && id == vm.next ==> out == Unsent
    ensures OutAfter(out, VmSends(vm, a), id) != OutBad
    ensures VmSide(VmDo(vm, a), id, OutAfter(out, VmSends(vm, a), id), heard)
  {
    hide VmSide;
    match a {
      case Accept | HaltAccept => ListenerKeeps(vm, a, id, out, heard);
      case Alloc | Park | SendOpen => AcceptorKeeps(vm, a, id, out, heard);
      case InsertWriter | LoseWriter | RemoveWriter | ForgetWaiting => ReaderKeeps(vm, a, id, out, heard);
      case UpCheck(_) | UpSend(_) | UpCount(_) => UplinkKeeps(vm, a, id, out, heard);
      case UpHalt(_) => HaltKeeps(vm, a, id, out, heard);
      case UpEnd(_) => EndKeeps(vm, a, id, out, heard);
      case UpRelease(_) | UpClose(_) => ClosingKeeps(vm, a, id, out, heard);
      case SetStop | PauseBegin | VmSendOther => StopKeeps(vm, a, id, out, heard);
      case TakeSnapshot | PauseEnd => SnapshotKeeps(vm, a, id, out, heard);
      case PauseRelease(_) | PauseRemoveWriter => PauseKeeps(vm, a, id, out, heard);
      case PauseSendClose | PauseForgetWaiting => PauseClosesKeeps(vm, a, id, out, heard);
    }
  }

  /** Sending a frame, or nothing, and what the reader of the channel has seen so far. */
  lemma OutLog(log: seq<Msg>, m: Option<Msg>, read: nat, id: nat)
    requires read <= |log|
    ensures OutPhase(Log(log, m), id) == OutAfter(OutPhase(log, id), m, id)
    ensures Log(log, m)[..read] == log[..read]
  {
    if m.Some? { OutAppend(log, m.value, id); }
  }

  lemma VmDoesKeepsIds(s: State, a: VmAction, id: nat)
    requires Inv(s) && VmCan(s.vm, a)
    ensures s.macRead <= |Log(s.toMac, VmSends(s.vm, a))| && IdInv(Apply(s, VmDoes(a)), id)
  {
    assert IdInv(s, id);
    if a == Alloc && id == s.vm.next { OpenedIffCounted(s.toMac, id); }
    hide VmSide, MacSide, OutPhase, BackPhase;
    OutLog(s.toMac, VmSends(s.vm, a), s.macRead, id);
    VmSideKept(s.vm, a, id, OutPhase(s.toMac, id), BackPhase(s.toVm[..s.vmRead], id));
  }

  lemma AcceptorInvKept(vm: Vm, a: VmAction, sent: nat)
    requires AcceptorInv(vm, sent) && VmCan(vm, a)
    ensures AcceptorInv(VmDo(vm, a), if a == SendOpen then sent + 1 else sent)
    ensures a == SendOpen ==> VmSends(vm, a) == Some(Open(sent + 1))
    ensures a != SendOpen ==> VmSends(vm, a) == None || !VmSends(vm, a).value.Open?
  {
  }

  lemma WindowInvKept(vm: Vm, a: VmAction)
    requires WindowInv(vm) && VmCan(vm, a)
    ensures WindowInv(VmDo(vm, a))
  {
    assert VmDo(vm, a).open <= vm.open || (a == Alloc && VmDo(vm, a).open == vm.open + {vm.next} && |vm.open| < MAX_CONNS);
    SubsetCard(VmDo(vm, a).open, vm.open);
  }

  lemma {:induction false} SubsetCard(a: set<nat>, b: set<nat>)
    ensures a <= b ==> |a| <= |b|
    decreases |b|
  {
    if a <= b && a != {} {
      var x :| x in a;
      SubsetCard(a - {x}, b - {x});
    }
  }

  lemma FlagsKept(vm: Vm, a: VmAction)
    requires VmCan(vm, a) && (Paused(vm) ==> vm.stop)
    ensures var vm' := VmDo(vm, a);
            && (Paused(vm') ==> vm'.stop)
            && (Paused(vm) ==> Paused(vm'))
            && (vm'.reader.VmFailed? ==> vm'.reader == vm.reader)
  {
  }

  lemma VmDoesKeepsGlobals(s: State, a: VmAction)
    requires Globals(s) && VmCan(s.vm, a)
    ensures Globals(Apply(s, VmDoes(a)))
  {
    hide VmDo, VmSends, VmCan, AcceptorInv, WindowInv, OutPhase, OpenCount, OpensInOrder;
    var m := VmSends(s.vm, a);
    AcceptorInvKept(s.vm, a, OpenCount(s.toMac));
    WindowInvKept(s.vm, a);
    FlagsKept(s.vm, a);
    OutLog(s.toMac, m, s.macRead, 0);
    if m.Some? {
      OpenCountAppend(s.toMac, m.value);
      InOrderAppend(s.toMac, m.value);
    }
    if DataAfterPauseClose(s) { NextFrameStays(s, a); }
  }

  lemma NextFrameStays(s: State, a: VmAction)
    requires VmCan(s.vm, a) && s.macRead < |s.toMac|
    ensures Log(s.toMac, VmSends(s.vm, a))[s.macRead] == s.toMac[s.macRead]
  {
  }

  lemma VmDoesStep(s: State, a: VmAction)
    requires Inv(s) && VmCan(s.vm, a)
    ensures Inv(Apply(s, VmDoes(a)))
  {
    VmDoesKeepsGlobals(s, a);
    var s' := Apply(s, VmDoes(a));
    forall id: nat
      ensures IdInv(s', id)
    {
      VmDoesKeepsIds(s, a, id);
    }
  }

  // ----- Steps of the Mac's uplinks -----

  function BackAfter(p: Back, m: Option<Msg>, id: nat): Back {
    if m.Some? then BackStep(p, m.value, id) else p
  }

  lemma MacSideKept(mac: Mac, a: MacAction, id: nat, taken: Out, back: Back)
    requires MacSide(mac, id, taken, back) && MacCan(mac, a) && back != BackBad
    ensures BackAfter(back, MacSends(mac, a), id) != BackBad
    ensures MacSide(MacDo(mac, a), id, taken, BackAfter(back, MacSends(mac, a), id))
  {
  }

  lemma BackLog(log: seq<Msg>, m: Option<Msg>, read: nat, id: nat)
    requires read <= |log|
    ensures BackPhase(Log(log, m), id) == BackAfter(BackPhase(log, id), m, id)
    ensures Log(log, m)[..read] == log[..read]
  {
    if m.Some? { BackAppend(log, m.value, id); }
  }

  lemma MacDoesStep(s: State, a: MacAction)
    requires Inv(s) && MacCan(s.mac, a)
    ensures Inv(Apply(s, MacDoes(a)))
  {
    hide VmSide, MacSide, OutPhase, BackPhase;
    var s' := Apply(s, MacDoes(a));
    BackLog(s.toVm, MacSends(s.mac, a), s.vmRead, 0);
    forall id: nat
      ensures IdInv(s', id)
    {
      assert IdInv(s, id);
      BackLog(s.toVm, MacSends(s.mac, a), s.vmRead, id);
      MacSideKept(s.mac, a, id, OutPhase(s.toMac[..s.macRead], id), BackPhase(s.toVm, id));
    }
  }

  // ----- The VM reads a frame -----

  lemma VmSideReads(vm: Vm, m: Msg, id: nat, out: Out, heard: Back)
    requires VmSide(vm, id, out, heard) && vm.reader == Reading
    requires BackStep(heard, m, id) != BackBad
    requires BackStep(heard, m, id) != Silent ==> out != Unsent
    ensures VmSide(OnVmFrame(vm, m), id, out, BackStep(heard, m, id))
  {
  }

  /** What has been heard was sent, and what was sent answers an OPEN that was read. */
  lemma HeardIsSent(s: State, k: nat, id: nat)
    requires Inv(s) && k <= |s.toVm|
    ensures BackPhase(s.toVm[..k], id) != BackBad
    ensures BackPhase(s.toVm[..k], id) != Silent ==> OutPhase(s.toMac, id) != Unsent
  {
    assert IdInv(s, id);
    BackPrefix(s.toVm, k, id);
    OutPrefix(s.toMac, s.macRead, id);
  }

  lemma VmReadKeepsIds(s: State, id: nat)
    requires Inv(s) && Enabled(s, VmRead)
    ensures IdInv(Apply(s, VmRead), id)
  {
    assert IdInv(s, id);
    HeardIsSent(s, s.vmRead + 1, id);
    BackRead(s.toVm, s.vmRead, id);
    hide VmSide, MacSide, OutPhase, BackPhase, OnVmFrame;
    VmSideReads(s.vm, s.toVm[s.vmRead], id, OutPhase(s.toMac, id), BackPhase(s.toVm[..s.vmRead], id));
  }

  lemma VmReadStep(s: State)
    requires Inv(s) && Enabled(s, VmRead)
    ensures Inv(Apply(s, VmRead))
  {
    var s' := Apply(s, VmRead);
    VmReadFailsOnlyOnOwnClose(s);
    VmReadKeepsGlobals(s);
    forall id: nat
      ensures IdInv(s', id)
    {
      VmReadKeepsIds(s, id);
    }
    hide Globals, IdInv;
  }

  lemma VmReadKeepsGlobals(s: State)
    requires Globals(s) && Enabled(s, VmRead)
    requires var vm := OnVmFrame(s.vm, s.toVm[s.vmRead]);
             vm.reader.VmFailed? ==> vm.reader.cause.Data? || vm.reader.cause.Close?
    ensures Globals(Apply(s, VmRead))
  {
    VmFrameKeepsGlobals(s.vm, s.toVm[s.vmRead], OpenCount(s.toMac));
    hide OutPhase, OpenCount, OpensInOrder, VmGlobals, OnVmFrame;
  }

  lemma VmFrameKeepsGlobals(vm: Vm, m: Msg, sent: nat)
    requires VmGlobals(vm, sent)
    requires OnVmFrame(vm, m).reader.VmFailed? ==>
               OnVmFrame(vm, m).reader.cause.Data? || OnVmFrame(vm, m).reader.cause.Close?
    ensures VmGlobals(OnVmFrame(vm, m), sent) && Paused(OnVmFrame(vm, m)) == Paused(vm)
  {
    SubsetCard(OnVmFrame(vm, m).open, vm.open);
  }

  /** The VM rejects only a DATA or a CLOSE. */
  lemma VmReadFailsOnlyOnOwnClose(s: State)
    requires Inv(s) && Enabled(s, VmRead)
    ensures var m := s.toVm[s.vmRead];
            OnVmFrame(s.vm, m).reader.VmFailed? ==> (m.Data? || m.Close?) && OnVmFrame(s.vm, m).reader.cause == m
  {
    var m := s.toVm[s.vmRead];
    if m != Other {
      assert IdInv(s, m.id);
      HeardIsSent(s, s.vmRead + 1, m.id);
      BackRead(s.toVm, s.vmRead, m.id);
    }
  }

  lemma VmSkipStep(s: State)
    requires Inv(s) && Enabled(s, VmSkipData)
    ensures Inv(Apply(s, VmSkipData))
  {
    var s', m := Apply(s, VmSkipData), s.toVm[s.vmRead];
    forall id: nat
      ensures IdInv(s', id)
    {
      assert IdInv(s, id);
      HeardIsSent(s, s.vmRead + 1, id);
      BackRead(s.toVm, s.vmRead, id);
      hide VmSide, MacSide, OutPhase, BackPhase;
    }
    hide OutPhase, BackPhase;
  }

  // ----- The Mac reads a frame -----

  /** One frame at the Mac that is no protocol error, for the id it is about and for any other. */
  lemma MacSideReads(mac: Mac, m: Msg, dial: Dial, id: nat, taken: Out, back: Back)
    requires MacSide(mac, id, taken, back) && mac.status == MacRunning
    requires back != BackBad && OutStep(taken, m, id) != OutBad
    requires OnMacFrame(mac, m, dial).status != MacProtocolError
    ensures BackAfter(back, MacAnswers(mac, m, dial), id) != BackBad
    ensures MacSide(OnMacFrame(mac, m, dial), id, OutStep(taken, m, id), BackAfter(back, MacAnswers(mac, m, dial), id))
  {
    hide MacSide;
    if m == Other || m.id != id {
      MacSideOfOthers(mac, m, dial, id, taken, back);
    } else if m.Open? {
      MacSideOpens(mac, m, dial, id, taken, back);
    } else {
      MacSideEnds(mac, m, dial, id, taken, back);
    }
  }

  lemma MacSideOfOthers(mac: Mac, m: Msg, dial: Dial, id: nat, taken: Out, back: Back)
    requires m == Other || m.id != id
    requires MacSide(mac, id, taken, back) && mac.status == MacRunning
    requires back != BackBad && OutStep(taken, m, id) != OutBad
    requires OnMacFrame(mac, m, dial).status != MacProtocolError
    ensures BackAfter(back, MacAnswers(mac, m, dial), id) != BackBad
    ensures MacSide(OnMacFrame(mac, m, dial), id, OutStep(taken, m, id), BackAfter(back, MacAnswers(mac, m, dial), id))
  {
  }

  lemma MacSideOpens(mac: Mac, m: Msg, dial: Dial, id: nat, taken: Out, back: Back)
    requires m == Open(id)
    requires MacSide(mac, id, taken, back) && mac.status == MacRunning
    requires back != BackBad && OutStep(taken, m, id) != OutBad
    requires OnMacFrame(mac, m, dial).status != MacProtocolError
    ensures BackAfter(back, MacAnswers(mac, m, dial), id) != BackBad
    ensures MacSide(OnMacFrame(mac, m, dial), id, OutStep(taken, m, id), BackAfter(back, MacAnswers(mac, m, dial), id))
  {
  }

  lemma MacSideEnds(mac: Mac, m: Msg, dial: Dial, id: nat, taken: Out, back: Back)
    requires m != Other && m.id == id && !m.Open?
    requires MacSide(mac, id, taken, back) && mac.status == MacRunning
    requires back != BackBad && OutStep(taken, m, id) != OutBad
    requires OnMacFrame(mac, m, dial).status != MacProtocolError
    ensures BackAfter(back, MacAnswers(mac, m, dial), id) != BackBad
    ensures MacSide(OnMacFrame(mac, m, dial), id, OutStep(taken, m, id), BackAfter(back, MacAnswers(mac, m, dial), id))
  {
  }

  lemma {:induction false} CountPrefix(log: seq<Msg>, k: nat)
    requires k <= |log|
    ensures OpenCount(log[..k]) <= OpenCount(log)
    decreases |log|
  {
    if k == |log| {
      assert log[..k] == log;
    } else {
      CountPrefix(log[..|log| - 1], k);
      assert log[..|log| - 1][..k] == log[..k];
    }
  }

  /** Once the Mac reads anything but OPEN about an id, it has answered OPEN_OK for it. */
  lemma ReadAfterOpenOk(s: State)
    requires Inv(s) && s.macRead < |s.toMac| && (s.toMac[s.macRead].Data? || s.toMac[s.macRead].Close?)
    ensures var id := s.toMac[s.macRead].id;
            id in s.vm.uplinks && (BackPhase(s.toVm, id) == Live || BackPhase(s.toVm, id) == Ended)
  {
    var id := s.toMac[s.macRead].id;
    assert IdInv(s, id);
    OutPrefix(s.toMac, s.macRead, id);
    OutPrefix(s.toMac, s.macRead + 1, id);
    OutRead(s.toMac, s.macRead, id);
    BackPrefix(s.toVm, s.vmRead, id);
  }

  /** An OPEN that the Mac reads carries the next id, and ids do not run out. */
  lemma OpenIsNext(s: State)
    requires Globals(s) && s.macRead < |s.toMac| && s.toMac[s.macRead].Open?
    ensures s.toMac[s.macRead].id == s.mac.next < MAX_U64
  {
    OpenCountRead(s.toMac, s.macRead);
    CountPrefix(s.toMac, s.macRead + 1);
    hide OpenCount, DataAfterPauseClose;
  }

  /** A CLOSE that the Mac reads is for an open id, and so is a DATA unless a pause has closed the id. */
  lemma OthersAreOpen(s: State)
    requires Inv(s) && s.macRead < |s.toMac| && s.mac.status == MacRunning
    requires s.toMac[s.macRead].Data? || s.toMac[s.macRead].Close?
    ensures var m := s.toMac[s.macRead];
            (m.id in s.mac.open && m.id in s.mac.writers) || (m.Data? && DataAfterPauseClose(s))
  {
    var id := s.toMac[s.macRead].id;
    ReadAfterOpenOk(s);
    assert IdInv(s, id);
    OutPrefix(s.toMac, s.macRead + 1, id);
    OutRead(s.toMac, s.macRead, id);
    hide OutPhase, BackPhase, VmGlobals;
  }

  lemma OutFrames(s: State)
    requires Inv(s) && s.macRead < |s.toMac|
    ensures !s.toMac[s.macRead].OpenOk? && !s.toMac[s.macRead].OpenFail?
  {
    var m := s.toMac[s.macRead];
    if m.OpenOk? || m.OpenFail? {
      assert IdInv(s, m.id);
      OutPrefix(s.toMac, s.macRead + 1, m.id);
      OutRead(s.toMac, s.macRead, m.id);
    }
  }

  /** The only frame the Mac can reject is a DATA behind the CLOSE of a pause. */
  lemma MacRejectsOnlyAfterPause(s: State, dial: Dial)
    requires Inv(s) && Enabled(s, MacRead(dial))
    ensures OnMacFrame(s.mac, s.toMac[s.macRead], dial).status == MacProtocolError ==> DataAfterPauseClose(s)
  {
    var m := s.toMac[s.macRead];
    OutFrames(s);
    hide DataAfterPauseClose;
    match m {
      case Open(_) => OpenIsNext(s);
      case Data(_) => OthersAreOpen(s);
      case Close(_) => OthersAreOpen(s);
      case _ =>
    }
    hide Inv;
  }

  lemma MacReadKeepsIds(s: State, dial: Dial, id: nat)
    requires Inv(s) && Enabled(s, MacRead(dial))
    requires OnMacFrame(s.mac, s.toMac[s.macRead], dial).status != MacProtocolError
    ensures IdInv(Apply(s, MacRead(dial)), id)
  {
    var m := s.toMac[s.macRead];
    assert IdInv(s, id);
    OutPrefix(s.toMac, s.macRead + 1, id);
    OutRead(s.toMac, s.macRead, id);
    hide VmSide, MacSide, OutPhase, BackPhase;
    BackLog(s.toVm, MacAnswers(s.mac, m, dial), s.vmRead, id);
    MacSideReads(s.mac, m, dial, id, OutPhase(s.toMac[..s.macRead], id), BackPhase(s.toVm, id));
  }

  lemma MacReadKeepsGlobals(s: State, dial: Dial)
    requires Globals(s) && Enabled(s, MacRead(dial))
    requires OnMacFrame(s.mac, s.toMac[s.macRead], dial).status != MacProtocolError
    ensures Globals(Apply(s, MacRead(dial)))
  {
    OpenCountRead(s.toMac, s.macRead);
    BackLog(s.toVm, MacAnswers(s.mac, s.toMac[s.macRead], dial), s.vmRead, 0);
    hide OutPhase, BackPhase, OpenCount, OpensInOrder, VmGlobals;
    SubsetCard(OnMacFrame(s.mac, s.toMac[s.macRead], dial).open, s.mac.open);
  }

  lemma MacReadStep(s: State, dial: Dial)
    requires Inv(s) && Enabled(s, MacRead(dial))
    ensures Inv(Apply(s, MacRead(dial)))
  {
    var s', m := Apply(s, MacRead(dial)), s.toMac[s.macRead];
    MacRejectsOnlyAfterPause(s, dial);
    if OnMacFrame(s.mac, m, dial).status == MacProtocolError {
      forall id: nat
        ensures IdInv(s', id)
      {
        assert IdInv(s, id);
        hide VmSide, OutPhase, BackPhase;
      }
    } else {
      MacReadKeepsGlobals(s, dial);
      forall id: nat
        ensures IdInv(s', id)
      {
        MacReadKeepsIds(s, dial, id);
      }
    }
  }

  // ----- Every run -----

  lemma StepKeepsInv(s: State, step: Step)
    requires Inv(s) && Enabled(s, step)
    ensures Inv(Apply(s, step))
  {
    hide Inv;
    match step {
      case VmDoes(a) => VmDoesStep(s, a);
      case VmRead => VmReadStep(s);
      case VmSkipData => VmSkipStep(s);
      case MacDoes(a) => MacDoesStep(s, a);
      case MacRead(dial) => MacReadStep(s, dial);
    }
  }

  lemma {:induction false} RunKeepsInv(steps: seq<Step>, s: State)
    requires IsRun(steps, s)
    ensures Inv(s)
    decreases |steps|
  {
    hide Inv;
    if steps == [] {
      Start();
    } else {
      var last := steps[|steps| - 1];
      var before :| IsRun(steps[..|steps| - 1], before) && Enabled(before, last) && s == Apply(before, last);
      RunKeepsInv(steps[..|steps| - 1], before);
      StepKeepsInv(before, last);
    }
  }
}
