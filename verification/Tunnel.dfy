/**
  The edge tunnel as a transition system: edge/src/relay.rs over edge/src/session.rs.

  Each side runs several threads that share locked maps; one step below is one locked section, one atomic swap or one
  send on the control connection, and steps of different threads interleave freely. A FIFO channel is an append-only
  log with a read position, so the frames in flight are the unread end of the log and whole-run claims about what was
  sent are claims about the log.
  */
module TunnelState {
  import opened Prelude

  const MAX_CONNS := 64
  const MAX_U64 := 0xFFFF_FFFF_FFFF_FFFF

  /** A frame, as far as connections are concerned. `Other` stands for HELLO, HELLO_OK, PING, PONG and QUOTA. */
  datatype Msg = Open(id: nat) | OpenOk(id: nat) | OpenFail(id: nat) | Data(id: nat) | Close(id: nat) | Other

  // ----- Threads -----

  /** The VM's accept loop: after its check of `stop`, and between `alloc`, the insertion into `waiting`, and the send of
      OPEN. */
  datatype Acceptor = Listening | Accepting | Allocated(id: nat) | Parked(id: nat) | AcceptHalted

  /** The VM's session thread: between the locked sections of OPEN_OK and of CLOSE. */
  datatype Reader =
    | Reading
    | Starting(id: nat)   // taken out of `waiting`, not yet in `writers`
    | Retiring(id: nat)   // released, still in `writers`
    | Forgetting(id: nat) // out of `writers`, still in `waiting`
    | VmFailed(cause: Msg)

  /** A VM uplink: before its checks, after them, after a send, and on its way to CLOSE. `UplinkLost` ended on that way,
      its CLOSE unsent. */
  datatype Uplink = Looping | Checked | Counting | Swapped | Released | UplinkDone | UplinkLost

  /** The one thread that won the `stop` swap in `pause`. */
  datatype Pauser =
    | NotPaused
    | Snapshot
    | PauseLoop(todo: set<nat>)
    | PauseRemove(todo: set<nat>, id: nat)
    | PauseSend(todo: set<nat>, id: nat)
    | PauseForget(todo: set<nat>, id: nat)
    | PauseDone

  datatype MacUplink = MacLooping | MacChecked | MacSwapped | MacUplinkDone

  datatype MacStatus = MacRunning | MacIoFailed | MacProtocolError

  // ----- State -----

  datatype Vm = Vm(
    next: nat, open: set<nat>,
    waiting: set<nat>, writers: set<nat>, closed: set<nat>,
    uplinks: map<nat, Uplink>,
    stop: bool,
    acceptor: Acceptor, reader: Reader, pauser: Pauser)

  datatype Mac = Mac(
    next: nat, open: set<nat>,
    writers: set<nat>, closed: set<nat>,
    uplinks: map<nat, MacUplink>,
    status: MacStatus)

  datatype State = State(vm: Vm, mac: Mac, toMac: seq<Msg>, macRead: nat, toVm: seq<Msg>, vmRead: nat)

  const INITIAL := State(
    Vm(1, {}, {}, {}, {}, map[], false, Listening, Reading, NotPaused),
    Mac(1, {}, {}, {}, map[], MacRunning),
    [], 0, [], 0)

  // ----- Steps -----

  /** A step of one of the VM's threads other than taking a frame off the channel. */
  datatype VmAction =
    | Accept | Alloc | Park | SendOpen | HaltAccept
    | InsertWriter | LoseWriter | RemoveWriter | ForgetWaiting
    | UpCheck(id: nat) | UpSend(id: nat) | UpCount(id: nat) | UpEnd(id: nat) | UpRelease(id: nat) | UpClose(id: nat)
    | UpHalt(id: nat)
    | SetStop | PauseBegin | TakeSnapshot | PauseRelease(id: nat) | PauseRemoveWriter | PauseSendClose
    | PauseForgetWaiting | PauseEnd
    | VmSendOther

  datatype MacAction =
    | MacIoFail
    | MacCheck(id: nat) | MacSend(id: nat) | MacEnd(id: nat) | MacClose(id: nat) | MacHalt(id: nat)
    | MacSendOther

  /** How `open_on_mac` goes on after admitting an id; an I/O error ends the session, before or after the answer. */
  datatype Dial = Connected | Refused | Broken | BrokenLate

  datatype Step =
    | VmDoes(vmAction: VmAction)
    | VmRead
    | VmSkipData
    | MacDoes(macAction: MacAction)
    | MacRead(dial: Dial)

  predicate UplinkAt(vm: Vm, id: nat, pc: Uplink) { id in vm.uplinks && vm.uplinks[id] == pc }

  predicate MacUplinkAt(mac: Mac, id: nat, pc: MacUplink) { id in mac.uplinks && mac.uplinks[id] == pc }

  predicate VmCan(vm: Vm, a: VmAction) {
    match a
    case Accept => vm.acceptor == Listening && !vm.stop
    case Alloc => vm.acceptor == Accepting
    case Park => vm.acceptor.Allocated?
    case SendOpen => vm.acceptor.Parked?
    case HaltAccept => true
    case InsertWriter => vm.reader.Starting?
    case LoseWriter => vm.reader.Starting?
    case RemoveWriter => vm.reader.Retiring?
    case ForgetWaiting => vm.reader.Forgetting?
    case UpCheck(id) => UplinkAt(vm, id, Looping) && !vm.stop && id !in vm.closed
    case UpSend(id) => UplinkAt(vm, id, Checked)
    case UpCount(id) => UplinkAt(vm, id, Counting)
    case UpEnd(id) => UplinkAt(vm, id, Checked)
    case UpRelease(id) => UplinkAt(vm, id, Swapped)
    case UpClose(id) => UplinkAt(vm, id, Released)
    case UpHalt(id) => id in vm.uplinks && vm.uplinks[id] != UplinkLost
    case SetStop => true
    case PauseBegin => !vm.stop
    case TakeSnapshot => vm.pauser == Snapshot
    case PauseRelease(id) => vm.pauser.PauseLoop? && id in vm.pauser.todo
    case PauseRemoveWriter => vm.pauser.PauseRemove?
    case PauseSendClose => vm.pauser.PauseSend?
    case PauseForgetWaiting => vm.pauser.PauseForget?
    case PauseEnd => vm.pauser == PauseLoop({})
    case VmSendOther => true
  }

  function VmDo(vm: Vm, a: VmAction): Vm
    requires VmCan(vm, a)
  {
    match a
    case Accept => vm.(acceptor := Accepting)
    case Alloc =>
      if |vm.open| >= MAX_CONNS then vm.(acceptor := Listening)
      else if vm.next >= MAX_U64 then vm.(acceptor := AcceptHalted)
      else vm.(next := vm.next + 1, open := vm.open + {vm.next}, acceptor := Allocated(vm.next))
    case Park => vm.(waiting := vm.waiting + {vm.acceptor.id}, acceptor := Parked(vm.acceptor.id))
    case SendOpen => vm.(acceptor := Listening)
    case HaltAccept => vm.(acceptor := AcceptHalted)
    case InsertWriter =>
      var id := vm.reader.id;
      vm.(writers := vm.writers + {id}, uplinks := vm.uplinks[id := Looping], reader := Reading)
    case LoseWriter => vm.(reader := Reading)
    case RemoveWriter =>
      var id := vm.reader.id;
      vm.(writers := vm.writers - {id},
          closed := if id in vm.writers then vm.closed + {id} else vm.closed,
          reader := Forgetting(id))
    case ForgetWaiting => vm.(waiting := vm.waiting - {vm.reader.id}, reader := Reading)
    case UpCheck(id) => vm.(uplinks := vm.uplinks[id := Checked])
    case UpSend(id) => vm.(uplinks := vm.uplinks[id := Counting])
    case UpCount(id) => vm.(uplinks := vm.uplinks[id := Looping])
    case UpEnd(id) =>
      if id in vm.closed then vm.(uplinks := vm.uplinks[id := UplinkDone])
      else vm.(uplinks := vm.uplinks[id := Swapped], closed := vm.closed + {id})
    case UpRelease(id) => vm.(uplinks := vm.uplinks[id := Released], open := vm.open - {id})
    case UpClose(id) => vm.(uplinks := vm.uplinks[id := UplinkDone])
    case UpHalt(id) =>
      var owes := vm.uplinks[id] == Swapped || vm.uplinks[id] == Released;
      vm.(uplinks := vm.uplinks[id := if owes then UplinkLost else UplinkDone])
    case SetStop => vm.(stop := true)
    case PauseBegin => vm.(stop := true, pauser := Snapshot)
    case TakeSnapshot => vm.(pauser := PauseLoop(vm.writers))
    case PauseRelease(id) =>
      var todo := vm.pauser.todo - {id};
      vm.(open := vm.open - {id}, pauser := if id in vm.open then PauseRemove(todo, id) else PauseLoop(todo))
    case PauseRemoveWriter =>
      var todo, id := vm.pauser.todo, vm.pauser.id;
      if id in vm.writers && id !in vm.closed then
        vm.(writers := vm.writers - {id}, closed := vm.closed + {id}, pauser := PauseSend(todo, id))
      else
        vm.(writers := vm.writers - {id}, pauser := PauseForget(todo, id))
    case PauseSendClose => vm.(pauser := PauseForget(vm.pauser.todo, vm.pauser.id))
    case PauseForgetWaiting => vm.(waiting := vm.waiting - {vm.pauser.id}, pauser := PauseLoop(vm.pauser.todo))
    case PauseEnd => vm.(pauser := PauseDone)
    case VmSendOther => vm
  }

  /** The frame an action of the VM puts on the channel, if any. */
  function VmSends(vm: Vm, a: VmAction): Option<Msg>
    requires VmCan(vm, a)
  {
    match a
    case SendOpen => Some(Open(vm.acceptor.id))
    case UpSend(id) => Some(Data(id))
    case UpClose(id) => Some(Close(id))
    case PauseSendClose => Some(Close(vm.pauser.id))
    case PauseEnd => Some(Other)
    case VmSendOther => Some(Other)
    case _ => None
  }

  predicate MacCan(mac: Mac, a: MacAction) {
    match a
    case MacIoFail => mac.status == MacRunning
    case MacCheck(id) => MacUplinkAt(mac, id, MacLooping) && id !in mac.closed
    case MacSend(id) => MacUplinkAt(mac, id, MacChecked)
    case MacEnd(id) => MacUplinkAt(mac, id, MacChecked)
    case MacClose(id) => MacUplinkAt(mac, id, MacSwapped)
    case MacHalt(id) => id in mac.uplinks
    case MacSendOther => true
  }

  function MacDo(mac: Mac, a: MacAction): Mac
    requires MacCan(mac, a)
  {
    match a
    case MacIoFail => mac.(status := MacIoFailed)
    case MacCheck(id) => mac.(uplinks := mac.uplinks[id := MacChecked])
    case MacSend(id) => mac.(uplinks := mac.uplinks[id := MacLooping])
    case MacEnd(id) =>
      if id in mac.closed then mac.(uplinks := mac.uplinks[id := MacUplinkDone])
      else mac.(uplinks := mac.uplinks[id := MacSwapped], closed := mac.closed + {id})
    case MacClose(id) => mac.(uplinks := mac.uplinks[id := MacUplinkDone])
    case MacHalt(id) => mac.(uplinks := mac.uplinks[id := MacUplinkDone])
    case MacSendOther => mac
  }

  function MacSends(mac: Mac, a: MacAction): Option<Msg>
    requires MacCan(mac, a)
  {
    match a
    case MacSend(id) => Some(Data(id))
    case MacClose(id) => Some(Close(id))
    case MacSendOther => Some(Other)
    case _ => None
  }

  function Log(log: seq<Msg>, m: Option<Msg>): seq<Msg> {
    if m.Some? then log + [m.value] else log
  }

  predicate Enabled(s: State, step: Step) {
    match step
    case VmDoes(a) => VmCan(s.vm, a)
    case VmRead => s.vm.reader == Reading && s.vmRead < |s.toVm|
    case VmSkipData => s.vm.reader == Reading && s.vmRead < |s.toVm| && s.toVm[s.vmRead].Data?
    case MacDoes(a) => MacCan(s.mac, a)
    case MacRead(_) => s.mac.status == MacRunning && s.macRead < |s.toMac|
  }

  function Apply(s: State, step: Step): State
    requires Enabled(s, step)
  {
    match step
    case VmDoes(a) => s.(vm := VmDo(s.vm, a), toMac := Log(s.toMac, VmSends(s.vm, a)))
    case VmRead => s.(vm := OnVmFrame(s.vm, s.toVm[s.vmRead]), vmRead := s.vmRead + 1)
    case VmSkipData => s.(vmRead := s.vmRead + 1)
    case MacDoes(a) => s.(mac := MacDo(s.mac, a), toVm := Log(s.toVm, MacSends(s.mac, a)))
    case MacRead(dial) =>
      var m := s.toMac[s.macRead];
      var mac := OnMacFrame(s.mac, m, dial);
      if mac.status == MacProtocolError then s.(mac := mac)
      else s.(mac := mac, macRead := s.macRead + 1, toVm := Log(s.toVm, MacAnswers(s.mac, m, dial)))
  }

  /** The first locked sections of `on_vm_frame`. */
  function OnVmFrame(vm: Vm, m: Msg): Vm {
    match m
    case OpenOk(id) =>
      if id in vm.open && id in vm.waiting then vm.(waiting := vm.waiting - {id}, reader := Starting(id))
      else vm.(reader := VmFailed(m))
    case OpenFail(id) =>
      if id in vm.open then vm.(open := vm.open - {id}, waiting := vm.waiting - {id})
      else vm.(reader := VmFailed(m))
    case Data(id) =>
      if id in vm.open && id in vm.writers then vm else vm.(reader := VmFailed(m))
    case Close(id) =>
      if id in vm.open then vm.(open := vm.open - {id}, reader := Retiring(id))
      else vm.(reader := VmFailed(m))
    case Open(_) => vm.(reader := VmFailed(m))
    case Other => vm
  }

  /** The frame loop of `serve_mac` with `open_on_mac`. The frame of a protocol error is not taken off the channel. */
  function OnMacFrame(mac: Mac, m: Msg, dial: Dial): Mac {
    match m
    case Open(id) =>
      if id != mac.next || mac.next >= MAX_U64 then mac.(status := MacProtocolError)
      else if |mac.open| >= MAX_CONNS || dial == Refused then mac.(next := mac.next + 1)
      else if dial != Connected then
        mac.(next := mac.next + 1, open := mac.open + {id}, status := MacIoFailed)
      else mac.(next := mac.next + 1, open := mac.open + {id}, writers := mac.writers + {id},
                uplinks := mac.uplinks[id := MacLooping])
    case Data(id) => if id in mac.open && id in mac.writers then mac else mac.(status := MacProtocolError)
    case Close(id) =>
      if id in mac.open then
        mac.(open := mac.open - {id}, writers := mac.writers - {id},
             closed := if id in mac.writers then mac.closed + {id} else mac.closed)
      else mac.(status := MacProtocolError)
    case Other => mac
    case OpenOk(_) => mac.(status := MacProtocolError)
    case OpenFail(_) => mac.(status := MacProtocolError)
  }

  /** The answer to an admitted OPEN. */
  function MacAnswers(mac: Mac, m: Msg, dial: Dial): Option<Msg> {
    if !m.Open? then None
    else if |mac.open| >= MAX_CONNS || dial == Refused then Some(OpenFail(m.id))
    else if dial == Broken then None
    else Some(OpenOk(m.id))
  }

  /** The state after a run, if each of its steps was enabled when it was taken. */
  ghost predicate IsRun(steps: seq<Step>, s: State)
  {
    if steps == [] then s == INITIAL
    else
      var last := steps[|steps| - 1];
      exists before :: IsRun(steps[..|steps| - 1], before) && Enabled(before, last) && s == Apply(before, last)
  }
}

/**
  What each side says about one connection, over a whole log.
  */
module TunnelPhases {
  import opened TunnelState

  /** VM to Mac, for one id: OPEN, DATA and one CLOSE; after the CLOSE at most one DATA. */
  datatype Out = Unsent | Opened | Talking | Closed | Trailing | OutBad

  predicate IsOpen(p: Out) { p == Opened || p == Talking }

  /** Mac to VM, for one id: OPEN_FAIL, or OPEN_OK, DATA and one CLOSE. */
  datatype Back = Silent | Live | Failed | Ended | BackBad

  function OutStep(p: Out, m: Msg, id: nat): Out {
    match m
    case Other => p
    case Open(k) => if k != id then p else if p == Unsent then Opened else OutBad
    case Data(k) =>
      if k != id then p else if IsOpen(p) then Talking else if p == Closed then Trailing else OutBad
    case Close(k) => if k != id then p else if IsOpen(p) then Closed else OutBad
    case OpenOk(k) => if k != id then p else OutBad
    case OpenFail(k) => if k != id then p else OutBad
  }

  function BackStep(p: Back, m: Msg, id: nat): Back {
    match m
    case Other => p
    case OpenOk(k) => if k != id then p else if p == Silent then Live else BackBad
    case OpenFail(k) => if k != id then p else if p == Silent then Failed else BackBad
    case Data(k) => if k != id then p else if p == Live then Live else BackBad
    case Close(k) => if k != id then p else if p == Live then Ended else BackBad
    case Open(k) => if k != id then p else BackBad
  }

  function OutPhase(log: seq<Msg>, id: nat): Out {
    if log == [] then Unsent else OutStep(OutPhase(log[..|log| - 1], id), log[|log| - 1], id)
  }

  function BackPhase(log: seq<Msg>, id: nat): Back {
    if log == [] then Silent else BackStep(BackPhase(log[..|log| - 1], id), log[|log| - 1], id)
  }

  function OpenCount(log: seq<Msg>): nat {
    if log == [] then 0
    else OpenCount(log[..|log| - 1]) + if log[|log| - 1].Open? then 1 else 0
  }

  /** The k-th OPEN carries the id k. */
  ghost predicate OpensInOrder(log: seq<Msg>) {
    forall k :: 0 <= k < |log| && log[k].Open? ==> log[k].id == OpenCount(log[..k]) + 1
  }

  predicate OutLe(p: Out, q: Out) {
    match p
    case Unsent => q != OutBad
    case Opened => q != OutBad && q != Unsent
    case Talking => q == Talking || q == Closed || q == Trailing
    case Closed => q == Closed || q == Trailing
    case Trailing => q == Trailing
    case OutBad => false
  }

  predicate BackLe(p: Back, q: Back) {
    match p
    case Silent => q != BackBad
    case Live => q == Live || q == Ended
    case Failed => q == Failed
    case Ended => q == Ended
    case BackBad => false
  }

  // ----- Appending and reading -----

  lemma OutAppend(log: seq<Msg>, m: Msg, id: nat)
    ensures OutPhase(log + [m], id) == OutStep(OutPhase(log, id), m, id)
  {
    assert (log + [m])[..|log|] == log;
  }

  lemma BackAppend(log: seq<Msg>, m: Msg, id: nat)
    ensures BackPhase(log + [m], id) == BackStep(BackPhase(log, id), m, id)
  {
    assert (log + [m])[..|log|] == log;
  }

  lemma OutRead(log: seq<Msg>, k: nat, id: nat)
    requires k < |log|
    ensures OutPhase(log[..k + 1], id) == OutStep(OutPhase(log[..k], id), log[k], id)
  {
    assert log[..k + 1] == log[..k] + [log[k]];
    OutAppend(log[..k], log[k], id);
  }

  lemma BackRead(log: seq<Msg>, k: nat, id: nat)
    requires k < |log|
    ensures BackPhase(log[..k + 1], id) == BackStep(BackPhase(log[..k], id), log[k], id)
  {
    assert log[..k + 1] == log[..k] + [log[k]];
    BackAppend(log[..k], log[k], id);
  }

  lemma OpenCountAppend(log: seq<Msg>, m: Msg)
    ensures OpenCount(log + [m]) == OpenCount(log) + if m.Open? then 1 else 0
  {
    assert (log + [m])[..|log|] == log;
  }

  lemma OpenCountRead(log: seq<Msg>, k: nat)
    requires k < |log|
    ensures OpenCount(log[..k + 1]) == OpenCount(log[..k]) + if log[k].Open? then 1 else 0
  {
    assert log[..k + 1] == log[..k] + [log[k]];
    OpenCountAppend(log[..k], log[k]);
  }

  lemma InOrderAppend(log: seq<Msg>, m: Msg)
    requires OpensInOrder(log) && (m.Open? ==> m.id == OpenCount(log) + 1)
    ensures OpensInOrder(log + [m])
  {
    forall k | 0 <= k < |log + [m]| && (log + [m])[k].Open?
      ensures (log + [m])[k].id == OpenCount((log + [m])[..k]) + 1
    {
      assert (log + [m])[..k] == log[..k];
      assert log[..|log|] == log;
    }
  }

  /** A prefix of a well-formed log is at an earlier phase. */
  lemma {:induction false} OutPrefix(log: seq<Msg>, k: nat, id: nat)
    requires k <= |log| && OutPhase(log, id) != OutBad
    ensures OutLe(OutPhase(log[..k], id), OutPhase(log, id))
    decreases |log|
  {
    if k == |log| {
      assert log[..k] == log;
    } else {
      var init := log[..|log| - 1];
      OutPrefix(init, k, id);
      assert init[..k] == log[..k];
    }
  }

  lemma {:induction false} BackPrefix(log: seq<Msg>, k: nat, id: nat)
    requires k <= |log| && BackPhase(log, id) != BackBad
    ensures BackLe(BackPhase(log[..k], id), BackPhase(log, id))
    decreases |log|
  {
    if k == |log| {
      assert log[..k] == log;
    } else {
      var init := log[..|log| - 1];
      BackPrefix(init, k, id);
      assert init[..k] == log[..k];
    }
  }

  /** With the OPENs in order, exactly the ids up to their number have been opened. */
  lemma {:induction false} OpenedIffCounted(log: seq<Msg>, id: nat)
    requires OpensInOrder(log) && OutPhase(log, id) != OutBad
    ensures OutPhase(log, id) == Unsent <==> !(1 <= id <= OpenCount(log))
  {
    if log == [] {
    } else {
      var init, last := log[..|log| - 1], log[|log| - 1];
      assert OpensInOrder(init) by {
        forall k | 0 <= k < |init| && init[k].Open?
          ensures init[k].id == OpenCount(init[..k]) + 1
        {
          assert init[..k] == log[..k] && init[k] == log[k];
        }
      }
      OpenedIffCounted(init, id);
      if last.Open? {
        assert last.id == OpenCount(init) + 1;
      }
    }
  }
}
