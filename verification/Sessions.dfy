/**
  The window of connection ids that each side keeps: edge/src/session.rs.
  */
module IdWindows {
  import opened TunnelState

  datatype Window = Window(next: nat, open: set<nat>)

  datatype Refusal = Cap | ConnExhausted | BadConn

  datatype Admit = Opened | AtCap

  datatype Result<+T> = Ok(value: T) | Err(error: Refusal)

  predicate Valid(w: Window) {
    && 1 <= w.next <= MAX_U64
    && |w.open| <= MAX_CONNS
    && forall id :: id in w.open ==> 1 <= id < w.next
  }

  /** `self.next` and `self.open`, updated in place. */
  class IdWindow {
    var next: nat
    var open: set<nat>

    function Model(): Window
      reads this
    {
      Window(next, open)
    }

    constructor ()
      ensures Model() == Window(1, {}) && Valid(Model())
    {
      next := 1;
      open := {};
    }

    /** A new id is the next one, was never open before, and is open now; a refusal changes nothing. */
    method Alloc() returns (r: Result<nat>)
      requires Valid(Model())
      modifies this
      ensures Valid(Model())
      ensures r == if |old(open)| >= MAX_CONNS then Err(Cap)
                   else if old(next) == MAX_U64 then Err(ConnExhausted) else Ok(old(next))
      ensures Model() == After(old(Model()), DoAlloc)
    {
      if |open| >= MAX_CONNS {
        return Err(Cap);
      }
      var id := next;
      if next == MAX_U64 {
        return Err(ConnExhausted);
      }
      next := next + 1;
      open := open + {id};
      r := Ok(id);
    }

    /** At the cap the id is used up and stays closed. */
    method AdmitId(id: nat) returns (r: Result<Admit>)
      requires Valid(Model())
      modifies this
      ensures Valid(Model())
      ensures r == if id != old(next) then Err(BadConn)
                   else if old(next) == MAX_U64 then Err(ConnExhausted)
                   else if |old(open)| >= MAX_CONNS then Ok(AtCap) else Ok(Opened)
      ensures Model() == After(old(Model()), DoAdmit(id))
    {
      if id != next {
        return Err(BadConn);
      }
      if next == MAX_U64 {
        return Err(ConnExhausted);
      }
      next := next + 1;
      if |open| >= MAX_CONNS {
        return Ok(AtCap);
      }
      open := open + {id};
      r := Ok(Opened);
    }

    method RequireOpen(id: nat) returns (r: Result<()>)
      ensures r == if id in open then Ok(()) else Err(BadConn)
    {
      r := if id in open then Ok(()) else Err(BadConn);
    }

    method Close(id: nat) returns (r: Result<()>)
      requires Valid(Model())
      modifies this
      ensures Valid(Model()) && Model() == After(old(Model()), DoClose(id))
      ensures r == if id in old(open) then Ok(()) else Err(BadConn)
    {
      r := if id in open then Ok(()) else Err(BadConn);
      assert |open - {id}| <= |open| by { Smaller(open, id); }
      open := open - {id};
    }
  }

  lemma Smaller(s: set<nat>, id: nat)
    ensures |s - {id}| <= |s|
  {
    if id in s { assert s == (s - {id}) + {id}; }
  }

  // ----- Runs of a window -----

  datatype Operation = DoAlloc | DoAdmit(id: nat) | DoClose(id: nat)

  /** What each of the methods leaves behind. */
  function After(w: Window, op: Operation): Window {
    match op
    case DoAlloc =>
      if |w.open| >= MAX_CONNS || w.next == MAX_U64 then w else Window(w.next + 1, w.open + {w.next})
    case DoAdmit(id) =>
      if id != w.next || w.next == MAX_U64 then w
      else Window(w.next + 1, if |w.open| >= MAX_CONNS then w.open else w.open + {id})
    case DoClose(id) => Window(w.next, w.open - {id})
  }

  function AfterAll(w: Window, ops: seq<Operation>): Window
    decreases |ops|
  {
    if ops == [] then w else AfterAll(After(w, ops[0]), ops[1..])
  }

  lemma OneOperation(w: Window, op: Operation, id: nat)
    requires Valid(w)
    ensures Valid(After(w, op)) && w.next <= After(w, op).next
    ensures id < w.next && id !in w.open ==> id !in After(w, op).open
  {
    if op.DoClose? { Smaller(w.open, op.id); }
  }

  /** Whatever is done to a window, it stays valid, and an id that was used and is not open never opens again. */
  lemma {:induction false} UsedIdsStayClosed(w: Window, ops: seq<Operation>, id: nat)
    requires Valid(w)
    ensures Valid(AfterAll(w, ops)) && w.next <= AfterAll(w, ops).next
    ensures id < w.next && id !in w.open ==> id !in AfterAll(w, ops).open
    decreases |ops|
  {
    if ops != [] {
      OneOperation(w, ops[0], id);
      hide After, Valid;
      UsedIdsStayClosed(After(w, ops[0]), ops[1..], id);
    }
  }

  /** The VM's window in the tunnel is this one: the accept loop allocates, and whoever ends a connection closes. */
  lemma VmUsesWindow(vm: Vm, id: nat)
    requires Valid(WindowOf(vm))
    ensures VmCan(vm, Alloc) ==> WindowOf(VmDo(vm, Alloc)) == After(WindowOf(vm), DoAlloc)
    // At the cap the socket is dropped and the loop goes on; when the ids run out, it ends.
    ensures VmCan(vm, Alloc) ==>
              VmDo(vm, Alloc).acceptor
              == if |vm.open| >= 64 then Listening else if vm.next == MAX_U64 then AcceptHalted else Allocated(vm.next)
    ensures VmCan(vm, UpRelease(id)) ==> WindowOf(VmDo(vm, UpRelease(id))) == After(WindowOf(vm), DoClose(id))
    ensures VmCan(vm, PauseRelease(id)) ==> WindowOf(VmDo(vm, PauseRelease(id))) == After(WindowOf(vm), DoClose(id))
    ensures WindowOf(OnVmFrame(vm, OpenFail(id))) == After(WindowOf(vm), DoClose(id))
    ensures WindowOf(OnVmFrame(vm, Close(id))) == After(WindowOf(vm), DoClose(id))
  {
    hide VmDo, VmCan, OnVmFrame, After;
    if VmCan(vm, Alloc) { VmAllocates(vm); }
    VmReleases(vm, id);
    VmFramesClose(vm, id);
  }

  lemma VmAllocates(vm: Vm)
    requires Valid(WindowOf(vm)) && VmCan(vm, Alloc)
    ensures WindowOf(VmDo(vm, Alloc)) == After(WindowOf(vm), DoAlloc)
    ensures VmDo(vm, Alloc).acceptor
         == if |vm.open| >= 64 then Listening else if vm.next == MAX_U64 then AcceptHalted else Allocated(vm.next)
  {
  }

  lemma VmReleases(vm: Vm, id: nat)
    ensures VmCan(vm, UpRelease(id)) ==> WindowOf(VmDo(vm, UpRelease(id))) == After(WindowOf(vm), DoClose(id))
    ensures VmCan(vm, PauseRelease(id)) ==> WindowOf(VmDo(vm, PauseRelease(id))) == After(WindowOf(vm), DoClose(id))
  {
  }

  lemma VmFramesClose(vm: Vm, id: nat)
    ensures WindowOf(OnVmFrame(vm, OpenFail(id))) == After(WindowOf(vm), DoClose(id))
    ensures WindowOf(OnVmFrame(vm, Close(id))) == After(WindowOf(vm), DoClose(id))
  {
  }

  function WindowOf(vm: Vm): Window { Window(vm.next, vm.open) }

  /** And so is the Mac's: an OPEN admits its id, a refused dial closes it again, and a CLOSE closes. */
  lemma MacUsesWindow(mac: Mac, id: nat, dial: Dial)
    requires Valid(MacWindowOf(mac))
    ensures dial != Refused ==> MacWindowOf(OnMacFrame(mac, Open(id), dial)) == After(MacWindowOf(mac), DoAdmit(id))
    ensures id == mac.next < MAX_U64 ==>
              MacWindowOf(OnMacFrame(mac, Open(id), Refused))
              == After(After(MacWindowOf(mac), DoAdmit(id)), DoClose(id))
    ensures MacWindowOf(OnMacFrame(mac, Close(id), dial)) == After(MacWindowOf(mac), DoClose(id))
  {
  }

  function MacWindowOf(mac: Mac): Window { Window(mac.next, mac.open) }
}
