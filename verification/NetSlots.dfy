/** The sockets of a node: slots that one caller gives out, looks at and closes, and that
    resolver threads fill in (src/host/net.cpp:91-103, 105-168, 240-309, 344-434).

    An `Action` is one read or write of what the threads share, or one call that makes or
    closes a descriptor. A descriptor has the name it was opened with, which no other has,
    and closing or using one that is not open is a `fault`. */
module NetSlots {
  import opened Options

  const HANDLES: nat := 256

  datatype SockState = FREE | RESOLVING | CONNECTING | CONNECTED | LISTENING | UDP | FAILED

  datatype Slot = Slot(fd: Option<nat>, state: SockState, cancelled: bool)

  /** Where `resolve_and_connect_worker` is. */
  datatype Worker =
    | Resolving
    | Resolved(found: bool)
    | Opening
    | Trying(fd: nat)
    | Tried(tried: Option<nat>, made: bool)
    | Dropping(fd: nat)
    | Publish(fd: nat, made: bool)
    | Announce(made: bool)
    | GiveUp
    | FailIt

  /** A worker and the slot it was started for. */
  datatype Thread = Thread(slot: nat, pc: Worker)

  /** Where the caller is in `host_net_connect`, one that makes a socket, `host_net_close`,
      `host_net_poll`, or one that uses a connection. */
  datatype Caller =
    | Idle
    | Starting(i: nat)
    | Holding(fd: nat, kind: SockState)
    | Close1(i: nat)
    | Cancel(i: nat)
    | Close2(i: nat)
    | Close3(i: nat)
    | Close4(i: nat)
    | Poll1(i: nat)
    | Poll2(i: nat)
    | Poll3(i: nat)
    | Poll4(i: nat)
    | Poll5(i: nat)
    | Using(i: nat)

  /** Who is to close a descriptor. */
  datatype Owner = InSlot(i: nat) | InThread(w: nat) | InCaller

  datatype Net = Net(slots: seq<Slot>, threads: map<nat, Thread>, born: nat,
                     open: map<nat, Owner>, named: nat, caller: Caller, fault: bool)

  datatype Action =
    | Connect(i: nat)
    | Start(ok: bool)
    | Socket(kind: SockState)
    | Accept(i: nat, taken: bool)
    | Place(i: nat)
    | NoRoom
    | Close(i: nat)
    | Poll(i: nat)
    | Send(i: nat)
    | Go(writable: bool)
    | Work(w: nat, good: bool, made: bool)

  function Init(): Net {
    Net(seq(HANDLES, _ => Slot(None, FREE, false)), map[], 0, map[], 0, Idle, false)
  }

  // ----- the moves -----

  function Set(s: Net, i: nat, slot: Slot): Net
    requires i < |s.slots|
  {
    s.(slots := s.slots[i := slot])
  }

  function Opened(s: Net, owner: Owner): Net {
    s.(open := s.open[s.named := owner], named := s.named + 1)
  }

  function Closed(s: Net, fd: nat): Net {
    s.(open := s.open - {fd}, fault := s.fault || fd !in s.open)
  }

  function Used(s: Net, fd: nat): Net {
    s.(fault := s.fault || fd !in s.open)
  }

  predicate Handle(s: Net, i: nat) {
    0 < i < |s.slots|
  }

  /** The rest of a call the caller is in, one move of it. */
  function CallerMove(s: Net, writable: bool): Net {
    match s.caller
    case Close1(i) =>
      if !Handle(s, i) then s
      else if s.slots[i].state.RESOLVING? then s.(caller := Cancel(i)) else s.(caller := Close2(i))
    case Cancel(i) =>
      if !Handle(s, i) then s else Set(s, i, s.slots[i].(cancelled := true)).(caller := Idle)
    case Close2(i) =>
      if !Handle(s, i) then s
      else (match s.slots[i].fd case Some(fd) => Closed(s, fd) case None => s).(caller := Close3(i))
    case Close3(i) =>
      if !Handle(s, i) then s else Set(s, i, s.slots[i].(fd := None)).(caller := Close4(i))
    case Close4(i) =>
      if !Handle(s, i) then s else Set(s, i, s.slots[i].(state := FREE)).(caller := Idle)
    case Poll1(i) =>
      if !Handle(s, i) then s else s.(caller := if s.slots[i].state.RESOLVING? then Idle else Poll2(i))
    case Poll2(i) =>
      if !Handle(s, i) then s else s.(caller := if s.slots[i].state.FAILED? then Idle else Poll3(i))
    case Poll3(i) =>
      if !Handle(s, i) then s
      else (match s.slots[i].fd case Some(fd) => Used(s, fd) case None => s).(caller := if writable then Poll4(i) else Idle)
    case Poll4(i) =>
      if !Handle(s, i) then s else s.(caller := if s.slots[i].state.CONNECTING? then Poll5(i) else Idle)
    case Poll5(i) =>
      if !Handle(s, i) then s else Set(s, i, s.slots[i].(state := CONNECTED)).(caller := Idle)
    case Using(i) =>
      if !Handle(s, i) then s
      else (match s.slots[i].fd case Some(fd) => Used(s, fd) case None => s.(fault := true)).(caller := Idle)
    case _ => s
  }

  /** One move of a worker. `good` and `made` are what the host answers it. */
  function WorkerMove(s: Net, w: nat, good: bool, made: bool): Net
    requires w in s.threads && Handle(s, s.threads[w].slot)
  {
    var i := s.threads[w].slot;
    var slot := s.slots[i];
    var ends := s.(threads := s.threads - {w});
    match s.threads[w].pc
    case Resolving => At(s, w, Resolved(good))
    case Resolved(found) => At(s, w, if slot.cancelled then GiveUp else if !found then FailIt else Opening)
    case Opening =>
      if good then At(Opened(s, InThread(w)), w, Trying(s.named)) else At(s, w, Tried(None, false))
    case Trying(fd) =>
      if good then At(s, w, Tried(Some(fd), made)) else At(Closed(s, fd), w, Opening)
    case Tried(tried, m) =>
      At(s, w, match tried
               case Some(fd) => if slot.cancelled then Dropping(fd) else Publish(fd, m)
               case None => if slot.cancelled then GiveUp else FailIt)
    case Dropping(fd) => At(Closed(s, fd), w, GiveUp)
    case Publish(fd, m) =>
      At(Set(s, i, slot.(fd := Some(fd))).(open := s.open[fd := InSlot(i)]), w, Announce(m))
    case Announce(m) => Set(ends, i, slot.(state := if m then CONNECTED else CONNECTING))
    case GiveUp => Set(ends, i, slot.(state := FREE))
    case FailIt => Set(ends, i, slot.(state := FAILED))
  }

  function At(s: Net, w: nat, pc: Worker): Net
    requires w in s.threads
  {
    s.(threads := s.threads[w := s.threads[w].(pc := pc)])
  }

  function Move(s: Net, a: Action): Net {
    match a
    case Connect(i) =>
      if s.caller.Idle? && Handle(s, i) && s.slots[i].state.FREE? then
        Set(s, i, Slot(None, RESOLVING, false)).(caller := Starting(i))
      else s
    case Start(ok) =>
      if s.caller.Starting? && Handle(s, s.caller.i) then
        var i := s.caller.i;
        if ok then s.(threads := s.threads[s.born := Thread(i, Resolving)], born := s.born + 1, caller := Idle)
        else Set(s, i, s.slots[i].(state := FAILED)).(caller := Idle)
      else s
    case Socket(kind) =>
      if s.caller.Idle? && (kind.LISTENING? || kind.UDP?) then
        Opened(s, InCaller).(caller := Holding(s.named, kind))
      else s
    case Accept(i, taken) =>
      if s.caller.Idle? && Handle(s, i) && s.slots[i].state.LISTENING? then
        var used := match s.slots[i].fd case Some(fd) => Used(s, fd) case None => s.(fault := true);
        if taken then Opened(used, InCaller).(caller := Holding(s.named, CONNECTED)) else used
      else s
    case Place(i) =>
      if s.caller.Holding? && Handle(s, i) && s.slots[i].state.FREE? then
        Set(s, i, Slot(Some(s.caller.fd), s.caller.kind, false)).(open := s.open[s.caller.fd := InSlot(i)], caller := Idle)
      else s
    case NoRoom =>
      if s.caller.Holding? then Closed(s, s.caller.fd).(caller := Idle) else s
    case Close(i) =>
      if s.caller.Idle? && Handle(s, i) && !s.slots[i].state.FREE? then s.(caller := Close1(i)) else s
    case Poll(i) =>
      if s.caller.Idle? && Handle(s, i) && !s.slots[i].state.FREE? then s.(caller := Poll1(i)) else s
    case Send(i) =>
      if s.caller.Idle? && Handle(s, i) && s.slots[i].state.CONNECTED? then s.(caller := Using(i)) else s
    case Go(writable) => CallerMove(s, writable)
    case Work(w, good, made) =>
      if w in s.threads && Handle(s, s.threads[w].slot) then WorkerMove(s, w, good, made) else s
  }

  function Run(actions: seq<Action>): Net
    decreases |actions|
  {
    if actions == [] then Init() else Move(Run(actions[..|actions| - 1]), actions[|actions| - 1])
  }

  // ----- what every move keeps -----

  ghost predicate HasThread(s: Net, i: nat) {
    exists w :: w in s.threads && s.threads[w].slot == i
  }

  /** The descriptor a worker has to close or hand over. */
  function HeldBy(pc: Worker): Option<nat> {
    match pc
    case Trying(fd) => Some(fd)
    case Tried(tried, _) => tried
    case Dropping(fd) => Some(fd)
    case Publish(fd, _) => Some(fd)
    case _ => None
  }

  predicate Closing(s: Net, i: nat) {
    s.caller == Close2(i) || s.caller == Close3(i) || s.caller == Close4(i)
  }

  /** A slot, by its state. */
  ghost predicate SlotOk(s: Net, i: nat)
    requires i < |s.slots|
  {
    var slot := s.slots[i];
    && (s.caller == Starting(i) ==> slot.state.RESOLVING? && slot.fd.None? && !HasThread(s, i))
    && (Closing(s, i) ==> !slot.state.RESOLVING?)
    && (s.caller == Using(i) ==> slot.state.CONNECTED?)
    && (s.caller == Poll5(i) ==> slot.state.CONNECTING?)
    && match slot.state
       case FREE => (slot.fd.None? && !HasThread(s, i))
       case FAILED => (slot.fd.None? && !HasThread(s, i))
       case RESOLVING => (HasThread(s, i) || s.caller == Starting(i))
       case _ =>
         && !HasThread(s, i)
         && (s.caller == Close4(i) ==> slot.fd.None?)
         && (s.caller != Close4(i) ==> slot.fd.Some?)
         && (s.caller != Close4(i) && s.caller != Close3(i) ==> Owns(s, slot.fd.value, InSlot(i)))
  }

  predicate Owns(s: Net, fd: nat, owner: Owner) {
    fd in s.open && s.open[fd] == owner
  }

  ghost predicate ThreadOk(s: Net, w: nat)
    requires w in s.threads
  {
    var t := s.threads[w];
    && w < s.born && Handle(s, t.slot) && s.slots[t.slot].state.RESOLVING?
    && (t.pc.Announce? ==> s.slots[t.slot].fd.Some? && Owns(s, s.slots[t.slot].fd.value, InSlot(t.slot)))
    && (!t.pc.Announce? ==> s.slots[t.slot].fd.None?)
    && (HeldBy(t.pc).Some? ==> Owns(s, HeldBy(t.pc).value, InThread(w)))
  }

  /** What is said to own a descriptor has it. */
  ghost predicate OwnerOk(s: Net, fd: nat)
    requires fd in s.open
  {
    && fd < s.named
    && match s.open[fd]
       case InSlot(i) => Handle(s, i) && s.slots[i].fd == Some(fd) && s.caller != Close3(i)
       case InThread(w) => w in s.threads && HeldBy(s.threads[w].pc) == Some(fd)
       case InCaller => s.caller.Holding? && s.caller.fd == fd
  }

  ghost predicate Inv(s: Net) {
    && !s.fault && |s.slots| == HANDLES
    && (forall i | 0 < i < HANDLES :: SlotOk(s, i))
    && (forall w | w in s.threads :: ThreadOk(s, w))
    && (forall w, v | w in s.threads && v in s.threads && s.threads[w].slot == s.threads[v].slot :: w == v)
    && (forall fd | fd in s.open :: OwnerOk(s, fd))
    && (s.caller.Holding? ==> Owns(s, s.caller.fd, InCaller)
                              && !s.caller.kind.FREE? && !s.caller.kind.FAILED? && !s.caller.kind.RESOLVING?)
  }

  /** To keep `Inv` it is enough to keep it for each slot, thread and descriptor, given what it
      says of that one before. */
  lemma ConnectKeeps(s: Net, i: nat)
    requires Inv(s) && Move(s, Connect(i)) != s
    ensures Inv(Move(s, Connect(i)))
  {
    var now := Move(s, Connect(i));
    assert SlotOk(s, i);
    forall k | 0 < k < HANDLES ensures SlotOk(now, k) {
      assert SlotOk(s, k);
      assert HasThread(now, k) == HasThread(s, k);
    }
    forall w | w in now.threads ensures ThreadOk(now, w) { assert ThreadOk(s, w); }
    forall fd | fd in now.open ensures OwnerOk(now, fd) { assert OwnerOk(s, fd); }
  }

  lemma StartedKeeps(s: Net)
    requires Inv(s) && s.caller.Starting? && Handle(s, s.caller.i)
    ensures Inv(Move(s, Start(true)))
  {
    var now, i := Move(s, Start(true)), s.caller.i;
    assert SlotOk(s, i);
    forall w | w in s.threads ensures ThreadOk(now, w) && s.threads[w].slot != i {
      assert ThreadOk(s, w);
    }
    assert now.threads.Keys == s.threads.Keys + {s.born};
    forall k | 0 < k < HANDLES ensures SlotOk(now, k) {
      assert SlotOk(s, k);
      if k == i { assert s.born in now.threads; } else { assert HasThread(now, k) == HasThread(s, k); }
    }
    forall fd | fd in now.open ensures OwnerOk(now, fd) { assert OwnerOk(s, fd); }
  }

  lemma NotStartedKeeps(s: Net)
    requires Inv(s) && s.caller.Starting? && Handle(s, s.caller.i)
    ensures Inv(Move(s, Start(false)))
  {
    var now, i := Move(s, Start(false)), s.caller.i;
    assert SlotOk(s, i);
    forall w | w in s.threads ensures ThreadOk(now, w) {
      assert ThreadOk(s, w);
    }
    forall k | 0 < k < HANDLES ensures SlotOk(now, k) {
      assert SlotOk(s, k);
      assert HasThread(now, k) == HasThread(s, k);
    }
    forall fd | fd in now.open ensures OwnerOk(now, fd) { assert OwnerOk(s, fd); }
  }

  lemma StartKeeps(s: Net, ok: bool)
    requires Inv(s) && Move(s, Start(ok)) != s
    ensures Inv(Move(s, Start(ok)))
  {
    hide Inv;
    if ok { StartedKeeps(s); } else { NotStartedKeeps(s); }
  }

  lemma SocketKeeps(s: Net, kind: SockState)
    requires Inv(s) && Move(s, Socket(kind)) != s
    ensures Inv(Move(s, Socket(kind)))
  {
    var now := Move(s, Socket(kind));
    forall k | 0 < k < HANDLES ensures SlotOk(now, k) {
      assert SlotOk(s, k);
      assert HasThread(now, k) == HasThread(s, k);
    }
    forall w | w in now.threads ensures ThreadOk(now, w) { assert ThreadOk(s, w); }
    forall fd | fd in now.open ensures OwnerOk(now, fd) { if fd in s.open { assert OwnerOk(s, fd); } }
  }

  lemma AcceptKeeps(s: Net, i: nat, taken: bool)
    requires Inv(s) && Move(s, Accept(i, taken)) != s
    ensures Inv(Move(s, Accept(i, taken)))
  {
    var now := Move(s, Accept(i, taken));
    assert SlotOk(s, i);
    forall w | w in now.threads ensures ThreadOk(now, w) {
      assert ThreadOk(s, w);
    }
    forall k | 0 < k < HANDLES ensures SlotOk(now, k) {
      assert SlotOk(s, k);
      assert HasThread(now, k) == HasThread(s, k);
    }
    forall fd | fd in now.open ensures OwnerOk(now, fd) {
      if fd in s.open { assert OwnerOk(s, fd); }
    }
  }

  lemma PlaceKeeps(s: Net, i: nat)
    requires Inv(s) && Move(s, Place(i)) != s
    ensures Inv(Move(s, Place(i)))
  {
    var now := Move(s, Place(i));
    assert SlotOk(s, i);
    forall w | w in now.threads ensures ThreadOk(now, w) {
      assert ThreadOk(s, w);
      assert SlotOk(s, s.threads[w].slot);
    }
    forall k | 0 < k < HANDLES ensures SlotOk(now, k) {
      assert SlotOk(s, k);
      assert HasThread(now, k) == HasThread(s, k);
    }
    forall fd | fd in now.open ensures OwnerOk(now, fd) {
      assert OwnerOk(s, fd);
    }
  }

  lemma NoRoomKeeps(s: Net)
    requires Inv(s) && Move(s, NoRoom) != s
    ensures Inv(Move(s, NoRoom))
  {
    var now := Move(s, NoRoom);
    forall w | w in now.threads ensures ThreadOk(now, w) {
      assert ThreadOk(s, w);
      assert SlotOk(s, s.threads[w].slot);
    }
    forall k | 0 < k < HANDLES ensures SlotOk(now, k) {
      assert SlotOk(s, k);
      assert HasThread(now, k) == HasThread(s, k);
    }
    forall fd | fd in now.open ensures OwnerOk(now, fd) {
      assert OwnerOk(s, fd);
    }
  }

  /** What the caller has to have seen of a slot to go on to `next`. */
  predicate Seen(s: Net, next: Caller) {
    match next
    case Starting(_) => false
    case Holding(_, _) => false
    case Close3(_) => false
    case Close4(_) => false
    case Close2(i) => Handle(s, i) && !s.slots[i].state.RESOLVING?
    case Using(i) => Handle(s, i) && s.slots[i].state.CONNECTED?
    case Poll5(i) => Handle(s, i) && s.slots[i].state.CONNECTING?
    case _ => true
  }

  predicate Looking(caller: Caller) {
    caller.Idle? || caller.Close1? || caller.Poll1? || caller.Poll2? || caller.Poll3? || caller.Poll4? || caller.Using?
  }

  lemma TurnKeeps(s: Net, next: Caller)
    requires Inv(s) && Looking(s.caller) && Seen(s, next)
    ensures Inv(s.(caller := next))
  {
    var now := s.(caller := next);
    forall w | w in now.threads ensures ThreadOk(now, w) { assert ThreadOk(s, w); }
    forall k | 0 < k < HANDLES ensures SlotOk(now, k) {
      assert SlotOk(s, k);
      assert HasThread(now, k) == HasThread(s, k);
    }
    forall fd | fd in now.open ensures OwnerOk(now, fd) { assert OwnerOk(s, fd); }
  }

  /** A descriptor that a slot has is open, unless the caller is on its way to forget it. */
  lemma InSlotIsOpen(s: Net, i: nat)
    requires Inv(s) && Handle(s, i) && s.slots[i].fd.Some? && s.caller != Close3(i)
    ensures Owns(s, s.slots[i].fd.value, InSlot(i))
  {
    assert SlotOk(s, i);
    if HasThread(s, i) {
      var w :| w in s.threads && s.threads[w].slot == i;
      assert ThreadOk(s, w);
    }
  }

  lemma LookKeeps(s: Net, writable: bool)
    requires Inv(s) && Looking(s.caller)
    ensures Inv(CallerMove(s, writable))
  {
    if s.caller.Idle? || !Handle(s, s.caller.i) { return; }
    var now, i := CallerMove(s, writable), s.caller.i;
    assert SlotOk(s, i);
    if s.slots[i].fd.Some? { InSlotIsOpen(s, i); }
    hide SlotOk, ThreadOk, OwnerOk;
    assert now == s.(caller := now.caller) && Seen(s, now.caller);
    TurnKeeps(s, now.caller);
  }

  lemma CancelKeeps(s: Net, writable: bool)
    requires Inv(s) && s.caller.Cancel? && Handle(s, s.caller.i)
    ensures Inv(CallerMove(s, writable))
  {
    var now := CallerMove(s, writable);
    assert SlotOk(s, s.caller.i);
    forall w | w in now.threads ensures ThreadOk(now, w) {
      assert ThreadOk(s, w);
      assert SlotOk(s, s.threads[w].slot);
    }
    forall k | 0 < k < HANDLES ensures SlotOk(now, k) {
      assert SlotOk(s, k);
      assert HasThread(now, k) == HasThread(s, k);
    }
    forall fd | fd in now.open ensures OwnerOk(now, fd) { assert OwnerOk(s, fd); }
  }

  lemma Close3Keeps(s: Net, writable: bool)
    requires Inv(s) && s.caller.Close3? && Handle(s, s.caller.i)
    ensures Inv(CallerMove(s, writable))
  {
    var now := CallerMove(s, writable);
    assert SlotOk(s, s.caller.i);
    forall w | w in now.threads ensures ThreadOk(now, w) {
      assert ThreadOk(s, w);
      assert SlotOk(s, s.threads[w].slot);
    }
    forall k | 0 < k < HANDLES ensures SlotOk(now, k) {
      assert SlotOk(s, k);
      assert HasThread(now, k) == HasThread(s, k);
    }
    forall fd | fd in now.open ensures OwnerOk(now, fd) { assert OwnerOk(s, fd); }
  }

  lemma Close4Keeps(s: Net, writable: bool)
    requires Inv(s) && s.caller.Close4? && Handle(s, s.caller.i)
    ensures Inv(CallerMove(s, writable))
  {
    var now := CallerMove(s, writable);
    assert SlotOk(s, s.caller.i);
    forall w | w in now.threads ensures ThreadOk(now, w) {
      assert ThreadOk(s, w);
      assert SlotOk(s, s.threads[w].slot);
    }
    forall k | 0 < k < HANDLES ensures SlotOk(now, k) {
      assert SlotOk(s, k);
      assert HasThread(now, k) == HasThread(s, k);
    }
    forall fd | fd in now.open ensures OwnerOk(now, fd) { assert OwnerOk(s, fd); }
  }

  lemma Poll5Keeps(s: Net, writable: bool)
    requires Inv(s) && s.caller.Poll5? && Handle(s, s.caller.i)
    ensures Inv(CallerMove(s, writable))
  {
    var now := CallerMove(s, writable);
    assert SlotOk(s, s.caller.i);
    forall w | w in now.threads ensures ThreadOk(now, w) {
      assert ThreadOk(s, w);
      assert SlotOk(s, s.threads[w].slot);
    }
    forall k | 0 < k < HANDLES ensures SlotOk(now, k) {
      assert SlotOk(s, k);
      assert HasThread(now, k) == HasThread(s, k);
    }
    forall fd | fd in now.open ensures OwnerOk(now, fd) { assert OwnerOk(s, fd); }
  }

  lemma WriteKeeps(s: Net, writable: bool)
    requires Inv(s) && (s.caller.Cancel? || s.caller.Close3? || s.caller.Close4? || s.caller.Poll5?)
    ensures Inv(CallerMove(s, writable))
  {
    if Handle(s, s.caller.i) {
      hide Inv, CallerMove;
      if s.caller.Cancel? { CancelKeeps(s, writable); }
      else if s.caller.Close3? { Close3Keeps(s, writable); }
      else if s.caller.Close4? { Close4Keeps(s, writable); }
      else { Poll5Keeps(s, writable); }
    }
  }

  lemma Close2Slot(s: Net, writable: bool, k: nat)
    requires Inv(s) && s.caller.Close2? && Handle(s, s.caller.i) && 0 < k < HANDLES
    ensures SlotOk(CallerMove(s, writable), k)
  {
    var now := CallerMove(s, writable);
    assert SlotOk(s, k) && SlotOk(s, s.caller.i);
    assert HasThread(now, k) == HasThread(s, k);
  }

  lemma Close2Keeps(s: Net, writable: bool)
    requires Inv(s) && s.caller.Close2?
    ensures Inv(CallerMove(s, writable))
  {
    if !Handle(s, s.caller.i) { return; }
    var now := CallerMove(s, writable);
    assert SlotOk(s, s.caller.i);
    hide SlotOk;
    forall w | w in now.threads ensures ThreadOk(now, w) { assert ThreadOk(s, w); }
    forall k | 0 < k < HANDLES ensures SlotOk(now, k) { Close2Slot(s, writable, k); }
    forall fd | fd in now.open ensures OwnerOk(now, fd) { assert OwnerOk(s, fd); }
  }

  lemma CallerKeeps(s: Net, a: Action)
    requires Inv(s) && !a.Work?
    ensures Inv(Move(s, a))
  {
    var now := Move(s, a);
    if now == s { return; }
    match a
    case Connect(i) => ConnectKeeps(s, i);
    case Start(ok) => StartKeeps(s, ok);
    case Socket(kind) => SocketKeeps(s, kind);
    case Accept(i, taken) => AcceptKeeps(s, i, taken);
    case Place(i) => PlaceKeeps(s, i);
    case NoRoom => NoRoomKeeps(s);
    case Close(i) => TurnKeeps(s, now.caller);
    case Poll(i) => TurnKeeps(s, now.caller);
    case Send(i) => TurnKeeps(s, now.caller);
    case Go(writable) =>
      if Looking(s.caller) { LookKeeps(s, writable); }
      else if s.caller.Close2? { Close2Keeps(s, writable); }
      else { WriteKeeps(s, writable); }
  }

  // ----- the workers -----

  lemma ThinkKeeps(s: Net, w: nat, pc: Worker)
    requires Inv(s) && w in s.threads && !pc.Announce? && !s.threads[w].pc.Announce?
    requires HeldBy(pc) == HeldBy(s.threads[w].pc)
    ensures Inv(At(s, w, pc))
  {
    var now := At(s, w, pc);
    forall v | v in now.threads ensures ThreadOk(now, v) { assert ThreadOk(s, v); }
    forall k | 0 < k < HANDLES ensures SlotOk(now, k) {
      assert SlotOk(s, k);
      assert HasThread(now, k) ==> HasThread(s, k);
      if HasThread(s, k) {
        var v :| v in s.threads && s.threads[v].slot == k;
        assert v in now.threads;
      }
    }
    forall fd | fd in now.open ensures OwnerOk(now, fd) { assert OwnerOk(s, fd); }
  }

  lemma OpenKeeps(s: Net, w: nat)
    requires Inv(s) && w in s.threads && s.threads[w].pc.Opening?
    ensures Inv(At(Opened(s, InThread(w)), w, Trying(s.named)))
  {
    var now := At(Opened(s, InThread(w)), w, Trying(s.named));
    forall v | v in now.threads ensures ThreadOk(now, v) {
      assert ThreadOk(s, v);
    }
    forall k | 0 < k < HANDLES ensures SlotOk(now, k) {
      assert SlotOk(s, k);
      assert HasThread(now, k) ==> HasThread(s, k);
      if HasThread(s, k) {
        var v :| v in s.threads && s.threads[v].slot == k;
        assert v in now.threads;
      }
    }
    forall fd | fd in now.open ensures OwnerOk(now, fd) { if fd in s.open { assert OwnerOk(s, fd); } }
  }

  lemma DropSlot(s: Net, w: nat, fd: nat, pc: Worker, k: nat)
    requires Inv(s) && w in s.threads && HeldBy(s.threads[w].pc) == Some(fd) && (pc.Opening? || pc.GiveUp?)
    requires 0 < k < HANDLES
    ensures SlotOk(At(Closed(s, fd), w, pc), k)
  {
    var now := At(Closed(s, fd), w, pc);
    assert ThreadOk(s, w) && SlotOk(s, k);
    assert HasThread(now, k) ==> HasThread(s, k);
    if HasThread(s, k) {
      var v :| v in s.threads && s.threads[v].slot == k;
      assert v in now.threads;
    }
  }

  lemma DropThread(s: Net, w: nat, fd: nat, pc: Worker, v: nat)
    requires Inv(s) && w in s.threads && HeldBy(s.threads[w].pc) == Some(fd) && (pc.Opening? || pc.GiveUp?)
    requires v in s.threads
    ensures ThreadOk(At(Closed(s, fd), w, pc), v)
  {
    assert ThreadOk(s, w) && ThreadOk(s, v);
  }

  lemma DropOwner(s: Net, w: nat, fd: nat, pc: Worker, other: nat)
    requires Inv(s) && w in s.threads && HeldBy(s.threads[w].pc) == Some(fd) && (pc.Opening? || pc.GiveUp?)
    requires other in s.open && other != fd
    ensures OwnerOk(At(Closed(s, fd), w, pc), other)
  {
    assert OwnerOk(s, other);
  }

  lemma DropKeeps(s: Net, w: nat, fd: nat, pc: Worker)
    requires Inv(s) && w in s.threads && HeldBy(s.threads[w].pc) == Some(fd) && (pc.Opening? || pc.GiveUp?)
    ensures Inv(At(Closed(s, fd), w, pc))
  {
    var now := At(Closed(s, fd), w, pc);
    assert ThreadOk(s, w);
    hide SlotOk, ThreadOk, OwnerOk;
    forall v | v in now.threads ensures ThreadOk(now, v) { DropThread(s, w, fd, pc, v); }
    forall k | 0 < k < HANDLES ensures SlotOk(now, k) { DropSlot(s, w, fd, pc, k); }
    forall other | other in now.open ensures OwnerOk(now, other) { DropOwner(s, w, fd, pc, other); }
  }

  lemma PublishThread(s: Net, w: nat, v: nat)
    requires Inv(s) && w in s.threads && s.threads[w].pc.Publish? && v in s.threads
    requires Handle(s, s.threads[w].slot)
    ensures ThreadOk(WorkerMove(s, w, true, true), v)
  {
    assert ThreadOk(s, w) && ThreadOk(s, v);
  }

  lemma PublishSlot(s: Net, w: nat, k: nat)
    requires Inv(s) && w in s.threads && s.threads[w].pc.Publish?
    requires Handle(s, s.threads[w].slot) && 0 < k < HANDLES
    ensures SlotOk(WorkerMove(s, w, true, true), k)
  {
    var now := WorkerMove(s, w, true, true);
    assert ThreadOk(s, w) && SlotOk(s, k);
    assert HasThread(now, k) ==> HasThread(s, k);
    if HasThread(s, k) {
      var v :| v in s.threads && s.threads[v].slot == k;
      assert v in now.threads;
    }
  }

  lemma PublishKeeps(s: Net, w: nat)
    requires Inv(s) && w in s.threads && s.threads[w].pc.Publish?
    ensures Handle(s, s.threads[w].slot) && Inv(WorkerMove(s, w, true, true))
  {
    assert ThreadOk(s, w) && SlotOk(s, s.threads[w].slot);
    var now := WorkerMove(s, w, true, true);
    forall fd | fd in now.open ensures OwnerOk(now, fd) { assert OwnerOk(s, fd); }
    hide ThreadOk, SlotOk, OwnerOk;
    forall v | v in now.threads ensures ThreadOk(now, v) { PublishThread(s, w, v); }
    forall k | 0 < k < HANDLES ensures SlotOk(now, k) { PublishSlot(s, w, k); }
  }

  lemma EndKeeps(s: Net, w: nat, good: bool, made: bool)
    requires Inv(s) && w in s.threads
    requires s.threads[w].pc.Announce? || s.threads[w].pc.GiveUp? || s.threads[w].pc.FailIt?
    ensures Handle(s, s.threads[w].slot) && Inv(WorkerMove(s, w, good, made))
  {
    assert ThreadOk(s, w);
    var now := WorkerMove(s, w, good, made);
    var i := s.threads[w].slot;
    forall v | v in now.threads ensures ThreadOk(now, v) {
      assert ThreadOk(s, v);
    }
    forall k | 0 < k < HANDLES ensures SlotOk(now, k) {
      assert SlotOk(s, k);
      assert HasThread(now, k) ==> HasThread(s, k);
      if k != i && HasThread(s, k) {
        var v :| v in s.threads && s.threads[v].slot == k;
        assert v in now.threads;
      }
    }
    forall fd | fd in now.open ensures OwnerOk(now, fd) { assert OwnerOk(s, fd); }
  }

  lemma WorkKeeps(s: Net, w: nat, good: bool, made: bool)
    requires Inv(s) && w in s.threads
    ensures Handle(s, s.threads[w].slot) && Inv(WorkerMove(s, w, good, made))
  {
    assert ThreadOk(s, w);
    hide SlotOk, ThreadOk, OwnerOk;
    var pc, now := s.threads[w].pc, WorkerMove(s, w, good, made);
    match pc
    case Opening => if good { OpenKeeps(s, w); } else { ThinkKeeps(s, w, now.threads[w].pc); }
    case Trying(fd) => if good { ThinkKeeps(s, w, now.threads[w].pc); } else { DropKeeps(s, w, fd, Opening); }
    case Dropping(fd) => DropKeeps(s, w, fd, GiveUp);
    case Publish(_, _) => PublishKeeps(s, w);
    case Announce(_) => EndKeeps(s, w, good, made);
    case GiveUp => EndKeeps(s, w, good, made);
    case FailIt => EndKeeps(s, w, good, made);
    case _ => ThinkKeeps(s, w, now.threads[w].pc);
  }

  lemma MoveKeeps(s: Net, a: Action)
    requires Inv(s)
    ensures Inv(Move(s, a))
  {
    hide SlotOk, ThreadOk, OwnerOk;
    if a.Work? {
      if a.w in s.threads { WorkKeeps(s, a.w, a.good, a.made); }
    } else {
      CallerKeeps(s, a);
    }
  }

  lemma {:induction false} RunKeeps(actions: seq<Action>)
    ensures Inv(Run(actions))
    decreases |actions|
  {
    if actions == [] {
      var s := Init();
      forall i | 0 < i < HANDLES ensures SlotOk(s, i) {}
    } else {
      RunKeeps(actions[..|actions| - 1]);
      MoveKeeps(Run(actions[..|actions| - 1]), actions[|actions| - 1]);
    }
  }

  // ----- what comes of it -----

  /** In every run no descriptor is closed twice, and none is used that is not open. */
  lemma NeverMisused(actions: seq<Action>)
    ensures !Run(actions).fault
  {
    RunKeeps(actions);
  }

  /** A slot has one worker at most, and only while it is resolving. */
  lemma OneWorker(actions: seq<Action>, w: nat, v: nat)
    ensures var s := Run(actions);
            && (w in s.threads ==> Handle(s, s.threads[w].slot) && s.slots[s.threads[w].slot].state.RESOLVING?)
            && (w in s.threads && v in s.threads && s.threads[w].slot == s.threads[v].slot ==> w == v)
  {
    RunKeeps(actions);
    var s := Run(actions);
    if w in s.threads { assert ThreadOk(s, w); }
  }

  /** The slot of a worker is not given to another while the worker lives: it stays the
      worker's, and a cancel of it stays. */
  lemma NotReallocated(actions: seq<Action>, a: Action, w: nat)
    ensures var s, now := Run(actions), Run(actions + [a]);
            w in s.threads && w in now.threads ==>
              var i := s.threads[w].slot;
              && now.threads[w].slot == i && Handle(s, i) && Handle(now, i)
              && now.slots[i].state.RESOLVING?
              && (s.slots[i].cancelled ==> now.slots[i].cancelled)
  {
    RunKeeps(actions);
    RunKeeps(actions + [a]);
    var s, now := Run(actions), Run(actions + [a]);
    assert (actions + [a])[..|actions|] == actions;
    if w in s.threads && w in now.threads {
      assert ThreadOk(s, w) && ThreadOk(now, w);
      WorkerStays(s, a, w);
    }
  }

  lemma CallerLeaves(s: Net, a: Action, w: nat)
    requires !a.Work? && w in s.threads && w < s.born
    requires Handle(s, s.threads[w].slot) && s.slots[s.threads[w].slot].state.RESOLVING?
    ensures var now, i := Move(s, a), s.threads[w].slot;
            && w in now.threads && now.threads[w] == s.threads[w] && Handle(now, i)
            && (s.slots[i].cancelled ==> now.slots[i].cancelled)
  {
    match a
    case Connect(_) =>
    case Start(_) =>
    case Socket(_) =>
    case Accept(_, _) =>
    case Place(_) =>
    case NoRoom =>
    case Close(_) =>
    case Poll(_) =>
    case Send(_) =>
    case Go(_) =>
  }

  lemma WorkLeaves(s: Net, v: nat, good: bool, made: bool, w: nat)
    requires v in s.threads && w in s.threads && Handle(s, s.threads[v].slot) && Handle(s, s.threads[w].slot)
    ensures var now, i := WorkerMove(s, v, good, made), s.threads[w].slot;
            && |now.slots| == |s.slots|
            && now.slots[i].cancelled == s.slots[i].cancelled
            && (w in now.threads ==> now.threads[w].slot == i)
            && (w != v ==> w in now.threads && now.threads[w] == s.threads[w])
  {
    match s.threads[v].pc
    case Resolving =>
    case Resolved(_) =>
    case Opening =>
    case Trying(_) =>
    case Tried(_, _) =>
    case Dropping(_) =>
    case Publish(_, _) =>
    case Announce(_) =>
    case GiveUp =>
    case FailIt =>
  }

  lemma WorkerStays(s: Net, a: Action, w: nat)
    requires Inv(s) && w in s.threads && w in Move(s, a).threads
    ensures var now, i := Move(s, a), s.threads[w].slot;
            && now.threads[w].slot == i && Handle(s, i) && Handle(now, i)
            && (s.slots[i].cancelled ==> now.slots[i].cancelled)
  {
    assert ThreadOk(s, w);
    hide SlotOk, OwnerOk;
    if !a.Work? {
      CallerLeaves(s, a, w);
    } else if a.w in s.threads {
      assert ThreadOk(s, a.w);
      WorkLeaves(s, a.w, a.good, a.made, w);
    }
  }

  /** It is for this to close the descriptor. */
  predicate Has(s: Net, owner: Owner, fd: nat) {
    match owner
    case InSlot(i) => Handle(s, i) && s.slots[i].fd == Some(fd) && s.caller != Close3(i)
    case InThread(w) => w in s.threads && HeldBy(s.threads[w].pc) == Some(fd)
    case InCaller => s.caller.Holding? && s.caller.fd == fd
  }

  /** A descriptor is open just when one slot, worker or call has it, and only one does. */
  lemma OneOwner(actions: seq<Action>, fd: nat)
    ensures var s := Run(actions);
            && (fd in s.open ==> Has(s, s.open[fd], fd))
            && (forall owner :: Has(s, owner, fd) ==> fd in s.open && s.open[fd] == owner)
  {
    RunKeeps(actions);
    var s := Run(actions);
    if fd in s.open { assert OwnerOk(s, fd); }
    forall owner | Has(s, owner, fd) ensures fd in s.open && s.open[fd] == owner {
      match owner
      case InSlot(i) => InSlotIsOpen(s, i);
      case InThread(w) => assert ThreadOk(s, w);
      case InCaller =>
    }
  }

  /** A slot that is connected, or is to listen or take datagrams, has a descriptor that is
      open, but for when the caller is itself between closing it and saying so. */
  lemma ConnectedIsOpen(actions: seq<Action>, i: nat)
    ensures var s := Run(actions);
            Handle(s, i) && s.caller != Close3(i) && s.caller != Close4(i) &&
            (s.slots[i].state.CONNECTED? || s.slots[i].state.CONNECTING? ||
             s.slots[i].state.LISTENING? || s.slots[i].state.UDP?) ==>
              s.slots[i].fd.Some? && Owns(s, s.slots[i].fd.value, InSlot(i))
  {
    RunKeeps(actions);
    var s := Run(actions);
    if Handle(s, i) { assert SlotOk(s, i); }
  }

  /** A worker that has looked for the last time if it is cancelled, and will not go by it. */
  predicate Past(pc: Worker) {
    pc.Publish? || pc.Announce? || pc.FailIt?
  }

  predicate Cancelled(s: Net, w: nat) {
    w in s.threads && Handle(s, s.threads[w].slot) && s.slots[s.threads[w].slot].cancelled
  }

  /** A worker whose slot was cancelled before it looked for the last time. */
  predicate Doomed(s: Net, w: nat) {
    Cancelled(s, w) && !Past(s.threads[w].pc)
  }

  /** A worker's own move: what it does of its slot, if it ends with it, and if it does not. */
  lemma OwnMove(s: Net, w: nat, good: bool, made: bool)
    requires w in s.threads && Handle(s, s.threads[w].slot)
    ensures var now, t := WorkerMove(s, w, good, made), s.threads[w];
            if w in now.threads then
              if Past(t.pc) then Past(now.threads[w].pc)
              else s.slots[t.slot].cancelled ==> !Past(now.threads[w].pc)
            else if Past(t.pc) then !now.slots[t.slot].state.FREE?
            else now.slots[t.slot] == s.slots[t.slot].(state := FREE)
  {
    match s.threads[w].pc
    case Resolving =>
    case Resolved(_) =>
    case Opening =>
    case Trying(_) =>
    case Tried(_, _) =>
    case Dropping(_) =>
    case Publish(_, _) =>
    case Announce(_) =>
    case GiveUp =>
    case FailIt =>
  }

  /** Whatever is done, a worker that is cancelled in time is that till it ends, and then its slot
      is free. One that is past its last look is that till it ends, and then its slot is not. */
  lemma EndsAs(s: Net, a: Action, w: nat)
    requires Inv(s) && w in s.threads
    ensures var now, i := Move(s, a), s.threads[w].slot;
            && Handle(now, i) && (w in now.threads ==> now.threads[w].slot == i)
            && (Cancelled(s, w) && w in now.threads ==> Cancelled(now, w))
            && (Doomed(s, w) ==> if w in now.threads then Doomed(now, w)
                                 else now.slots[i].state.FREE? && now.slots[i].fd.None?)
            && (Past(s.threads[w].pc) ==> if w in now.threads then Past(now.threads[w].pc)
                                          else !now.slots[i].state.FREE?)
  {
    assert ThreadOk(s, w);
    hide SlotOk, OwnerOk, HeldBy;
    if !a.Work? {
      CallerLeaves(s, a, w);
    } else if a.w in s.threads {
      assert ThreadOk(s, a.w);
      WorkLeaves(s, a.w, a.good, a.made, w);
      if a.w == w { OwnMove(s, w, a.good, a.made); }
    }
    hide Move, ThreadOk;
  }

  /** The moves of `more`, from a run on, with which a worker ends. */
  ghost predicate EndsWith(actions: seq<Action>, more: seq<Action>, w: nat) {
    && |more| > 0 && w !in Run(actions + more).threads
    && forall k | 0 <= k < |more| :: LivesAt(actions, more, w, k)
  }

  ghost predicate LivesAt(actions: seq<Action>, more: seq<Action>, w: nat, k: nat)
    requires k <= |more|
  {
    w in Run(actions + more[..k]).threads
  }

  lemma RunOn(actions: seq<Action>, a: Action)
    ensures Run(actions + [a]) == Move(Run(actions), a)
  {
    assert (actions + [a])[..|actions|] == actions;
  }

  lemma RunFrom(actions: seq<Action>, more: seq<Action>, k: nat)
    requires k < |more|
    ensures Run(actions + more[..k + 1]) == Move(Run(actions + more[..k]), more[k])
  {
    assert actions + more[..k + 1] == actions + more[..k] + [more[k]];
    RunOn(actions + more[..k], more[k]);
  }

  lemma {:induction false} StaysAs(actions: seq<Action>, more: seq<Action>, w: nat, k: nat)
    requires EndsWith(actions, more, w) && Cancelled(Run(actions), w) && k < |more|
    ensures var s, now := Run(actions), Run(actions + more[..k]);
            && Cancelled(now, w) && now.threads[w].slot == s.threads[w].slot
            && Past(now.threads[w].pc) == Past(s.threads[w].pc)
  {
    hide Run, Move, Past, Cancelled, Doomed, Inv;
    if k == 0 {
      assert actions + more[..0] == actions;
      CancelledIn(Run(actions), w);
    } else {
      StaysAs(actions, more, w, k - 1);
      RunKeeps(actions + more[..k - 1]);
      RunFrom(actions, more, k - 1);
      assert LivesAt(actions, more, w, k) && LivesAt(actions, more, w, k - 1);
      EndsAs(Run(actions + more[..k - 1]), more[k - 1], w);
      DoomedIs(Run(actions + more[..k - 1]), w);
      DoomedIs(Run(actions + more[..k]), w);
    }
  }

  lemma CancelledIn(s: Net, w: nat)
    ensures Cancelled(s, w) ==> w in s.threads
  {
  }

  lemma DoomedIs(s: Net, w: nat)
    requires w in s.threads
    ensures Doomed(s, w) <==> Cancelled(s, w) && !Past(s.threads[w].pc)
  {
  }

  /** A close frees a slot that is resolving just when the worker has still to look if it is
      cancelled: of a worker whose slot is cancelled, and whatever is done till it ends, the slot is
      free when it ends if and only if it was not past its last look. */
  lemma FreedIff(actions: seq<Action>, more: seq<Action>, w: nat)
    requires Cancelled(Run(actions), w) && EndsWith(actions, more, w)
    ensures var s, end := Run(actions), Run(actions + more);
            var i := s.threads[w].slot;
            && Handle(end, i) && (end.slots[i].state.FREE? <==> !Past(s.threads[w].pc))
            && (end.slots[i].state.FREE? ==> end.slots[i].fd.None?)
  {
    hide Run, Move, Past, Cancelled, Doomed, Inv;
    CancelledIn(Run(actions), w);
    var k := |more| - 1;
    StaysAs(actions, more, w, k);
    RunKeeps(actions + more[..k]);
    RunFrom(actions, more, k);
    assert more[..k + 1] == more;
    assert LivesAt(actions, more, w, k);
    EndsAs(Run(actions + more[..k]), more[k], w);
    DoomedIs(Run(actions + more[..k]), w);
  }

  predicate Looks(s: Net, threads: map<nat, Thread>, slot: Slot, caller: Caller) {
    s.threads == threads && |s.slots| == HANDLES && s.slots[1] == slot && s.caller == caller
  }

  lemma Then(p: seq<Action>, a: Action, threads: map<nat, Thread>, slot: Slot, caller: Caller) returns (q: seq<Action>)
    requires Looks(Move(Run(p), a), threads, slot, caller)
    ensures Looks(Run(q), threads, slot, caller) && q == p + [a]
  {
    q := p + [a];
    RunOn(p, a);
  }

  /** A worker of the first slot. */
  function Only(w: nat, pc: Worker): map<nat, Thread> {
    map[w := Thread(1, pc)]
  }

  lemma RunNone()
    ensures Looks(Run([]), map[], Slot(None, FREE, false), Idle)
  {
  }

  /** A connection asked for, and what it is for found. */
  lemma Asked() returns (p: seq<Action>, w: nat)
    ensures Looks(Run(p), Only(w, Opening), Slot(None, RESOLVING, false), Idle)
  {
    hide Run, Init;
    var slot := Slot(None, RESOLVING, false);
    RunNone();
    p := Then([], Connect(1), map[], slot, Starting(1));
    w := Run(p).born;
    p := Then(p, Start(true), Only(w, Resolving), slot, Idle);
    p := Then(p, Work(w, true, true), Only(w, Resolved(true)), slot, Idle);
    p := Then(p, Work(w, true, true), Only(w, Opening), slot, Idle);
  }

  /** And made, up to where the worker has looked for the last time. */
  lemma Looked() returns (p: seq<Action>, w: nat, fd: nat)
    ensures Looks(Run(p), Only(w, Publish(fd, true)), Slot(None, RESOLVING, false), Idle)
  {
    hide Run;
    var slot := Slot(None, RESOLVING, false);
    p, w := Asked();
    fd := Run(p).named;
    p := Then(p, Work(w, true, true), Only(w, Trying(fd)), slot, Idle);
    p := Then(p, Work(w, true, true), Only(w, Tried(Some(fd), true)), slot, Idle);
    p := Then(p, Work(w, true, true), Only(w, Publish(fd, true)), slot, Idle);
  }

  /** A close that comes after that, up to where it puts down that it came. */
  lemma ClosedAfter() returns (p: seq<Action>, w: nat, fd: nat)
    ensures Looks(Run(p), Only(w, Publish(fd, true)), Slot(None, RESOLVING, true), Idle)
  {
    hide Run;
    var slot := Slot(None, RESOLVING, false);
    p, w, fd := Looked();
    p := Then(p, Close(1), Only(w, Publish(fd, true)), slot, Close1(1));
    p := Then(p, Go(true), Only(w, Publish(fd, true)), slot, Cancel(1));
    p := Then(p, Go(true), Only(w, Publish(fd, true)), Slot(None, RESOLVING, true), Idle);
  }

  /** Such a close is told it has closed the socket, and leaves a slot that is connected and
      open. */
  lemma ClosedTooLate()
    ensures exists actions :: var s := Run(actions);
              && s.caller.Idle? && Handle(s, 1) && s.slots[1].cancelled && s.slots[1].state.CONNECTED?
              && s.slots[1].fd.Some? && s.slots[1].fd.value in s.open
  {
    hide Run;
    var p, w, fd := ClosedAfter();
    p := Then(p, Work(w, true, true), Only(w, Announce(true)), Slot(Some(fd), RESOLVING, true), Idle);
    p := Then(p, Work(w, true, true), map[], Slot(Some(fd), CONNECTED, true), Idle);
    ConnectedIsOpen(p, 1);
  }
}
