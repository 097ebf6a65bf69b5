/** When a slot is connected, and what it takes for one to be: over any run, a descriptor that a slot
    has as connected was answered for, and what is answered is in the end put down
    (src/host/net.cpp:105-168, 285-303, 344-434). */
module NetConnects {
  import opened NetSlots
  import opened Options

  // ----- only what was answered -----

  /** The host has said of this descriptor that it is connected: its `connect` was done, a poll found it
      writable, or it was taken from a socket that listens. */
  ghost predicate Answers(s: Net, a: Action, fd: nat) {
    || (a.Work? && a.good && a.made && a.w in s.threads && s.threads[a.w].pc == Trying(fd))
    || (a == Go(true) && s.caller.Poll3? && Handle(s, s.caller.i) && s.slots[s.caller.i].fd == Some(fd))
    || (a.Accept? && a.taken && s.named == fd)
  }

  ghost predicate AnsweredAt(actions: seq<Action>, k: nat, fd: nat)
    requires k < |actions|
  {
    Answers(Run(actions[..k]), actions[k], fd)
  }

  ghost predicate Answered(actions: seq<Action>, fd: nat) {
    exists k :: 0 <= k < |actions| && AnsweredAt(actions, k, fd)
  }

  lemma AnsweredOn(actions: seq<Action>, a: Action, fd: nat)
    ensures Answered(actions, fd) || Answers(Run(actions), a, fd) ==> Answered(actions + [a], fd)
  {
    hide Answers, Run;
    var now := actions + [a];
    assert now[..|actions|] == actions;
    if Answered(actions, fd) {
      var k :| 0 <= k < |actions| && AnsweredAt(actions, k, fd);
      assert now[..k] == actions[..k];
      assert AnsweredAt(now, k, fd);
    } else if Answers(Run(actions), a, fd) {
      assert AnsweredAt(now, |actions|, fd);
    }
  }

  /** The descriptor that is said to be connected, or is on the way to be. */
  function Claims(pc: Worker): Option<nat> {
    match pc
    case Tried(tried, made) => if made then tried else None
    case Publish(fd, made) => if made then Some(fd) else None
    case _ => None
  }

  ghost predicate SlotKnown(s: Net, i: nat, known: iset<nat>)
    requires i < |s.slots|
  {
    var slot := s.slots[i];
    && (slot.state.CONNECTED? && slot.fd.Some? ==> slot.fd.value in known)
    && (s.caller == Poll4(i) || s.caller == Poll5(i) ==> slot.fd.Some? ==> slot.fd.value in known)
    && (s.caller == Poll2(i) || s.caller == Poll3(i) || s.caller == Poll4(i) || s.caller == Poll5(i) ==> !slot.state.RESOLVING?)
  }

  ghost predicate ThreadKnown(s: Net, w: nat, known: iset<nat>)
    requires w in s.threads
  {
    var t := s.threads[w];
    && (Claims(t.pc).Some? ==> Claims(t.pc).value in known)
    && (t.pc == Announce(true) && t.slot < |s.slots| && s.slots[t.slot].fd.Some? ==> s.slots[t.slot].fd.value in known)
  }

  ghost predicate CallerKnown(s: Net, known: iset<nat>) {
    s.caller.Holding? && s.caller.kind.CONNECTED? ==> s.caller.fd in known
  }

  ghost predicate Known(s: Net, known: iset<nat>) {
    && |s.slots| == HANDLES && CallerKnown(s, known)
    && (forall i | 0 < i < HANDLES :: SlotKnown(s, i, known))
    && (forall w | w in s.threads :: ThreadKnown(s, w, known))
  }

  /** What is known after a move: what was, and what it answers. */
  ghost function Learnt(s: Net, a: Action, known: iset<nat>): iset<nat> {
    known + iset fd: nat | Answers(s, a, fd)
  }

  lemma ConnectSlot(s: Net, i: nat, known: iset<nat>, k: nat)
    requires |s.slots| == HANDLES && 0 < k < HANDLES && SlotKnown(s, k, known) && CallerKnown(s, known)
    ensures SlotKnown(Move(s, Connect(i)), k, known) && CallerKnown(Move(s, Connect(i)), known)
  {
  }

  lemma StartSlot(s: Net, ok: bool, known: iset<nat>, k: nat)
    requires |s.slots| == HANDLES && 0 < k < HANDLES && SlotKnown(s, k, known) && CallerKnown(s, known)
    ensures SlotKnown(Move(s, Start(ok)), k, known) && CallerKnown(Move(s, Start(ok)), known)
  {
  }

  lemma MakeSlot(s: Net, a: Action, known: iset<nat>, k: nat)
    requires |s.slots| == HANDLES && 0 < k < HANDLES && SlotKnown(s, k, known) && CallerKnown(s, known)
    requires a.Socket? || a.Accept? || a.NoRoom? || a.Close? || a.Poll? || a.Send?
    ensures SlotKnown(Move(s, a), k, Learnt(s, a, known)) && CallerKnown(Move(s, a), Learnt(s, a, known))
  {
  }

  lemma PlaceSlot(s: Net, i: nat, known: iset<nat>, k: nat)
    requires |s.slots| == HANDLES && 0 < k < HANDLES && SlotKnown(s, k, known) && CallerKnown(s, known)
    ensures SlotKnown(Move(s, Place(i)), k, known) && CallerKnown(Move(s, Place(i)), known)
  {
  }

  predicate Polling(caller: Caller) {
    caller.Poll1? || caller.Poll2? || caller.Poll3? || caller.Poll4? || caller.Poll5?
  }

  lemma PollSlot(s: Net, writable: bool, known: iset<nat>, now: iset<nat>, k: nat)
    requires |s.slots| == HANDLES && 0 < k < HANDLES && SlotKnown(s, k, known) && Polling(s.caller) && known <= now
    requires s.caller == Poll3(k) && writable && s.slots[k].fd.Some? ==> s.slots[k].fd.value in now
    ensures SlotKnown(CallerMove(s, writable), k, now) && CallerKnown(CallerMove(s, writable), now)
  {
  }

  lemma CloseSlot(s: Net, writable: bool, known: iset<nat>, k: nat)
    requires |s.slots| == HANDLES && 0 < k < HANDLES && SlotKnown(s, k, known) && CallerKnown(s, known) && !Polling(s.caller)
    ensures SlotKnown(CallerMove(s, writable), k, known) && CallerKnown(CallerMove(s, writable), known)
  {
  }

  lemma GoSlot(s: Net, writable: bool, known: iset<nat>, k: nat)
    requires |s.slots| == HANDLES && 0 < k < HANDLES && SlotKnown(s, k, known) && CallerKnown(s, known)
    ensures |Move(s, Go(writable)).slots| == HANDLES && SlotKnown(Move(s, Go(writable)), k, Learnt(s, Go(writable), known))
    ensures CallerKnown(Move(s, Go(writable)), Learnt(s, Go(writable), known))
  {
    var now := Learnt(s, Go(writable), known);
    assert s.caller == Poll3(k) && writable && s.slots[k].fd.Some? ==> Answers(s, Go(writable), s.slots[k].fd.value);
    assert known <= now;
    hide Answers, SlotKnown, CallerKnown, CallerMove, Learnt;
    if Polling(s.caller) {
      PollSlot(s, writable, known, now, k);
    } else {
      CloseSlot(s, writable, known, k);
      KnownMore(CallerMove(s, writable), k, known, now);
    }
  }

  lemma WorkSlot(s: Net, w: nat, good: bool, made: bool, known: iset<nat>, k: nat)
    requires |s.slots| == HANDLES && 0 < k < HANDLES && SlotKnown(s, k, known) && CallerKnown(s, known)
    requires w in s.threads ==> ThreadKnown(s, w, known) && ThreadOk(s, w)
    ensures SlotKnown(Move(s, Work(w, good, made)), k, known) && CallerKnown(Move(s, Work(w, good, made)), known)
  {
    hide Owns, HeldBy, Claims;
  }

  /** The caller puts no descriptor in a slot that is resolving. */
  lemma CallerPuts(s: Net, a: Action, i: nat)
    requires !a.Work? && |s.slots| == HANDLES && Handle(s, i) && s.slots[i].state.RESOLVING?
    ensures Handle(Move(s, a), i)
    ensures Move(s, a).slots[i].fd == None || Move(s, a).slots[i].fd == s.slots[i].fd
  {
    match a
    case Connect(_) =>
    case Start(_) =>
    case Socket(_) =>
    case Accept(_, _) =>
    case Place(_) =>
    case NoRoom =>
    case Close(_) =>
    case Poll(_) =>
    case Send(_) =>
    case Go(_) =>
  }

  lemma CallerStarts(s: Net, a: Action, w: nat)
    requires !a.Work? && w in Move(s, a).threads && w !in s.threads
    ensures Move(s, a).threads[w].pc == Resolving
  {
  }

  lemma CallerThread(s: Net, a: Action, known: iset<nat>, w: nat)
    requires !a.Work? && |s.slots| == HANDLES && |Move(s, a).slots| == HANDLES && w in Move(s, a).threads
    requires w in s.threads ==> ThreadKnown(s, w, known) && w < s.born
    requires w in s.threads ==> Handle(s, s.threads[w].slot) && s.slots[s.threads[w].slot].state.RESOLVING?
    ensures ThreadKnown(Move(s, a), w, known)
  {
    hide Move;
    if w in s.threads {
      CallerLeaves(s, a, w);
      CallerPuts(s, a, s.threads[w].slot);
    } else {
      CallerStarts(s, a, w);
    }
  }

  lemma OtherThread(s: Net, w: nat, good: bool, made: bool, known: iset<nat>, v: nat)
    requires |s.slots| == HANDLES && v in s.threads && w in s.threads && Handle(s, s.threads[w].slot)
    requires ThreadKnown(s, v, known) && s.threads[v].slot != s.threads[w].slot
    ensures v in WorkerMove(s, w, good, made).threads ==> ThreadKnown(WorkerMove(s, w, good, made), v, known)
  {
    hide Claims;
  }

  lemma OwnThread(s: Net, w: nat, good: bool, made: bool, known: iset<nat>)
    requires |s.slots| == HANDLES && w in s.threads && Handle(s, s.threads[w].slot) && ThreadKnown(s, w, known)
    requires s.threads[w].pc.Trying? && good && made ==> s.threads[w].pc.fd in known
    ensures w in WorkerMove(s, w, good, made).threads ==> ThreadKnown(WorkerMove(s, w, good, made), w, known)
  {
    match s.threads[w].pc
    case Resolving =>
    case Resolved(_) =>
    case Opening =>
    case Trying(_) =>
    case Tried(_, _) =>
    case Dropping(_) =>
    case Publish(_, _) =>
    case Announce(_) =>
    case GiveUp =>
    case FailIt =>
  }

  lemma WorkThread(s: Net, w: nat, good: bool, made: bool, known: iset<nat>, v: nat)
    requires |s.slots| == HANDLES && v in s.threads && w in s.threads && Handle(s, s.threads[w].slot)
    requires ThreadKnown(s, v, known) && ThreadKnown(s, w, known)
    requires v != w ==> s.threads[v].slot != s.threads[w].slot
    ensures var t := Move(s, Work(w, good, made));
            v in t.threads ==> ThreadKnown(t, v, Learnt(s, Work(w, good, made), known))
  {
    var pc, now := s.threads[w].pc, Learnt(s, Work(w, good, made), known);
    assert pc.Trying? && good && made ==> Answers(s, Work(w, good, made), pc.fd);
    assert Move(s, Work(w, good, made)) == WorkerMove(s, w, good, made);
    assert known <= now;
    hide Answers, Move, WorkerMove, ThreadKnown;
    KnownMore(s, 0, known, now);
    if v == w { OwnThread(s, w, good, made, now); } else { OtherThread(s, w, good, made, now, v); }
  }

  lemma MoveLearns(s: Net, a: Action, known: iset<nat>)
    requires Inv(s) && Known(s, known)
    ensures Known(Move(s, a), Learnt(s, a, known))
  {
    var t, now := Move(s, a), Learnt(s, a, known);
    MoveKeeps(s, a);
    forall i | 0 < i < HANDLES ensures SlotKnown(t, i, now) && CallerKnown(t, now) {
      SlotLearns(s, a, known, i);
    }
    assert SlotKnown(t, 1, now);
    forall w | w in t.threads ensures ThreadKnown(t, w, now) {
      ThreadLearns(s, a, known, w);
    }
    hide Move, SlotKnown, ThreadKnown, CallerKnown, SlotOk, ThreadOk, OwnerOk, Learnt;
  }

  lemma SlotLearns(s: Net, a: Action, known: iset<nat>, i: nat)
    requires Inv(s) && Known(s, known) && 0 < i < HANDLES
    ensures |Move(s, a).slots| == HANDLES && SlotKnown(Move(s, a), i, Learnt(s, a, known))
    ensures CallerKnown(Move(s, a), Learnt(s, a, known))
  {
    MoveKeeps(s, a);
    assert SlotKnown(s, i, known);
    assert a.Work? && a.w in s.threads ==> ThreadKnown(s, a.w, known) && ThreadOk(s, a.w);
    hide Move, SlotOk, ThreadOk, OwnerOk, SlotKnown, ThreadKnown, CallerKnown;
    match a {
      case Connect(h) => ConnectSlot(s, h, known, i);
      case Start(ok) => StartSlot(s, ok, known, i);
      case Place(h) => PlaceSlot(s, h, known, i);
      case Go(writable) => GoSlot(s, writable, known, i);
      case Work(w, good, made) => WorkSlot(s, w, good, made, known, i);
      case _ => MakeSlot(s, a, known, i);
    }
    KnownMore(Move(s, a), i, known, Learnt(s, a, known));
  }

  lemma KnownMore(s: Net, i: nat, known: iset<nat>, now: iset<nat>)
    requires i < |s.slots| && known <= now
    ensures SlotKnown(s, i, known) ==> SlotKnown(s, i, now)
    ensures CallerKnown(s, known) ==> CallerKnown(s, now)
    ensures forall w | w in s.threads && ThreadKnown(s, w, known) :: ThreadKnown(s, w, now)
  {
  }

  lemma ThreadLearns(s: Net, a: Action, known: iset<nat>, w: nat)
    requires Inv(s) && Known(s, known) && w in Move(s, a).threads
    ensures ThreadKnown(Move(s, a), w, Learnt(s, a, known))
  {
    assert w in s.threads ==> ThreadKnown(s, w, known) && ThreadOk(s, w);
    assert a.Work? && a.w in s.threads ==> ThreadKnown(s, a.w, known) && ThreadOk(s, a.w);
    MoveKeeps(s, a);
    if a.Work? {
      WorkerOnly(s, a, w);
      if a.w in s.threads {
        hide Move, SlotOk, OwnerOk, SlotKnown, ThreadKnown, Learnt;
        WorkThread(s, a.w, a.good, a.made, known, w);
      }
    } else {
      hide Move, SlotOk, OwnerOk, SlotKnown, ThreadKnown, Learnt;
      CallerThread(s, a, known, w);
    }
    KnownMore(Move(s, a), 0, known, Learnt(s, a, known));
  }

  /** A worker's move starts no other, and one that is not there makes none. */
  lemma WorkerOnly(s: Net, a: Action, w: nat)
    requires a.Work? && w in Move(s, a).threads
    ensures w in s.threads && (a.w !in s.threads ==> Move(s, a) == s)
  {
  }

  lemma {:induction false} RunKnows(actions: seq<Action>)
    ensures Known(Run(actions), iset fd: nat | Answered(actions, fd))
    decreases |actions|
  {
    hide Known, Move, Answered;
    if actions == [] {
      StartKnown(iset fd: nat | Answered(actions, fd));
    } else {
      var less, a := actions[..|actions| - 1], actions[|actions| - 1];
      RunKnows(less);
      RunKeeps(less);
      var known := iset fd: nat | Answered(less, fd);
      MoveLearns(Run(less), a, known);
      assert less + [a] == actions;
      forall fd: nat | fd in Learnt(Run(less), a, known) ensures Answered(actions, fd) { AnsweredOn(less, a, fd); }
      AllKnownMore(Run(actions), Learnt(Run(less), a, known), iset fd: nat | Answered(actions, fd));
    }
  }

  lemma StartKnown(known: iset<nat>)
    ensures Known(Init(), known)
  {
  }

  lemma AllKnownMore(s: Net, known: iset<nat>, now: iset<nat>)
    requires Known(s, known) && known <= now
    ensures Known(s, now)
  {
    forall i | 0 < i < HANDLES ensures SlotKnown(s, i, now) { KnownMore(s, i, known, now); }
    KnownMore(s, 0, known, now);
    hide SlotKnown, ThreadKnown;
  }

  /** In every run a slot is connected by way of a descriptor the host has answered for: its `connect`
      was done, a poll of it found it writable, or it was taken from a socket that listens. */
  lemma ConnectedWasAnswered(actions: seq<Action>, i: nat)
    ensures var s := Run(actions);
            Handle(s, i) && s.slots[i].state.CONNECTED? && s.slots[i].fd.Some? ==>
              exists k :: 0 <= k < |actions| && AnsweredAt(actions, k, s.slots[i].fd.value)
  {
    RunKnows(actions);
    var s := Run(actions);
    hide Run;
    if Handle(s, i) && s.slots[i].state.CONNECTED? && s.slots[i].fd.Some? {
      assert SlotKnown(s, i, iset fd: nat | Answered(actions, fd));
    }
  }

  // ----- and what is answered is put down -----

  /** The same move, four times. */
  function Four(s: Net, a: Action): Net {
    Move(Move(Move(Move(s, a), a), a), a)
  }

  lemma TryMove(s: Net, w: nat, fd: nat, made: bool)
    requires w in s.threads && Handle(s, s.threads[w].slot) && s.threads[w].pc == Trying(fd)
    ensures Move(s, Work(w, true, made)) == At(s, w, Tried(Some(fd), made))
  {
  }

  lemma TriedMove(s: Net, w: nat, fd: nat, made: bool)
    requires w in s.threads && Handle(s, s.threads[w].slot) && s.threads[w].pc == Tried(Some(fd), made)
    requires !s.slots[s.threads[w].slot].cancelled
    ensures Move(s, Work(w, true, made)) == At(s, w, Publish(fd, made))
  {
  }

  lemma PublishMove(s: Net, w: nat, fd: nat, made: bool)
    requires w in s.threads && Handle(s, s.threads[w].slot) && s.threads[w].pc == Publish(fd, made)
    ensures var now, i := Move(s, Work(w, true, made)), s.threads[w].slot;
            now.slots == s.slots[i := s.slots[i].(fd := Some(fd))] && now.threads == s.threads[w := Thread(i, Announce(made))]
  {
  }

  lemma AnnounceMove(s: Net, w: nat, made: bool)
    requires w in s.threads && Handle(s, s.threads[w].slot) && s.threads[w].pc == Announce(made)
    ensures var now, i := Move(s, Work(w, true, made)), s.threads[w].slot;
            && now.slots == s.slots[i := s.slots[i].(state := if made then CONNECTED else CONNECTING)]
            && now.threads == s.threads - {w}
  {
  }

  /** A worker that is not cancelled and whose `connect` is done, or is on the way, puts its descriptor in
      the slot, and says which it was. */
  lemma WorkerConnects(s: Net, w: nat, made: bool)
    requires Inv(s) && w in s.threads && s.threads[w].pc.Trying? && !s.slots[s.threads[w].slot].cancelled
    ensures var now, i := Four(s, Work(w, true, made)), s.threads[w].slot;
            && Handle(now, i) && now.slots[i].fd == Some(s.threads[w].pc.fd)
            && now.slots[i].state == (if made then CONNECTED else CONNECTING) && w !in now.threads
  {
    assert ThreadOk(s, w);
    hide Inv, ThreadOk, Move;
    var a, fd := Work(w, true, made), s.threads[w].pc.fd;
    TryMove(s, w, fd, made);
    TriedMove(Move(s, a), w, fd, made);
    PublishMove(Move(Move(s, a), a), w, fd, made);
    AnnounceMove(Move(Move(Move(s, a), a), a), w, made);
  }

  /** A worker that is not cancelled and has found no address, or none that can be connected to, ends with
      its slot as failed; and a thread that can not be started does the same. */
  lemma WorkerFails(s: Net, w: nat, good: bool, made: bool)
    requires Inv(s) && w in s.threads && !s.slots[s.threads[w].slot].cancelled
    requires s.threads[w].pc == Resolved(false) || (s.threads[w].pc.Tried? && s.threads[w].pc.tried == None)
    ensures var a, i := Work(w, good, made), s.threads[w].slot;
            var now := Move(Move(s, a), a);
            && Handle(s, i) && w !in now.threads && now.open == s.open
            && now.slots == s.slots[i := s.slots[i].(state := FAILED)]
  {
    assert ThreadOk(s, w);
    hide Inv, ThreadOk;
    var one := Move(s, Work(w, good, made));
    assert one == At(s, w, FailIt);
  }

  lemma StartFails(s: Net)
    requires s.caller.Starting? && Handle(s, s.caller.i)
    ensures var i := s.caller.i;
            Move(s, Start(false)) == s.(slots := s.slots[i := s.slots[i].(state := FAILED)], caller := Idle)
  {
  }

  lemma ResolvedMove(s: Net, w: nat, made: bool)
    requires w in s.threads && Handle(s, s.threads[w].slot) && s.threads[w].pc == Resolved(true)
    requires !s.slots[s.threads[w].slot].cancelled
    ensures Move(s, Work(w, true, made)) == At(s, w, Opening)
  {
  }

  lemma OpeningMove(s: Net, w: nat, made: bool)
    requires w in s.threads && Handle(s, s.threads[w].slot) && s.threads[w].pc == Opening
    ensures Move(s, Work(w, true, made)) == At(Opened(s, InThread(w)), w, Trying(s.named))
  {
  }

  lemma RefusedMove(s: Net, w: nat, fd: nat, made: bool)
    requires w in s.threads && Handle(s, s.threads[w].slot) && s.threads[w].pc == Trying(fd)
    ensures Move(s, Work(w, false, made)) == At(Closed(s, fd), w, Opening)
  {
  }

  /** One with an address that is not cancelled opens a descriptor for it, and closes that and goes on to
      the next if it can not be connected to. */
  lemma WorkerTriesNext(s: Net, w: nat, made: bool)
    requires Inv(s) && w in s.threads && !s.slots[s.threads[w].slot].cancelled && s.threads[w].pc == Resolved(true)
    ensures var has := Move(Move(s, Work(w, true, made)), Work(w, true, made));
            && w in has.threads && has.threads[w].pc == Trying(s.named) && Owns(has, s.named, InThread(w)) && has.slots == s.slots
            && var next := Move(has, Work(w, false, made));
               w in next.threads && next.threads[w].pc == Opening && next.open == s.open && next.slots == s.slots
  {
    assert ThreadOk(s, w);
    forall fd | fd in s.open ensures fd < s.named { assert OwnerOk(s, fd); }
    hide Inv, ThreadOk, Move, WorkerMove;
    ResolvedMove(s, w, made);
    OpeningMove(At(s, w, Opening), w, made);
    var has := Move(Move(s, Work(w, true, made)), Work(w, true, made));
    RefusedMove(has, w, s.named, made);
    assert has.open - {s.named} == s.open;
  }

  /** A poll that finds the descriptor of a slot that is connecting writable has it connected. */
  lemma PollConnects(s: Net, i: nat)
    requires Inv(s) && s.caller.Idle? && Handle(s, i) && s.slots[i].state.CONNECTING?
    ensures var now := Move(Four(Move(s, Poll(i)), Go(true)), Go(true));
            && now.caller.Idle? && now.slots == s.slots[i := s.slots[i].(state := CONNECTED)] && now.open == s.open
  {
    var s0 := Move(s, Poll(i));
    assert s0 == s.(caller := Poll1(i));
    hide Inv, Move;
    GoIs(s0);
    var s1 := s.(caller := Poll2(i));
    assert CallerMove(s0, true) == s1;
    GoIs(s1);
    var s2 := s.(caller := Poll3(i));
    assert CallerMove(s1, true) == s2;
    GoIs(s2);
    var s3 := CallerMove(s2, true);
    assert s3.caller == Poll4(i) && s3.slots == s.slots && s3.open == s.open;
    GoIs(s3);
    var s4 := s3.(caller := Poll5(i));
    assert CallerMove(s3, true) == s4;
    GoIs(s4);
  }

  lemma GoIs(s: Net)
    ensures Move(s, Go(true)) == CallerMove(s, true)
  {
    hide CallerMove;
  }

  /** A close of a slot that is not resolving closes its descriptor and frees it. */
  lemma CloseFrees(s: Net, i: nat)
    requires Inv(s) && s.caller.Idle? && Handle(s, i) && !s.slots[i].state.FREE? && !s.slots[i].state.RESOLVING?
    ensures var now := Four(Move(s, Close(i)), Go(true));
            && now.caller.Idle? && now.slots == s.slots[i := s.slots[i].(fd := None, state := FREE)]
            && now.open == (if s.slots[i].fd.Some? then s.open - {s.slots[i].fd.value} else s.open)
  {
    var s0 := Move(s, Close(i));
    assert s0.caller == Close1(i) && s0.slots == s.slots;
    hide Inv;
    var s1 := Move(s0, Go(true));
    assert s1.caller == Close2(i) && s1.slots == s.slots && s1.open == s.open;
    var s2 := Move(s1, Go(true));
    assert s2.caller == Close3(i) && s2.slots == s.slots;
    var s3 := Move(s2, Go(true));
    assert s3.caller == Close4(i) && s3.slots == s.slots[i := s.slots[i].(fd := None)];
  }
}
