/**
 lwip/api/sockets.c: the sleep/wake protocol between lwip_select and event_callback,
 in the core-locking variant.

 Each step is one protected region of the code.  select_cb_list only changes with the
 core lock held, and event_callback runs with that lock held whenever it may wake
 somebody; the event counters and select_waiting change under SYS_ARCH_PROTECT alone.
 */
module Select {

  /** The part of struct lwip_sock that select looks at. */
  datatype Sock = Sock(rcv: int, send: bool, err: bool, waiting: nat)

  /** Where a select call is.  The loops over descriptors show their index. */
  datatype Pc =
    | Idle
    | Register(i: nat)                 // increasing select_waiting
    | Scan(i: nat, ready: bool)        // second lwip_selscan, now on the list
    | Wait                             // sys_arch_sem_wait
    | Unregister(i: nat, limit: nat)   // decreasing select_waiting below maxfdp2

  /** A thread with its lwip_select_cb; signalled is sem_signalled, set together with the semaphore. */
  datatype Thread = Thread(pc: Pc, read: set<nat>, write: set<nat>, except: set<nat>, signalled: bool) {
    predicate Watches(fd: nat) {
      fd in read || fd in write || fd in except
    }
  }

  /** The core lock: free, held, or held by event_callback walking select_cb_list with the saved events. */
  datatype Lock =
    | Free
    | Held
    | Walking(fd: nat, recv: bool, send: bool, err: bool, rest: seq<nat>)

  datatype State = State(socks: seq<Sock>, threads: seq<Thread>, list: seq<nat>, lock: Lock)

  datatype Event = RcvPlus | SendPlus | Error

  datatype Step =
    | Link(t: nat, read: set<nat>, write: set<nat>, except: set<nat>)
    | RegisterNext(t: nat, open: bool)
    | ScanNext(t: nat, open: bool, lastdata: bool)
    | Wake(t: nat)
    | Timeout(t: nat)
    | UnregisterNext(t: nat)
    | Unlink(t: nat)
    | LockCore
    | UnlockCore
    | Post(fd: nat, evt: Event)
    | WalkNext
    | RcvMinus(fd: nat)
    | SendMinus(fd: nat)
    | Reuse(fd: nat, writable: bool)

  /** The event condition select waits for on fd. */
  predicate Ready(s: State, th: Thread, fd: nat)
    requires fd < |s.socks|
  {
    || (fd in th.read && s.socks[fd].rcv > 0)
    || (fd in th.write && s.socks[fd].send)
    || (fd in th.except && s.socks[fd].err)
  }

  predicate SetsInRange(s: State, xs: set<nat>) {
    forall fd :: fd in xs ==> fd < |s.socks|
  }

  predicate Enabled(s: State, step: Step) {
    match step
    case Link(t, r, w, e) =>
      && t < |s.threads| && s.threads[t].pc.Idle? && s.lock.Free?
      && SetsInRange(s, r) && SetsInRange(s, w) && SetsInRange(s, e)
    case RegisterNext(t, _) => t < |s.threads| && s.threads[t].pc.Register?
    case ScanNext(t, _, _) => t < |s.threads| && s.threads[t].pc.Scan?
    case Wake(t) => t < |s.threads| && s.threads[t].pc.Wait? && s.threads[t].signalled
    case Timeout(t) => t < |s.threads| && s.threads[t].pc.Wait?
    case UnregisterNext(t) =>
      t < |s.threads| && s.threads[t].pc.Unregister? && s.threads[t].pc.i < s.threads[t].pc.limit
    case Unlink(t) =>
      t < |s.threads| && s.threads[t].pc.Unregister? && s.threads[t].pc.i >= s.threads[t].pc.limit && s.lock.Free?
    case LockCore => s.lock.Free?
    case UnlockCore => s.lock.Held?
    case Post(fd, _) => fd < |s.socks| && s.lock.Held?
    case WalkNext => s.lock.Walking?
    case RcvMinus(fd) => fd < |s.socks|
    case SendMinus(fd) => fd < |s.socks|
    // alloc_socket asserts that nobody is waiting on the slot it takes
    case Reuse(fd, _) => fd < |s.socks| && s.socks[fd].waiting == 0
  }

  // ---------- what each region does ----------

  function SetPc(s: State, t: nat, pc: Pc): State
    requires t < |s.threads|
  {
    s.(threads := s.threads[t := s.threads[t].(pc := pc)])
  }

  function SetWaiting(s: State, fd: nat, n: nat): State
    requires fd < |s.socks|
  {
    s.(socks := s.socks[fd := s.socks[fd].(waiting := n)])
  }

  /** One round of the loop that increases select_waiting (an u8_t); open is the answer of tryget_socket. */
  function DoRegister(s: State, t: nat, open: bool): State
    requires t < |s.threads| && s.threads[t].pc.Register?
  {
    var i := s.threads[t].pc.i;
    if i >= |s.socks| then SetPc(s, t, Scan(0, false))
    else if !s.threads[t].Watches(i) then SetPc(s, t, Register(i + 1))
    else if !open || s.socks[i].waiting >= 255 then SetPc(s, t, Unregister(0, i))
    else SetPc(SetWaiting(s, i, s.socks[i].waiting + 1), t, Register(i + 1))
  }

  /** One round of lwip_selscan. */
  function DoScan(s: State, t: nat, open: bool, lastdata: bool): State
    requires t < |s.threads| && s.threads[t].pc.Scan?
  {
    var i, ready := s.threads[t].pc.i, s.threads[t].pc.ready;
    if i >= |s.socks| then SetPc(s, t, if ready then Unregister(0, |s.socks|) else Wait)
    else if !s.threads[t].Watches(i) then SetPc(s, t, Scan(i + 1, ready))
    else if !open then SetPc(s, t, Unregister(0, |s.socks|))
    else SetPc(s, t, Scan(i + 1, ready || Ready(s, s.threads[t], i) || (lastdata && i in s.threads[t].read)))
  }

  /** One round of the loop that decreases select_waiting. */
  function DoUnregister(s: State, t: nat): State
    requires t < |s.threads| && s.threads[t].pc.Unregister?
  {
    var i, limit := s.threads[t].pc.i, s.threads[t].pc.limit;
    var s' := if i < |s.socks| && s.threads[t].Watches(i) && s.socks[i].waiting > 0
              then SetWaiting(s, i, s.socks[i].waiting - 1) else s;
    SetPc(s', t, Unregister(i + 1, limit))
  }

  /** event_callback up to the call of select_check_waiters. */
  function DoPost(s: State, fd: nat, evt: Event): State
    requires fd < |s.socks|
  {
    var k := s.socks[fd];
    var k' := match evt
              case RcvPlus => k.(rcv := k.rcv + 1)
              case SendPlus => k.(send := true)
              case Error => k.(err := true);
    var check := match evt
                 case RcvPlus => k'.rcv <= 1
                 case SendPlus => !k.send
                 case Error => true;
    s.(socks := s.socks[fd := k'],
       lock := if check && k'.waiting > 0 then Walking(fd, k'.rcv > 0, k'.send, k'.err, s.list) else Held)
  }

  /** Does the walk signal this waiter? */
  predicate Signals(lock: Lock, th: Thread)
    requires lock.Walking?
  {
    || (lock.recv && lock.fd in th.read)
    || (lock.send && lock.fd in th.write)
    || (lock.err && lock.fd in th.except)
  }

  /** One round of the loop in select_check_waiters. */
  function DoWalk(s: State): State
    requires s.lock.Walking?
  {
    if s.lock.rest == [] then s.(lock := Held)
    else
      var t := s.lock.rest[0];
      var s' := s.(lock := s.lock.(rest := s.lock.rest[1..]));
      if t < |s.threads| && !s.threads[t].signalled && Signals(s.lock, s.threads[t])
      then s'.(threads := s.threads[t := s.threads[t].(signalled := true)]) else s'
  }

  function RemoveFrom(xs: seq<nat>, t: nat): seq<nat> {
    if xs == [] then [] else if xs[0] == t then xs[1..] else [xs[0]] + RemoveFrom(xs[1..], t)
  }

  function Next(s: State, step: Step): State
    requires Enabled(s, step)
  {
    match step
    case Link(t, r, w, e) =>
      s.(threads := s.threads[t := Thread(Register(0), r, w, e, false)], list := [t] + s.list)
    case RegisterNext(t, open) => DoRegister(s, t, open)
    case ScanNext(t, open, lastdata) => DoScan(s, t, open, lastdata)
    case Wake(t) => SetPc(s, t, Unregister(0, |s.socks|))
    case Timeout(t) => SetPc(s, t, Unregister(0, |s.socks|))
    case UnregisterNext(t) => DoUnregister(s, t)
    case Unlink(t) => SetPc(s, t, Idle).(list := RemoveFrom(s.list, t))
    case LockCore => s.(lock := Held)
    case UnlockCore => s.(lock := Free)
    case Post(fd, evt) => DoPost(s, fd, evt)
    case WalkNext => DoWalk(s)
    case RcvMinus(fd) => s.(socks := s.socks[fd := s.socks[fd].(rcv := s.socks[fd].rcv - 1)])
    case SendMinus(fd) => s.(socks := s.socks[fd := s.socks[fd].(send := false)])
    case Reuse(fd, writable) =>
      s.(socks := s.socks[fd := s.socks[fd].(rcv := 0, send := writable, err := false)])
  }

  // ---------- the invariant ----------

  /** The thread has select_waiting of fd increased. */
  predicate Registered(th: Thread, fd: nat) {
    th.Watches(fd) &&
    match th.pc
    case Idle => false
    case Register(i) => fd < i
    case Scan(_, _) => true
    case Wait => true
    case Unregister(i, limit) => i <= fd < limit
  }

  function Count(ths: seq<Thread>, fd: nat): nat {
    if ths == [] then 0 else (if Registered(ths[0], fd) then 1 else 0) + Count(ths[1..], fd)
  }

  /** The thread has looked at fd since it registered, found nothing, and may be (about to be) asleep. */
  predicate Relies(th: Thread, fd: nat) {
    th.Watches(fd) && !th.signalled && (th.pc.Wait? || (th.pc.Scan? && !th.pc.ready && fd < th.pc.i))
  }

  ghost predicate ListOk(s: State) {
    && (forall i, j :: 0 <= i < j < |s.list| ==> s.list[i] != s.list[j])
    && (forall t :: 0 <= t < |s.threads| ==> (t in s.list <==> !s.threads[t].pc.Idle?))
    && (forall t :: t in s.list ==> t < |s.threads|)
  }

  ghost predicate CountsOk(s: State) {
    forall fd :: 0 <= fd < |s.socks| ==> s.socks[fd].waiting == Count(s.threads, fd) && s.socks[fd].waiting <= 255
  }

  ghost predicate ThreadsOk(s: State) {
    forall t :: 0 <= t < |s.threads| ==> ThreadOk(s, s.threads[t])
  }

  ghost predicate ThreadOk(s: State, th: Thread) {
    && SetsInRange(s, th.read) && SetsInRange(s, th.write) && SetsInRange(s, th.except)
    && (th.pc.Register? ==> th.pc.i <= |s.socks|)
    && (th.pc.Scan? ==> th.pc.i <= |s.socks|)
    && (th.pc.Unregister? ==> th.pc.i <= th.pc.limit <= |s.socks|)
  }

  ghost predicate WalkOk(s: State) {
    s.lock.Walking? ==> s.lock.fd < |s.socks|
  }

  /** A walk for fd will still come to thread t, and the events it saved are ones t waits for. */
  predicate Ahead(s: State, t: nat, fd: nat)
    requires t < |s.threads|
  {
    s.lock.Walking? && s.lock.fd == fd && t in s.lock.rest && Signals(s.lock, s.threads[t])
  }

  /** No lost wakeup: a thread that relies on having seen nothing on fd, while fd is ready,
      is still ahead of a walk for fd that will signal it. */
  ghost predicate NoLostWakeup(s: State) {
    forall t, fd :: 0 <= t < |s.threads| && 0 <= fd < |s.socks| ==>
      (Relies(s.threads[t], fd) && Ready(s, s.threads[t], fd) ==> Ahead(s, t, fd))
  }

  ghost predicate Inv(s: State) {
    ListOk(s) && CountsOk(s) && ThreadsOk(s) && WalkOk(s) && NoLostWakeup(s)
  }

  // ---------- counting ----------

  lemma {:induction false} CountUpdate(ths: seq<Thread>, t: nat, th: Thread, fd: nat)
    requires t < |ths|
    ensures Count(ths[t := th], fd) ==
            Count(ths, fd) + (if Registered(th, fd) then 1 else 0) - (if Registered(ths[t], fd) then 1 else 0)
  {
    if t == 0 {
      assert ths[t := th][1..] == ths[1..];
    } else {
      assert ths[t := th][1..] == ths[1..][t - 1 := th];
      CountUpdate(ths[1..], t - 1, th, fd);
    }
  }

  lemma {:induction false} CountPositive(ths: seq<Thread>, t: nat, fd: nat)
    requires t < |ths| && Registered(ths[t], fd)
    ensures Count(ths, fd) > 0
  {
    if t > 0 { CountPositive(ths[1..], t - 1, fd); }
  }

  // ---------- steps of a select call ----------

  /** Same events on every socket; only select_waiting may differ. */
  ghost predicate SameEvents(s: State, s': State) {
    |s'.socks| == |s.socks| &&
    forall fd :: 0 <= fd < |s.socks| ==>
      && s'.socks[fd].rcv == s.socks[fd].rcv && s'.socks[fd].send == s.socks[fd].send
      && s'.socks[fd].err == s.socks[fd].err
  }

  function Reg(th: Thread, fd: nat): nat {
    if Registered(th, fd) then 1 else 0
  }

  /** select_waiting moved with the registrations of thread t. */
  ghost predicate WaitingMoved(s: State, s': State, t: nat)
    requires t < |s.threads| && |s'.threads| == |s.threads| && |s'.socks| == |s.socks|
  {
    forall fd :: 0 <= fd < |s.socks| ==>
      && s'.socks[fd].waiting == s.socks[fd].waiting + Reg(s'.threads[t], fd) - Reg(s.threads[t], fd)
      && s'.socks[fd].waiting <= 255
  }

  lemma CountsKept(s: State, s': State, t: nat)
    requires CountsOk(s) && t < |s.threads| && |s'.threads| == |s.threads| && |s'.socks| == |s.socks|
    requires s'.threads == s.threads[t := s'.threads[t]] && WaitingMoved(s, s', t)
    ensures CountsOk(s')
  {
    forall fd | 0 <= fd < |s'.socks|
      ensures s'.socks[fd].waiting == Count(s'.threads, fd)
    {
      CountUpdate(s.threads, t, s'.threads[t], fd);
    }
  }

  /** Thread t moves on inside select; nothing it newly relies on is ready. */
  ghost predicate ThreadMoves(s: State, s': State, t: nat) {
    && t < |s.threads| && |s'.threads| == |s.threads|
    && s'.threads == s.threads[t := s'.threads[t]]
    && s'.lock == s.lock && s'.list == s.list
    && SameEvents(s, s') && WaitingMoved(s, s', t)
    && s'.threads[t] == s.threads[t].(pc := s'.threads[t].pc)
    && !s.threads[t].pc.Idle? && !s'.threads[t].pc.Idle?
    && ThreadOk(s', s'.threads[t])
    && (forall fd :: 0 <= fd < |s.socks| && Relies(s'.threads[t], fd) ==>
         Relies(s.threads[t], fd) || !Ready(s, s.threads[t], fd))
  }

  lemma MoveKeepsWakeup(s: State, s': State, t: nat)
    requires NoLostWakeup(s) && ThreadMoves(s, s', t)
    ensures NoLostWakeup(s')
  {
    forall u, fd | 0 <= u < |s'.threads| && 0 <= fd < |s'.socks|
        && Relies(s'.threads[u], fd) && Ready(s', s'.threads[u], fd)
      ensures Ahead(s', u, fd)
    {
      assert Ready(s, s.threads[u], fd);
      assert Relies(s.threads[u], fd);
    }
  }

  lemma MoveKeepsInv(s: State, s': State, t: nat)
    requires Inv(s) && ThreadMoves(s, s', t)
    ensures Inv(s')
  {
    CountsKept(s, s', t);
    MoveKeepsWakeup(s, s', t);
    assert ListOk(s');
    assert ThreadsOk(s');
  }

  lemma RegisterKeeps(s: State, t: nat, open: bool)
    requires Inv(s) && t < |s.threads| && s.threads[t].pc.Register?
    ensures Inv(DoRegister(s, t, open))
  {
    var s' := DoRegister(s, t, open);
    hide NoLostWakeup, ListOk, WalkOk, Count;
    assert ThreadOk(s, s.threads[t]);
    assert ThreadMoves(s, s', t);
    MoveKeepsInv(s, s', t);
  }

  lemma ScanKeeps(s: State, t: nat, open: bool, lastdata: bool)
    requires Inv(s) && t < |s.threads| && s.threads[t].pc.Scan?
    ensures Inv(DoScan(s, t, open, lastdata))
  {
    var s' := DoScan(s, t, open, lastdata);
    hide NoLostWakeup, ListOk, WalkOk, Count;
    assert ThreadOk(s, s.threads[t]);
    assert ThreadMoves(s, s', t);
    MoveKeepsInv(s, s', t);
  }

  lemma WakeKeeps(s: State, t: nat)
    requires Inv(s) && t < |s.threads| && s.threads[t].pc.Wait?
    ensures Inv(SetPc(s, t, Unregister(0, |s.socks|)))
  {
    var s' := SetPc(s, t, Unregister(0, |s.socks|));
    hide NoLostWakeup, ListOk, WalkOk, Count;
    assert ThreadOk(s, s.threads[t]);
    assert ThreadMoves(s, s', t);
    MoveKeepsInv(s, s', t);
  }

  lemma UnregisterKeeps(s: State, t: nat)
    requires Inv(s) && t < |s.threads| && s.threads[t].pc.Unregister? && s.threads[t].pc.i < s.threads[t].pc.limit
    ensures Inv(DoUnregister(s, t))
  {
    var s', i := DoUnregister(s, t), s.threads[t].pc.i;
    assert ThreadOk(s, s.threads[t]);
    if s.threads[t].Watches(i) { CountPositive(s.threads, t, i); }
    hide NoLostWakeup, ListOk, WalkOk, Count;
    assert ThreadMoves(s, s', t);
    MoveKeepsInv(s, s', t);
  }

  // ---------- joining and leaving the list ----------

  lemma {:induction false} RemoveFromMembers(xs: seq<nat>, t: nat)
    requires forall i, j :: 0 <= i < j < |xs| ==> xs[i] != xs[j]
    ensures forall i, j :: 0 <= i < j < |RemoveFrom(xs, t)| ==> RemoveFrom(xs, t)[i] != RemoveFrom(xs, t)[j]
    ensures forall u :: u in RemoveFrom(xs, t) <==> u in xs && u != t
  {
    if xs != [] {
      RemoveFromMembers(xs[1..], t);
      assert forall u :: u in xs <==> u == xs[0] || u in xs[1..];
      if xs[0] == t {
        assert t !in xs[1..];
      } else {
        assert xs[0] !in xs[1..];
        assert forall u :: u in RemoveFrom(xs, t) <==> u == xs[0] || u in RemoveFrom(xs[1..], t);
      }
    }
  }

  lemma LinkKeeps(s: State, t: nat, r: set<nat>, w: set<nat>, e: set<nat>)
    requires Inv(s) && Enabled(s, Link(t, r, w, e))
    ensures Inv(Next(s, Link(t, r, w, e)))
  {
    var s' := Next(s, Link(t, r, w, e));
    CountsKept(s, s', t);
    hide Count;
    assert ListOk(s') by {
      assert t !in s.list;
      assert forall u :: u in s'.list <==> u == t || u in s.list;
    }
    assert ThreadOk(s', s'.threads[t]);
    assert ThreadsOk(s') by {
      forall u | 0 <= u < |s'.threads|
        ensures ThreadOk(s', s'.threads[u])
      {
        assert u != t ==> ThreadOk(s, s.threads[u]);
      }
    }
    assert NoLostWakeup(s') by {
      forall u, fd | 0 <= u < |s'.threads| && 0 <= fd < |s'.socks| && Relies(s'.threads[u], fd)
        ensures !Ready(s', s'.threads[u], fd)
      {
        assert Relies(s.threads[u], fd);
        assert Ready(s, s.threads[u], fd) == Ready(s', s'.threads[u], fd);
      }
    }
  }

  lemma UnlinkKeeps(s: State, t: nat)
    requires Inv(s) && Enabled(s, Unlink(t))
    ensures Inv(Next(s, Unlink(t)))
  {
    var s' := Next(s, Unlink(t));
    CountsKept(s, s', t);
    RemoveFromMembers(s.list, t);
    hide Count, RemoveFrom;
    assert ListOk(s');
    assert ThreadsOk(s') by {
      forall u | 0 <= u < |s'.threads|
        ensures ThreadOk(s', s'.threads[u])
      {
        assert ThreadOk(s, s.threads[u]);
      }
    }
    assert NoLostWakeup(s') by {
      forall u, fd | 0 <= u < |s'.threads| && 0 <= fd < |s'.socks| && Relies(s'.threads[u], fd)
        ensures !Ready(s', s'.threads[u], fd)
      {
        assert Relies(s.threads[u], fd);
        assert Ready(s, s.threads[u], fd) == Ready(s', s'.threads[u], fd);
      }
    }
  }

  // ---------- events ----------

  /** Steps that touch sockets or the lock only leave list, threads and counts alone. */
  lemma SockStepKeepsRest(s: State, s': State)
    requires ListOk(s) && CountsOk(s) && ThreadsOk(s)
    requires s'.threads == s.threads && s'.list == s.list && |s'.socks| == |s.socks|
    requires forall fd :: 0 <= fd < |s.socks| ==> s'.socks[fd].waiting == s.socks[fd].waiting
    ensures ListOk(s') && CountsOk(s') && ThreadsOk(s')
  {
    forall u | 0 <= u < |s'.threads|
      ensures ThreadOk(s', s'.threads[u])
    {
      assert ThreadOk(s, s.threads[u]);
    }
  }

  lemma PostKeeps(s: State, fd: nat, evt: Event)
    requires Inv(s) && fd < |s.socks| && s.lock.Held?
    ensures Inv(DoPost(s, fd, evt))
  {
    var s' := DoPost(s, fd, evt);
    SockStepKeepsRest(s, s');
    forall u, x | 0 <= u < |s'.threads| && 0 <= x < |s'.socks|
        && Relies(s'.threads[u], x) && Ready(s', s'.threads[u], x)
      ensures Ahead(s', u, x)
    {
      // the thread was not ready before, so this very event made it ready: the walk starts with the whole list
      assert !Ready(s, s.threads[u], x);
      assert x == fd;
      CountPositive(s.threads, u, x);
    }
  }

  lemma WalkKeeps(s: State)
    requires Inv(s) && s.lock.Walking?
    ensures Inv(DoWalk(s))
  {
    var s' := DoWalk(s);
    if s.lock.rest == [] {
      SockStepKeepsRest(s, s');
    } else {
      var t := s.lock.rest[0];
      WalkKeepsRest(s);
      forall u, x | 0 <= u < |s'.threads| && 0 <= x < |s'.socks|
          && Relies(s'.threads[u], x) && Ready(s', s'.threads[u], x)
        ensures Ahead(s', u, x)
      {
        assert Relies(s.threads[u], x) && Ready(s, s.threads[u], x);
        assert u in s.lock.rest && x == s.lock.fd;
        assert Signals(s.lock, s.threads[u]);
        assert u != t;
      }
    }
  }

  lemma WalkKeepsRest(s: State)
    requires ListOk(s) && CountsOk(s) && ThreadsOk(s) && s.lock.Walking? && s.lock.rest != []
    ensures ListOk(DoWalk(s)) && CountsOk(DoWalk(s)) && ThreadsOk(DoWalk(s))
  {
    var s', t := DoWalk(s), s.lock.rest[0];
    if t < |s.threads| {
      CountsKept(s, s', t);
    }
    forall u | 0 <= u < |s'.threads|
      ensures ThreadOk(s', s'.threads[u])
    {
      assert ThreadOk(s, s.threads[u]);
    }
  }

  lemma MinusKeeps(s: State, fd: nat, k: Sock)
    requires Inv(s) && fd < |s.socks|
    requires k.waiting == s.socks[fd].waiting && k.rcv <= s.socks[fd].rcv
    requires (k.send ==> s.socks[fd].send) && (k.err ==> s.socks[fd].err)
    ensures Inv(s.(socks := s.socks[fd := k]))
  {
    var s' := s.(socks := s.socks[fd := k]);
    SockStepKeepsRest(s, s');
    forall u, x | 0 <= u < |s'.threads| && 0 <= x < |s'.socks|
        && Relies(s'.threads[u], x) && Ready(s', s'.threads[u], x)
      ensures Ahead(s', u, x)
    {
      assert Ready(s, s.threads[u], x);
    }
  }

  lemma ReuseKeeps(s: State, fd: nat, writable: bool)
    requires Inv(s) && Enabled(s, Reuse(fd, writable))
    ensures Inv(Next(s, Reuse(fd, writable)))
  {
    var s' := Next(s, Reuse(fd, writable));
    SockStepKeepsRest(s, s');
    forall u, x | 0 <= u < |s'.threads| && 0 <= x < |s'.socks|
        && Relies(s'.threads[u], x) && Ready(s', s'.threads[u], x)
      ensures Ahead(s', u, x)
    {
      CountPositive(s.threads, u, x);
      assert x != fd;
      assert Ready(s, s.threads[u], x);
    }
  }

  lemma LockKeeps(s: State, lock: Lock)
    requires Inv(s) && !s.lock.Walking? && !lock.Walking?
    ensures Inv(s.(lock := lock))
  {
    var s' := s.(lock := lock);
    SockStepKeepsRest(s, s');
    forall u, x | 0 <= u < |s'.threads| && 0 <= x < |s'.socks| && Relies(s'.threads[u], x)
      ensures !Ready(s', s'.threads[u], x)
    {
      assert Ready(s, s.threads[u], x) == Ready(s', s'.threads[u], x);
    }
  }

  lemma NextKeeps(s: State, step: Step)
    requires Inv(s) && Enabled(s, step)
    ensures Inv(Next(s, step))
  {
    hide Inv;
    match step
    case Link(t, r, w, e) => LinkKeeps(s, t, r, w, e);
    case RegisterNext(t, open) => RegisterKeeps(s, t, open);
    case ScanNext(t, open, lastdata) => ScanKeeps(s, t, open, lastdata);
    case Wake(t) => WakeKeeps(s, t);
    case Timeout(t) => WakeKeeps(s, t);
    case UnregisterNext(t) => UnregisterKeeps(s, t);
    case Unlink(t) => UnlinkKeeps(s, t);
    case LockCore => LockKeeps(s, Held);
    case UnlockCore => LockKeeps(s, Free);
    case Post(fd, evt) => PostKeeps(s, fd, evt);
    case WalkNext => WalkKeeps(s);
    case RcvMinus(fd) => MinusKeeps(s, fd, s.socks[fd].(rcv := s.socks[fd].rcv - 1));
    case SendMinus(fd) => MinusKeeps(s, fd, s.socks[fd].(send := false));
    case Reuse(fd, writable) => ReuseKeeps(s, fd, writable);
  }

  // ---------- whole runs ----------

  /** Nobody in select, core lock free; the sockets may have any events. */
  ghost predicate Init(s: State) {
    && s.list == [] && s.lock.Free?
    && (forall t :: 0 <= t < |s.threads| ==> s.threads[t] == Thread(Idle, {}, {}, {}, false))
    && (forall fd :: 0 <= fd < |s.socks| ==> s.socks[fd].waiting == 0)
  }

  ghost predicate CanStep(s: State, s': State) {
    exists step :: Enabled(s, step) && s' == Next(s, step)
  }

  /** run is a sequence of states, each reached from the one before by an enabled step. */
  ghost predicate IsRun(run: seq<State>) {
    && 0 < |run| && Init(run[0])
    && forall i, j :: 0 <= i && j == i + 1 && j < |run| ==> CanStep(run[i], run[j])
  }

  lemma {:induction false} CountIdle(ths: seq<Thread>, fd: nat)
    requires forall t :: 0 <= t < |ths| ==> ths[t].pc.Idle?
    ensures Count(ths, fd) == 0
  {
    if ths != [] { CountIdle(ths[1..], fd); }
  }

  lemma {:induction false} RunKeepsInv(run: seq<State>, i: nat)
    requires IsRun(run) && i < |run|
    ensures Inv(run[i])
    decreases i
  {
    if i == 0 {
      forall fd | 0 <= fd < |run[0].socks|
        ensures Count(run[0].threads, fd) == 0
      {
        CountIdle(run[0].threads, fd);
      }
    } else {
      RunKeepsInv(run, i - 1);
      assert CanStep(run[i - 1], run[i]);
      hide Inv;
      var step :| Enabled(run[i - 1], step) && run[i] == Next(run[i - 1], step);
      NextKeeps(run[i - 1], step);
    }
  }

  /** No lost wakeup, and select_waiting counts the registered waiters, in every state of every run. */
  lemma SleepersAreNotForgotten(run: seq<State>, i: nat, t: nat, fd: nat)
    requires IsRun(run) && i < |run|
    requires t < |run[i].threads| && fd < |run[i].socks|
    ensures run[i].socks[fd].waiting == Count(run[i].threads, fd)
    ensures var s := run[i];
            s.threads[t].pc.Wait? && !s.threads[t].signalled && Ready(s, s.threads[t], fd) ==>
              s.lock.Walking? && s.lock.fd == fd && t in s.lock.rest
  {
    RunKeepsInv(run, i);
  }

  // ---------- and they are woken ----------

  /** event_callback runs its walk to the end. */
  function FinishWalk(s: State): State
    decreases if s.lock.Walking? then |s.lock.rest| + 1 else 0
  {
    if s.lock.Walking? then FinishWalk(DoWalk(s)) else s
  }

  lemma {:induction false} WalkKeepsSignals(s: State, t: nat)
    requires t < |s.threads| && s.threads[t].signalled
    ensures t < |FinishWalk(s).threads| && FinishWalk(s).threads[t].signalled
    decreases if s.lock.Walking? then |s.lock.rest| + 1 else 0
  {
    if s.lock.Walking? { WalkKeepsSignals(DoWalk(s), t); }
  }

  /** The walk that a ready sleeper is ahead of does signal it, so its semaphore wait returns. */
  lemma {:induction false} WalkWakes(s: State, t: nat, fd: nat)
    requires Inv(s) && t < |s.threads| && fd < |s.socks|
    requires s.threads[t].pc.Wait? && Ready(s, s.threads[t], fd)
    ensures t < |FinishWalk(s).threads| && FinishWalk(s).threads[t].signalled
    decreases if s.lock.Walking? then |s.lock.rest| + 1 else 0
  {
    if s.threads[t].signalled {
      WalkKeepsSignals(s, t);
    } else {
      assert Relies(s.threads[t], fd);
      var s' := DoWalk(s);
      WalkKeeps(s);
      if s'.threads[t].signalled { WalkKeepsSignals(s', t); } else { WalkWakes(s', t, fd); }
    }
  }

  /** The walk signals only threads that watch its socket for one of the events it saved. */
  lemma {:induction false} WalkSignalsOnlyWatchers(s: State, t: nat)
    requires s.lock.Walking? && t < |s.threads| && !s.threads[t].signalled
    ensures t < |FinishWalk(s).threads|
    ensures FinishWalk(s).threads[t].signalled ==>
              || (s.lock.recv && s.lock.fd in s.threads[t].read)
              || (s.lock.send && s.lock.fd in s.threads[t].write)
              || (s.lock.err && s.lock.fd in s.threads[t].except)
    decreases |s.lock.rest|
  {
    var s' := DoWalk(s);
    if s'.threads[t].signalled {
      WalkKeepsSignals(s', t);
    } else if s'.lock.Walking? {
      WalkSignalsOnlyWatchers(s', t);
    }
  }

  /** The event is one that th watches fd for, and it makes fd ready. */
  predicate Awaits(s: State, th: Thread, fd: nat, evt: Event)
    requires fd < |s.socks|
  {
    match evt
    case RcvPlus => fd in th.read && s.socks[fd].rcv >= 0
    case SendPlus => fd in th.write
    case Error => fd in th.except
  }

  /** From the event to the wakeup: event_callback for an event a sleeping thread awaits signals it. */
  lemma EventWakesSleeper(s: State, fd: nat, evt: Event, t: nat)
    requires Inv(s) && s.lock.Held? && fd < |s.socks| && t < |s.threads|
    requires s.threads[t].pc.Wait? && Awaits(s, s.threads[t], fd, evt)
    ensures var s' := FinishWalk(DoPost(s, fd, evt));
            t < |s'.threads| && s'.threads[t].signalled
  {
    PostKeeps(s, fd, evt);
    WalkWakes(DoPost(s, fd, evt), t, fd);
  }
}
