/**
 lwip/api/sockets.c: what whole runs and whole calls of select come to.

 Select.dfy says what each protected region keeps.  Here the event fields are traced back to the events
 posted, signals to the events that caused them, and a select call to what it found.
 */
module SelectRuns {
  import opened Select

  /** run is what the given steps lead to from an initial state. */
  ghost predicate RunBy(run: seq<State>, steps: seq<Step>) {
    && |run| == |steps| + 1 && Init(run[0])
    && forall i :: 0 <= i < |steps| ==> Enabled(run[i], steps[i]) && run[i + 1] == Next(run[i], steps[i])
  }

  lemma IsARun(run: seq<State>, steps: seq<Step>)
    requires RunBy(run, steps)
    ensures IsRun(run)
  {
    hide Init, Enabled, Next;
    forall i, j | 0 <= i && j == i + 1 && j < |run| ensures CanStep(run[i], run[j]) {
      assert Enabled(run[i], steps[i]);
    }
  }

  lemma PrefixRun(run: seq<State>, steps: seq<Step>, n: nat)
    requires RunBy(run, steps) && n <= |steps|
    ensures RunBy(run[..n + 1], steps[..n])
  {
    hide Init, Enabled, Next;
  }

  // ---------- the event fields ----------

  /** Receive events of fd less those taken back, since the slot was last reused. */
  function Received(start: int, steps: seq<Step>, fd: nat): int {
    if steps == [] then start
    else
      var before := Received(start, steps[..|steps| - 1], fd);
      match steps[|steps| - 1]
      case Post(x, RcvPlus) => if x == fd then before + 1 else before
      case RcvMinus(x) => if x == fd then before - 1 else before
      case Reuse(x, _) => if x == fd then 0 else before
      case _ => before
  }

  /** The last of the steps that say whether fd is writable. */
  function Writable(start: bool, steps: seq<Step>, fd: nat): bool {
    if steps == [] then start
    else
      var before := Writable(start, steps[..|steps| - 1], fd);
      match steps[|steps| - 1]
      case Post(x, SendPlus) => x == fd || before
      case SendMinus(x) => x != fd && before
      case Reuse(x, writable) => if x == fd then writable else before
      case _ => before
  }

  /** An error was posted since the slot was last reused. */
  function Erred(start: bool, steps: seq<Step>, fd: nat): bool {
    if steps == [] then start
    else
      var before := Erred(start, steps[..|steps| - 1], fd);
      match steps[|steps| - 1]
      case Post(x, Error) => x == fd || before
      case Reuse(x, _) => x != fd && before
      case _ => before
  }

  /** In every state of every run the event fields of a socket are what the events so far make of them. */
  lemma {:induction false} EventsCounted(run: seq<State>, steps: seq<Step>, fd: nat)
    requires RunBy(run, steps) && fd < |run[0].socks|
    ensures var s, k := run[|steps|], run[0].socks[fd];
            && |s.socks| == |run[0].socks|
            && s.socks[fd].rcv == Received(k.rcv, steps, fd)
            && s.socks[fd].send == Writable(k.send, steps, fd)
            && s.socks[fd].err == Erred(k.err, steps, fd)
    decreases |steps|
  {
    if steps != [] {
      var n := |steps| - 1;
      PrefixRun(run, steps, n);
      EventsCounted(run[..n + 1], steps[..n], fd);
      StepCounted(run[n], steps[n], fd);
    }
  }

  lemma StepCounted(s: State, step: Step, fd: nat)
    requires Enabled(s, step) && fd < |s.socks|
    ensures var s', k := Next(s, step), s.socks[fd];
            && |s'.socks| == |s.socks|
            && s'.socks[fd].rcv == Received(k.rcv, [step], fd)
            && s'.socks[fd].send == Writable(k.send, [step], fd)
            && s'.socks[fd].err == Erred(k.err, [step], fd)
  {
    assert [step][..0] == [];
  }

  /**
   No lost wakeup in terms of the events alone: a thread that sleeps unsignalled, with no walk ahead of it, has
   no unread data on a socket it reads, and no writable or erroneous socket that it watches for that.
   */
  lemma SleepersHaveNothing(run: seq<State>, steps: seq<Step>, t: nat, fd: nat)
    requires RunBy(run, steps) && fd < |run[0].socks|
    requires var s := run[|steps|];
             && t < |s.threads| && s.threads[t].pc.Wait? && !s.threads[t].signalled
             && !(s.lock.Walking? && s.lock.fd == fd && t in s.lock.rest)
    ensures var th, k := run[|steps|].threads[t], run[0].socks[fd];
            && (fd in th.read ==> Received(k.rcv, steps, fd) <= 0)
            && (fd in th.write ==> !Writable(k.send, steps, fd))
            && (fd in th.except ==> !Erred(k.err, steps, fd))
  {
    EventsCounted(run, steps, fd);
    IsARun(run, steps);
    hide RunBy, IsRun;
    SleepersAreNotForgotten(run, |steps|, t, fd);
  }

  // ---------- an event and its walk ----------

  /** The condition that evt reports held already. */
  predicate Known(k: Sock, evt: Event) {
    match evt
    case RcvPlus => k.rcv > 0
    case SendPlus => k.send
    case Error => false
  }

  /** A walk starts exactly if somebody is registered for the socket and the event is news. */
  lemma PostStartsWalk(s: State, fd: nat, evt: Event)
    requires CountsOk(s) && fd < |s.socks|
    ensures DoPost(s, fd, evt).lock.Walking? <==> 0 < Count(s.threads, fd) && !Known(s.socks[fd], evt)
    ensures var s' := DoPost(s, fd, evt);
            s'.lock.Walking? ==>
              s'.lock.rest == s.list && forall th :: Signals(s'.lock, th) <==> Ready(s', th, fd)
  {
  }

  /** What the walk as a whole does to thread t. */
  lemma {:induction false} WalkSignalsExactly(s: State, t: nat)
    requires s.lock.Walking? && t < |s.threads| && !s.threads[t].signalled
    ensures var s' := FinishWalk(s);
            && s'.lock.Held? && s'.socks == s.socks && s'.list == s.list && |s'.threads| == |s.threads|
            && s'.threads[t] == s.threads[t].(signalled := t in s.lock.rest && Signals(s.lock, s.threads[t]))
    decreases |s.lock.rest|
  {
    var s' := DoWalk(s);
    if s'.threads[t].signalled {
      SignalledStays(s', t);
    } else if s'.lock.Walking? {
      assert s.lock.rest == [s.lock.rest[0]] + s.lock.rest[1..];
      WalkSignalsExactly(s', t);
    }
  }

  lemma {:induction false} SignalledStays(s: State, t: nat)
    requires s.lock.Walking? && t < |s.threads| && s.threads[t].signalled
    ensures var s' := FinishWalk(s);
            && s'.lock.Held? && s'.socks == s.socks && s'.list == s.list && |s'.threads| == |s.threads|
            && s'.threads[t] == s.threads[t]
    decreases |s.lock.rest|
  {
    var s' := DoWalk(s);
    if s'.lock.Walking? { SignalledStays(s', t); }
  }

  /**
   From an event to the end of its walk: a thread is signalled by it if and only if it is in select, the event is
   news to somebody registered, and the socket is now ready for what the thread watches it for.
   */
  lemma EventSignalsExactly(s: State, fd: nat, evt: Event, t: nat)
    requires Inv(s) && s.lock.Held? && fd < |s.socks| && t < |s.threads| && !s.threads[t].signalled
    ensures var s', p := FinishWalk(DoPost(s, fd, evt)), DoPost(s, fd, evt);
            && s'.lock.Held? && s'.socks == p.socks && |s'.threads| == |s.threads|
            && (s'.threads[t].signalled <==>
                 && !s.threads[t].pc.Idle? && 0 < Count(s.threads, fd) && !Known(s.socks[fd], evt)
                 && Ready(p, s.threads[t], fd))
  {
    var p := DoPost(s, fd, evt);
    PostStartsWalk(s, fd, evt);
    hide Count;
    if p.lock.Walking? { WalkSignalsExactly(p, t); }
  }

  // ---------- no signal without an event ----------

  /** Step m posted an event that made a socket ready for th, which has been in select ever since. */
  ghost predicate CausedBy(run: seq<State>, steps: seq<Step>, n: nat, t: nat, m: nat)
    requires RunBy(run, steps) && n <= |steps| && t < |run[n].threads|
  {
    && m < n && steps[m].Post? && steps[m].fd < |run[m + 1].socks|
    && Ready(run[m + 1], run[n].threads[t], steps[m].fd)
    && forall j :: m <= j <= n ==> t < |run[j].threads| && !run[j].threads[t].pc.Idle?
  }

  /** Step m posted the event whose walk is under way; the list has not changed since. */
  ghost predicate WalkFrom(run: seq<State>, steps: seq<Step>, n: nat, m: nat)
    requires RunBy(run, steps) && n <= |steps|
  {
    && m < n && steps[m].Post? && run[n].lock.Walking? && run[n].lock.fd == steps[m].fd < |run[m + 1].socks|
    && run[n].lock.recv == (run[m + 1].socks[steps[m].fd].rcv > 0)
    && run[n].lock.send == run[m + 1].socks[steps[m].fd].send
    && run[n].lock.err == run[m + 1].socks[steps[m].fd].err
    && (forall t :: t in run[n].lock.rest ==> t in run[n].list)
    && forall j :: m <= j <= n ==> run[j].list == run[n].list
  }

  /** A step that leaves a walk under way either started it or went on with it. */
  lemma StepWalks(s: State, step: Step)
    requires Enabled(s, step) && Next(s, step).lock.Walking?
    ensures var s' := Next(s, step);
            && s'.list == s.list && (step.Post? || s.lock.Walking?)
            && (step.Post? ==>
                 var k := s'.socks[step.fd];
                 s'.lock == Walking(step.fd, k.rcv > 0, k.send, k.err, s.list))
            && (!step.Post? ==>
                 && s'.lock == s.lock.(rest := s'.lock.rest)
                 && forall t :: t in s'.lock.rest ==> t in s.lock.rest)
  {
  }

  lemma {:induction false} WalkHasCause(run: seq<State>, steps: seq<Step>, n: nat) returns (m: nat)
    requires RunBy(run, steps) && n <= |steps| && run[n].lock.Walking?
    ensures WalkFrom(run, steps, n, m)
    decreases n
  {
    assert 0 < n && Enabled(run[n - 1], steps[n - 1]) && run[n] == Next(run[n - 1], steps[n - 1]);
    assert steps[n - 1].Post? ==> steps[n - 1].fd < |run[n].socks|;
    hide Init, Enabled, Next;
    StepWalks(run[n - 1], steps[n - 1]);
    if steps[n - 1].Post? { m := n - 1; } else { m := WalkHasCause(run, steps, n - 1); }
  }

  /** A thread in select keeps its sets; it joins unsignalled, and only the walk signals it. */
  lemma StepSignals(s: State, step: Step, t: nat)
    requires Enabled(s, step) && t < |Next(s, step).threads|
    ensures var s' := Next(s, step);
            && |s'.threads| == |s.threads|
            && (s.threads[t].pc.Idle? && !s'.threads[t].pc.Idle? ==> !s'.threads[t].signalled)
            && (s'.threads[t].signalled && !s.threads[t].signalled ==>
                 step.WalkNext? && s.lock.Walking? && t in s.lock.rest && Signals(s.lock, s.threads[t]))
            && (!s.threads[t].pc.Idle? && !s'.threads[t].pc.Idle? ==>
                 && s'.threads[t].read == s.threads[t].read && s'.threads[t].write == s.threads[t].write
                 && s'.threads[t].except == s.threads[t].except)
  {
  }

  /** No thread is signalled without a cause: an event after it joined made a socket ready for it. */
  lemma {:induction false} SignalsHaveCauses(run: seq<State>, steps: seq<Step>, n: nat, t: nat) returns (m: nat)
    requires RunBy(run, steps) && n <= |steps| && t < |run[n].threads|
    requires !run[n].threads[t].pc.Idle? && run[n].threads[t].signalled
    ensures CausedBy(run, steps, n, t, m)
    decreases n
  {
    assert 0 < n && Enabled(run[n - 1], steps[n - 1]) && run[n] == Next(run[n - 1], steps[n - 1]);
    StepSignals(run[n - 1], steps[n - 1], t);
    hide Init, Enabled, Next;
    if run[n - 1].threads[t].signalled {
      m := SignalsHaveCauses(run, steps, n - 1, t);
    } else {
      m := WalkHasCause(run, steps, n - 1);
      forall j | m <= j < n ensures t < |run[j].threads| && !run[j].threads[t].pc.Idle? {
        IsARun(run, steps);
        RunKeepsInv(run, j);
      }
    }
  }

  // ---------- a whole call ----------

  /** Registration stops at fd: it is watched, and closed or waited for by 255 threads. */
  predicate Blocks(s: State, th: Thread, open: set<nat>, fd: nat)
    requires fd < |s.socks|
  {
    th.Watches(fd) && (fd !in open || s.socks[fd].waiting >= 255)
  }

  /** The first loop, with the sockets in open being open. */
  function RegisterAll(s: State, t: nat, open: set<nat>): State
    requires t < |s.threads| && (s.threads[t].pc.Register? ==> s.threads[t].pc.i <= |s.socks|)
    decreases if s.threads[t].pc.Register? then |s.socks| + 1 - s.threads[t].pc.i else 0
  {
    if s.threads[t].pc.Register?
    then RegisterAll(Next(s, RegisterNext(t, s.threads[t].pc.i in open)), t, open) else s
  }

  /** The second scan; lastdata is the set of sockets with a partly read buffer. */
  function ScanAll(s: State, t: nat, open: set<nat>, lastdata: set<nat>): State
    requires t < |s.threads| && (s.threads[t].pc.Scan? ==> s.threads[t].pc.i <= |s.socks|)
    decreases if s.threads[t].pc.Scan? then |s.socks| + 1 - s.threads[t].pc.i else 0
  {
    var i := s.threads[t].pc;
    if i.Scan? then ScanAll(Next(s, ScanNext(t, i.i in open, i.i in lastdata)), t, open, lastdata) else s
  }

  /** The last loop. */
  function UnregisterAll(s: State, t: nat): State
    requires t < |s.threads| && s.threads[t].pc.Unregister? && s.threads[t].pc.i <= s.threads[t].pc.limit
    decreases s.threads[t].pc.limit - s.threads[t].pc.i
  {
    if s.threads[t].pc.i < s.threads[t].pc.limit then UnregisterAll(Next(s, UnregisterNext(t)), t) else s
  }

  /** Thread t has gone on to pc and moved select_waiting of the sockets it watches from lo to hi by d. */
  ghost predicate Moved(s: State, s': State, t: nat, pc: Pc, lo: nat, hi: nat, d: int)
    requires t < |s.threads|
  {
    && s'.threads == s.threads[t := s.threads[t].(pc := pc)] && s'.list == s.list && s'.lock == s.lock
    && |s'.socks| == |s.socks|
    && forall fd :: 0 <= fd < |s.socks| ==>
         && s'.socks[fd] == s.socks[fd].(waiting := s'.socks[fd].waiting)
         && s'.socks[fd].waiting ==
              s.socks[fd].waiting + (if lo <= fd < hi && s.threads[t].Watches(fd) then d else 0)
  }

  /** Registration comes to the end, or to the first socket that stops it. */
  lemma {:induction false} RegisterAllIs(s: State, t: nat, open: set<nat>) returns (end: nat)
    requires t < |s.threads| && s.threads[t].pc.Register? && s.threads[t].pc.i <= |s.socks|
    ensures s.threads[t].pc.i <= end <= |s.socks|
    ensures forall fd :: s.threads[t].pc.i <= fd < end ==> !Blocks(s, s.threads[t], open, fd)
    ensures end < |s.socks| ==> Blocks(s, s.threads[t], open, end)
    ensures Moved(s, RegisterAll(s, t, open), t, if end < |s.socks| then Unregister(0, end) else Scan(0, false),
                  s.threads[t].pc.i, end, 1)
    decreases |s.socks| - s.threads[t].pc.i
  {
    var i := s.threads[t].pc.i;
    var s' := Next(s, RegisterNext(t, i in open));
    if s'.threads[t].pc.Register? {
      end := RegisterAllIs(s', t, open);
      assert forall fd :: i < fd < |s.socks| ==>
               (Blocks(s', s'.threads[t], open, fd) <==> Blocks(s, s.threads[t], open, fd));
    } else {
      end := i;
    }
  }

  /** Nothing about fd keeps the thread from sleeping. */
  predicate Quiet(s: State, th: Thread, open: set<nat>, lastdata: set<nat>, fd: nat)
    requires fd < |s.socks|
  {
    th.Watches(fd) ==> fd in open && !Ready(s, th, fd) && !(fd in lastdata && fd in th.read)
  }

  /** The scan lets the thread sleep exactly if nothing was ready and no watched socket is closed. */
  lemma {:induction false} ScanAllIs(s: State, t: nat, open: set<nat>, lastdata: set<nat>)
    requires t < |s.threads| && s.threads[t].pc.Scan? && s.threads[t].pc.i <= |s.socks|
    ensures var pc := s.threads[t].pc;
            var sleeps := !pc.ready && forall fd :: pc.i <= fd < |s.socks| ==>
                                         Quiet(s, s.threads[t], open, lastdata, fd);
            ScanAll(s, t, open, lastdata) == SetPc(s, t, if sleeps then Wait else Unregister(0, |s.socks|))
    decreases |s.socks| - s.threads[t].pc.i
  {
    var i := s.threads[t].pc.i;
    var s' := Next(s, ScanNext(t, i in open, i in lastdata));
    assert ScanAll(s, t, open, lastdata) == ScanAll(s', t, open, lastdata);
    if !s'.threads[t].pc.Scan? {
      assert i < |s.socks| ==> !Quiet(s, s.threads[t], open, lastdata, i);
    } else {
      assert s'.threads[t].pc.ready <==> s.threads[t].pc.ready || !Quiet(s, s.threads[t], open, lastdata, i);
      ScanAllIs(s', t, open, lastdata);
      assert forall fd :: 0 <= fd < |s.socks| ==>
               Quiet(s', s'.threads[t], open, lastdata, fd) == Quiet(s, s.threads[t], open, lastdata, fd);
      assert forall pc :: SetPc(s', t, pc) == SetPc(s, t, pc);
    }
  }

  lemma {:induction false} UnregisterAllIs(s: State, t: nat)
    requires t < |s.threads| && s.threads[t].pc.Unregister? && s.threads[t].pc.i <= s.threads[t].pc.limit <= |s.socks|
    requires forall fd :: 0 <= fd < |s.socks| && s.threads[t].Watches(fd) ==>
               s.threads[t].pc.i <= fd < s.threads[t].pc.limit ==> 0 < s.socks[fd].waiting
    ensures var pc := s.threads[t].pc;
            Moved(s, UnregisterAll(s, t), t, Unregister(pc.limit, pc.limit), pc.i, pc.limit, -1)
    decreases s.threads[t].pc.limit - s.threads[t].pc.i
  {
    if s.threads[t].pc.i < s.threads[t].pc.limit { UnregisterAllIs(Next(s, UnregisterNext(t)), t); }
  }

  /** A call of select that finds the sockets in open open, up to where it sleeps or starts to leave. */
  function Enter(s: State, t: nat, r: set<nat>, w: set<nat>, e: set<nat>, open: set<nat>, lastdata: set<nat>): State
    requires Enabled(s, Link(t, r, w, e))
  {
    var s' := RegisterAll(Next(s, Link(t, r, w, e)), t, open);
    if t < |s'.threads| && s'.threads[t].pc == Scan(0, false) then ScanAll(s', t, open, lastdata) else s'
  }

  /** The thread sleeps exactly if every watched socket is open, has room for a waiter and has nothing for it. */
  predicate Sleeps(s: State, th: Thread, open: set<nat>, lastdata: set<nat>) {
    forall fd :: 0 <= fd < |s.socks| ==> Quiet(s, th, open, lastdata, fd) && !Blocks(s, th, open, fd)
  }

  lemma EnterIs(s: State, t: nat, r: set<nat>, w: set<nat>, e: set<nat>, open: set<nat>, lastdata: set<nat>)
    returns (end: nat)
    requires Enabled(s, Link(t, r, w, e))
    ensures var th := Thread(Register(0), r, w, e, false);
            var pc := if Sleeps(s, th, open, lastdata) then Wait else Unregister(0, end);
            && end <= |s.socks| && (Sleeps(s, th, open, lastdata) ==> end == |s.socks|)
            && Moved(Next(s, Link(t, r, w, e)), Enter(s, t, r, w, e, open, lastdata), t, pc, 0, end, 1)
  {
    var th, s0 := Thread(Register(0), r, w, e, false), Next(s, Link(t, r, w, e));
    end := RegisterAllIs(s0, t, open);
    var s1 := RegisterAll(s0, t, open);
    assert forall fd :: 0 <= fd < |s.socks| ==> Blocks(s0, s0.threads[t], open, fd) == Blocks(s, th, open, fd);
    if end == |s.socks| {
      ScanAllIs(s1, t, open, lastdata);
      assert forall fd :: 0 <= fd < |s.socks| ==>
               Quiet(s1, s1.threads[t], open, lastdata, fd) == Quiet(s, th, open, lastdata, fd);
    }
  }

  /** The semaphore wait times out. */
  function Awake(s: State, t: nat): State
    requires t < |s.threads|
  {
    if s.threads[t].pc.Wait? then Next(s, Timeout(t)) else s
  }

  /** The end of a call: select_waiting is decreased and the thread taken off the list. */
  function Leave(s: State, t: nat): State
    requires t < |s.threads| && s.threads[t].pc.Unregister? && s.threads[t].pc.i <= s.threads[t].pc.limit
    requires s.lock.Free?
  {
    var s' := UnregisterAll(s, t);
    if Enabled(s', Unlink(t)) then Next(s', Unlink(t)) else s'
  }

  /**
   A call of select that nothing interrupts sleeps if and only if every socket it watches is open, has room for
   another waiter and has nothing for it; and whether it sleeps until a timeout or leaves at once, it leaves
   sockets, list and other threads as it found them.
   */
  lemma WholeCall(s: State, t: nat, r: set<nat>, w: set<nat>, e: set<nat>, open: set<nat>, lastdata: set<nat>)
    requires Enabled(s, Link(t, r, w, e))
    ensures var s', th := Enter(s, t, r, w, e, open, lastdata), Thread(Register(0), r, w, e, false);
            && t < |s'.threads| && !s'.threads[t].signalled
            && (s'.threads[t].pc.Wait? <==> Sleeps(s, th, open, lastdata))
            && (!s'.threads[t].pc.Wait? ==> s'.threads[t].pc.Unregister?)
            && var s1 := Awake(s', t);
               && s1.threads[t].pc.Unregister? && s1.threads[t].pc.i <= s1.threads[t].pc.limit && s1.lock.Free?
               && Leave(s1, t) == s.(threads := s.threads[t := th.(pc := Idle)])
  {
    var s0, th := Next(s, Link(t, r, w, e)), Thread(Register(0), r, w, e, false);
    var end := EnterIs(s, t, r, w, e, open, lastdata);
    hide RegisterAll, ScanAll, Enter, Sleeps;
    var s' := Enter(s, t, r, w, e, open, lastdata);
    var s1 := Awake(s', t);
    assert Moved(s0, s1, t, Unregister(0, end), 0, end, 1);
    UnregisterAllIs(s1, t);
    var s2 := UnregisterAll(s1, t);
    assert s2.socks == s.socks;
    assert s2.list == [t] + s.list;
    assert RemoveFrom(s2.list, t) == s.list;
    assert Leave(s1, t) == Next(s2, Unlink(t));
    assert Leave(s1, t).threads == s.threads[t := th.(pc := Idle)];
  }
}
