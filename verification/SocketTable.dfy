/**
 lwip/api/sockets.c: descriptor reference counting with LWIP_NETCONN_FULLDUPLEX.

 A slot is a struct lwip_sock.  The class performs the protected regions in place on
 the array `sockets`; the transition system below interleaves those regions for any
 number of concurrent users, closers and allocators.
 */
module SocketTable {
  import opened Basics

  /** conn is the netconn the socket owns; used and pending are fd_used and fd_free_pending. */
  datatype Slot = Slot(conn: Option<nat>, used: nat, pending: bool)

  /** A slot after a region, and the netconn handed out for freeing, if any. */
  datatype Outcome = Outcome(slot: Slot, freed: Option<nat>)

  // ---------- the regions ----------

  /** sock_inc_used */
  function Inc(k: Slot): Slot {
    if k.pending then k else k.(used := k.used + 1)
  }

  /** free_socket_locked */
  function FreeLocked(k: Slot): Outcome
    requires k.used > 0
  {
    if k.used > 1 then Outcome(k.(used := k.used - 1, pending := true), None)
    else Outcome(Slot(None, 0, k.pending), k.conn)
  }

  /** done_socket */
  function Done(k: Slot): Outcome
    requires k.used > 0
  {
    if k.used == 1 && k.pending then FreeLocked(k.(used := 1))
    else Outcome(k.(used := k.used - 1), None)
  }

  predicate Allocatable(k: Slot) {
    k.conn.None? && k.used == 0
  }

  class Table {
    const sockets: array<Slot>

    constructor (n: nat)
      ensures sockets.Length == n && fresh(sockets)
      ensures forall i :: 0 <= i < n ==> sockets[i] == Slot(None, 0, false)
    {
      sockets := new Slot[n](_ => Slot(None, 0, false));
    }

    /** sock_inc_used */
    method IncUsed(i: nat) returns (ok: bool)
      requires i < sockets.Length
      modifies sockets
      ensures ok == !old(sockets[i]).pending
      ensures sockets[i] == if ok then old(sockets[i]).(used := old(sockets[i]).used + 1) else old(sockets[i])
      ensures sockets[..] == old(sockets[..])[i := Inc(old(sockets[i]))]
    {
      if sockets[i].pending {
        ok := false;
      } else {
        sockets[i] := sockets[i].(used := sockets[i].used + 1);
        ok := true;
      }
    }

    /** free_socket_locked */
    method FreeSocketLocked(i: nat) returns (freed: bool, conn: Option<nat>)
      requires i < sockets.Length && sockets[i].used > 0
      modifies sockets
      ensures sockets[..] == old(sockets[..])[i := FreeLocked(old(sockets[i])).slot]
      ensures conn == FreeLocked(old(sockets[i])).freed && freed == (old(sockets[i]).used == 1)
      ensures freed ==> conn == old(sockets[i]).conn && Allocatable(sockets[i])
      ensures !freed ==> conn == None && sockets[i] == Slot(old(sockets[i]).conn, old(sockets[i]).used - 1, true)
    {
      sockets[i] := sockets[i].(used := sockets[i].used - 1);
      if sockets[i].used > 0 {
        sockets[i] := sockets[i].(pending := true);
        return false, None;
      }
      conn := sockets[i].conn;
      sockets[i] := sockets[i].(conn := None);
      freed := true;
    }

    /** done_socket; conn is what it deletes after leaving the protected region. */
    method DoneSocket(i: nat) returns (conn: Option<nat>)
      requires i < sockets.Length && sockets[i].used > 0
      modifies sockets
      ensures sockets[..] == old(sockets[..])[i := Done(old(sockets[i])).slot]
      ensures conn == Done(old(sockets[i])).freed
      ensures old(sockets[i].used == 1 && sockets[i].pending) ==>
                conn == old(sockets[i]).conn && Allocatable(sockets[i])
      ensures !old(sockets[i].used == 1 && sockets[i].pending) ==>
                conn == None && sockets[i] == old(sockets[i]).(used := old(sockets[i]).used - 1)
    {
      conn := None;
      sockets[i] := sockets[i].(used := sockets[i].used - 1);
      if sockets[i].used == 0 && sockets[i].pending {
        sockets[i] := sockets[i].(used := 1);
        var freed;
        freed, conn := FreeSocketLocked(i);
      }
    }

    /** alloc_socket: takes the lowest slot that is neither owned nor referenced. */
    method AllocSocket(newconn: nat) returns (s: int)
      modifies sockets
      ensures -1 <= s < sockets.Length
      ensures s == -1 ==>
                sockets[..] == old(sockets[..]) && forall i :: 0 <= i < sockets.Length ==> !Allocatable(sockets[i])
      ensures s >= 0 ==>
                old(Allocatable(sockets[s])) && sockets[..] == old(sockets[..])[s := Slot(Some(newconn), 1, false)]
      ensures forall i :: 0 <= i < s ==> !Allocatable(sockets[i])
    {
      for i := 0 to sockets.Length
        invariant sockets[..] == old(sockets[..])
        invariant forall j :: 0 <= j < i ==> !Allocatable(sockets[j])
      {
        if sockets[i].conn.None? && sockets[i].used == 0 {
          sockets[i] := Slot(Some(newconn), 1, false);
          return i;
        }
      }
      return -1;
    }
  }

  // ---------- interleavings ----------

  /** One reference holder: free, holding a reference taken without looking at conn (tryget_socket_unconn),
      or holding one with conn seen (get_socket, or the creator in alloc_socket). */
  datatype Holder = Idle | Raw(slot: nat) | Using(slot: nat)

  /** freed is the log of netconns handed out for freeing, nextConn the number of netconns created. */
  datatype State = State(slots: seq<Slot>, holders: seq<Holder>, freed: seq<nat>, nextConn: nat)

  datatype Step =
    | Alloc(h: nat, slot: nat)      // alloc_socket for a new netconn
    | TryGet(h: nat, slot: nat)     // sock_inc_used
    | Look(h: nat)                  // get_socket tests sock->conn
    | Drop(h: nat)                  // done_socket
    | Close(h: nat)                 // free_socket, from lwip_close

  predicate Enabled(s: State, step: Step) {
    && step.h < |s.holders|
    && match step
       case Alloc(h, i) => s.holders[h].Idle? && i < |s.slots| && Allocatable(s.slots[i])
       // fd_used is an u8_t; LWIP_ASSERT stops the program before it wraps
       case TryGet(h, i) => s.holders[h].Idle? && i < |s.slots| && s.slots[i].used < 255
       case Look(h) => s.holders[h].Raw? && s.holders[h].slot < |s.slots| && s.slots[s.holders[h].slot].conn.Some?
       case Drop(h) => !s.holders[h].Idle? && s.holders[h].slot < |s.slots| && s.slots[s.holders[h].slot].used > 0
       case Close(h) => s.holders[h].Using? && s.holders[h].slot < |s.slots| && s.slots[s.holders[h].slot].used > 0
  }

  function Log(o: Option<nat>): seq<nat> {
    if o.Some? then [o.value] else []
  }

  /** Holder h gives up its reference to slot i with outcome o. */
  function Release(s: State, h: nat, i: nat, o: Outcome): State
    requires h < |s.holders| && i < |s.slots|
  {
    s.(slots := s.slots[i := o.slot], holders := s.holders[h := Idle], freed := s.freed + Log(o.freed))
  }

  function Next(s: State, step: Step): State
    requires Enabled(s, step)
  {
    match step
    case Alloc(h, i) =>
      State(s.slots[i := Slot(Some(s.nextConn), 1, false)], s.holders[h := Using(i)], s.freed, s.nextConn + 1)
    case TryGet(h, i) =>
      s.(slots := s.slots[i := Inc(s.slots[i])], holders := s.holders[h := if s.slots[i].pending then Idle else Raw(i)])
    case Look(h) => s.(holders := s.holders[h := Using(s.holders[h].slot)])
    case Drop(h) => Release(s, h, s.holders[h].slot, Done(s.slots[s.holders[h].slot]))
    case Close(h) => Release(s, h, s.holders[h].slot, FreeLocked(s.slots[s.holders[h].slot]))
  }

  // ---------- the invariant ----------

  predicate Holds(x: Holder, i: nat) {
    !x.Idle? && x.slot == i
  }

  function References(hs: seq<Holder>, i: nat): nat {
    if hs == [] then 0 else (if Holds(hs[0], i) then 1 else 0) + References(hs[1..], i)
  }

  /** fd_used is the number of references held. */
  ghost predicate CountsOk(s: State) {
    forall i :: 0 <= i < |s.slots| ==> s.slots[i].used == References(s.holders, i)
  }

  /** A pending free is completed exactly when the last reference is gone. */
  ghost predicate PendingOk(s: State) {
    forall i :: 0 <= i < |s.slots| && s.slots[i].pending ==> (s.slots[i].used == 0 <==> s.slots[i].conn.None?)
  }

  /** Whoever has seen the netconn still has it. */
  ghost predicate UsersOk(s: State) {
    forall h :: 0 <= h < |s.holders| && !s.holders[h].Idle? ==>
      s.holders[h].slot < |s.slots| && (s.holders[h].Using? ==> s.slots[s.holders[h].slot].conn.Some?)
  }

  /** A netconn is owned by at most one socket, or was handed out once, never both, and none is lost. */
  ghost predicate OwnersOk(s: State) {
    && (forall i :: 0 <= i < |s.slots| && s.slots[i].conn.Some? ==>
         s.slots[i].conn.value < s.nextConn && s.slots[i].conn.value !in s.freed)
    && (forall i, j :: 0 <= i < j < |s.slots| && s.slots[i].conn.Some? ==> s.slots[i].conn != s.slots[j].conn)
    && (forall i, j :: 0 <= i < j < |s.freed| ==> s.freed[i] != s.freed[j])
    && (forall c :: c in s.freed ==> c < s.nextConn)
    && (forall c :: 0 <= c < s.nextConn ==> c in s.freed || Owned(s, c))
  }

  ghost predicate Owned(s: State, c: nat) {
    exists i :: 0 <= i < |s.slots| && s.slots[i].conn == Some(c)
  }

  ghost predicate Inv(s: State) {
    CountsOk(s) && PendingOk(s) && UsersOk(s) && OwnersOk(s)
  }

  lemma {:induction false} ReferencesUpdate(hs: seq<Holder>, h: nat, x: Holder, i: nat)
    requires h < |hs|
    ensures References(hs[h := x], i) ==
            References(hs, i) + (if Holds(x, i) then 1 else 0) - (if Holds(hs[h], i) then 1 else 0)
  {
    if h == 0 {
      assert hs[h := x][1..] == hs[1..];
    } else {
      assert hs[h := x][1..] == hs[1..][h - 1 := x];
      ReferencesUpdate(hs[1..], h - 1, x, i);
    }
  }

  lemma {:induction false} HeldIsCounted(hs: seq<Holder>, h: nat, i: nat)
    requires h < |hs| && Holds(hs[h], i)
    ensures References(hs, i) > 0
  {
    if h > 0 { HeldIsCounted(hs[1..], h - 1, i); }
  }

  lemma CountsKept(s: State, s': State, h: nat, i: nat)
    requires CountsOk(s) && h < |s.holders| && i < |s.slots|
    requires |s'.holders| == |s.holders| && s'.holders == s.holders[h := s'.holders[h]]
    requires |s'.slots| == |s.slots| && s'.slots == s.slots[i := s'.slots[i]]
    requires Holds(s.holders[h], i) || s.holders[h].Idle?
    requires Holds(s'.holders[h], i) || s'.holders[h].Idle?
    requires s'.slots[i].used ==
               s.slots[i].used + (if s'.holders[h].Idle? then 0 else 1) - (if s.holders[h].Idle? then 0 else 1)
    ensures CountsOk(s')
  {
    forall j | 0 <= j < |s'.slots|
      ensures s'.slots[j].used == References(s'.holders, j)
    {
      ReferencesUpdate(s.holders, h, s'.holders[h], j);
    }
  }

  lemma AllocKeeps(s: State, h: nat, i: nat)
    requires Inv(s) && Enabled(s, Alloc(h, i))
    ensures Inv(Next(s, Alloc(h, i)))
  {
    var s' := Next(s, Alloc(h, i));
    CountsKept(s, s', h, i);
    forall g | 0 <= g < |s.holders| && !s.holders[g].Idle?
      ensures s.holders[g].slot != i
    {
      if s.holders[g].slot == i { HeldIsCounted(s.holders, g, i); }
    }
    assert s'.slots[i].conn == Some(s.nextConn);
    forall c | 0 <= c < s'.nextConn
      ensures c in s'.freed || Owned(s', c)
    {
      if c < s.nextConn && c !in s.freed {
        var j :| 0 <= j < |s.slots| && s.slots[j].conn == Some(c);
        assert s'.slots[j] == s.slots[j];
      }
    }
  }

  lemma TryGetKeeps(s: State, h: nat, i: nat)
    requires Inv(s) && Enabled(s, TryGet(h, i))
    ensures Inv(Next(s, TryGet(h, i)))
  {
    var s' := Next(s, TryGet(h, i));
    CountsKept(s, s', h, i);
    ConnsKept(s, s');
  }

  lemma LookKeeps(s: State, h: nat)
    requires Inv(s) && Enabled(s, Look(h))
    ensures Inv(Next(s, Look(h)))
  {
    var s' := Next(s, Look(h));
    CountsKept(s, s', h, s.holders[h].slot);
    ConnsKept(s, s');
  }

  /** Steps that move no netconn keep the ownership. */
  lemma ConnsKept(s: State, s': State)
    requires OwnersOk(s) && s'.freed == s.freed && s'.nextConn == s.nextConn && |s'.slots| == |s.slots|
    requires forall i :: 0 <= i < |s.slots| ==> s'.slots[i].conn == s.slots[i].conn
    ensures OwnersOk(s')
  {
    forall c | 0 <= c < s.nextConn && c !in s.freed
      ensures Owned(s', c)
    {
      var j :| 0 <= j < |s.slots| && s.slots[j].conn == Some(c);
      assert s'.slots[j].conn == Some(c);
    }
  }

  /** The netconn of slot i moves to the log. */
  lemma HandOut(s: State, s': State, i: nat)
    requires OwnersOk(s) && i < |s.slots| && s.slots[i].conn.Some?
    requires |s'.slots| == |s.slots| && s'.slots == s.slots[i := s'.slots[i]] && s'.slots[i].conn.None?
    requires s'.freed == s.freed + [s.slots[i].conn.value] && s'.nextConn == s.nextConn
    ensures OwnersOk(s')
  {
    var v := s.slots[i].conn.value;
    assert forall c :: c in s'.freed <==> c in s.freed || c == v;
    forall c | 0 <= c < s.nextConn && c !in s'.freed
      ensures Owned(s', c)
    {
      var j :| 0 <= j < |s.slots| && s.slots[j].conn == Some(c);
      assert j != i;
      assert s'.slots[j].conn == Some(c);
    }
  }

  /** The asserts on fd_used in done_socket and free_socket_locked hold. */
  lemma HolderMayRelease(s: State, h: nat)
    requires CountsOk(s) && UsersOk(s) && h < |s.holders| && !s.holders[h].Idle?
    ensures Enabled(s, Drop(h)) && (s.holders[h].Using? ==> Enabled(s, Close(h)))
  {
    HeldIsCounted(s.holders, h, s.holders[h].slot);
  }

  /** With one reference left, nobody else uses the slot. */
  lemma LastReference(hs: seq<Holder>, h: nat, g: nat, i: nat)
    requires h < |hs| && g < |hs| && Holds(hs[h], i) && References(hs, i) == 1
    ensures Holds(hs[g], i) ==> g == h
  {
    if Holds(hs[g], i) && g != h {
      ReferencesUpdate(hs, h, Idle, i);
      HeldIsCounted(hs[h := Idle], g, i);
    }
  }

  lemma ReleaseKeeps(s: State, h: nat, o: Outcome)
    requires Inv(s) && h < |s.holders| && !s.holders[h].Idle? && s.holders[h].slot < |s.slots|
    requires var k := s.slots[s.holders[h].slot];
             k.used > 0 && (o == Done(k) || (s.holders[h].Using? && o == FreeLocked(k)))
    ensures Inv(Release(s, h, s.holders[h].slot, o))
  {
    var i := s.holders[h].slot;
    var s' := Release(s, h, i, o);
    CountsKept(s, s', h, i);
    if o.slot.conn.None? && s.slots[i].conn.Some? {
      HandOut(s, s', i);
      forall g | 0 <= g < |s.holders| && g != h
        ensures !Holds(s.holders[g], i)
      {
        LastReference(s.holders, h, g, i);
      }
    } else {
      assert Log(o.freed) == [];
      ConnsKept(s, s');
    }
  }

  lemma NextKeeps(s: State, step: Step)
    requires Inv(s) && Enabled(s, step)
    ensures Inv(Next(s, step))
  {
    match step
    case Alloc(h, i) => AllocKeeps(s, h, i);
    case TryGet(h, i) => TryGetKeeps(s, h, i);
    case Look(h) => LookKeeps(s, h);
    case Drop(h) => ReleaseKeeps(s, h, Done(s.slots[s.holders[h].slot]));
    case Close(h) => ReleaseKeeps(s, h, FreeLocked(s.slots[s.holders[h].slot]));
  }

  // ---------- whole runs ----------

  ghost predicate Init(s: State) {
    && (forall i :: 0 <= i < |s.slots| ==> s.slots[i] == Slot(None, 0, false))
    && (forall h :: 0 <= h < |s.holders| ==> s.holders[h].Idle?)
    && s.freed == [] && s.nextConn == 0
  }

  ghost predicate CanStep(s: State, s': State) {
    exists step :: Enabled(s, step) && s' == Next(s, step)
  }

  ghost predicate IsRun(run: seq<State>) {
    && 0 < |run| && Init(run[0])
    && forall i, j :: 0 <= i && j == i + 1 && j < |run| ==> CanStep(run[i], run[j])
  }

  lemma {:induction false} NoReferences(hs: seq<Holder>, i: nat)
    requires forall h :: 0 <= h < |hs| ==> hs[h].Idle?
    ensures References(hs, i) == 0
  {
    if hs != [] { NoReferences(hs[1..], i); }
  }

  lemma {:induction false} RunKeepsInv(run: seq<State>, i: nat)
    requires IsRun(run) && i < |run|
    ensures Inv(run[i])
    decreases i
  {
    if i == 0 {
      forall k | 0 <= k < |run[0].slots|
        ensures References(run[0].holders, k) == 0
      {
        NoReferences(run[0].holders, k);
      }
    } else {
      RunKeepsInv(run, i - 1);
      assert CanStep(run[i - 1], run[i]);
      hide Inv;
      var step :| Enabled(run[i - 1], step) && run[i] == Next(run[i - 1], step);
      NextKeeps(run[i - 1], step);
    }
  }

  /** In every reachable state a step hands out a netconn only by dropping the last reference of a closed
      socket, and alloc_socket only takes slots nobody references. */
  lemma HandedOutWithLastReference(run: seq<State>, i: nat, step: Step)
    requires IsRun(run) && i < |run| && Enabled(run[i], step)
    ensures var s, s' := run[i], Next(run[i], step);
            && (step.Alloc? ==> References(s.holders, step.slot) == 0)
            && (s'.freed != s.freed ==>
                 && (step.Drop? || step.Close?)
                 && References(s.holders, s.holders[step.h].slot) == 1
                 && (step.Drop? ==> s.slots[s.holders[step.h].slot].pending)
                 && s'.freed == s.freed + [s.slots[s.holders[step.h].slot].conn.value])
  {
    RunKeepsInv(run, i);
  }

  /** At most once, and once the socket is closed and unreferenced, exactly once. */
  lemma FreedExactlyOnce(run: seq<State>, i: nat, c: nat)
    requires IsRun(run) && i < |run| && c < run[i].nextConn
    ensures multiset(run[i].freed)[c] == if Owned(run[i], c) then 0 else 1
    ensures forall k :: 0 <= k < |run[i].slots| && run[i].slots[k].pending && run[i].slots[k].conn == Some(c) ==>
              References(run[i].holders, k) > 0
  {
    RunKeepsInv(run, i);
    OccursOnce(run[i].freed, c);
  }

  /** run is what the given steps lead to. */
  ghost predicate RunBy(run: seq<State>, steps: seq<Step>) {
    && |run| == |steps| + 1 && Init(run[0])
    && forall i :: 0 <= i < |steps| ==> Enabled(run[i], steps[i]) && run[i + 1] == Next(run[i], steps[i])
  }

  lemma RunByKeepsInv(run: seq<State>, steps: seq<Step>, i: nat)
    requires RunBy(run, steps) && i < |run|
    ensures Inv(run[i])
  {
    hide Inv, Enabled, Next, Init;
    forall j, k | 0 <= j && k == j + 1 && k < |run| ensures CanStep(run[j], run[k]) {
      assert Enabled(run[j], steps[j]);
    }
    RunKeepsInv(run, i);
  }

  /** Netconn c was handed out, or its slot waits, marked as closed, for references that are still held. */
  ghost predicate Closed(s: State, c: nat) {
    c in s.freed ||
    exists k :: 0 <= k < |s.slots| && s.slots[k].conn == Some(c) && s.slots[k].pending && 0 < References(s.holders, k)
  }

  /** The step closes the socket of netconn c. */
  predicate Closes(s: State, step: Step, c: nat) {
    && step.Close? && step.h < |s.holders| && !s.holders[step.h].Idle? && s.holders[step.h].slot < |s.slots|
    && s.slots[s.holders[step.h].slot].conn == Some(c)
  }

  /** Every close in a run closes the socket of some netconn. */
  lemma CloseHasConn(run: seq<State>, steps: seq<Step>, m: nat) returns (c: nat)
    requires RunBy(run, steps) && m < |steps| && steps[m].Close?
    ensures Closes(run[m], steps[m], c)
  {
    assert Enabled(run[m], steps[m]);
    RunByKeepsInv(run, steps, m);
    c := run[m].slots[run[m].holders[steps[m].h].slot].conn.value;
  }

  lemma CloseCloses(s: State, step: Step, c: nat)
    requires Inv(s) && Enabled(s, step) && Closes(s, step, c)
    ensures Closed(Next(s, step), c)
  {
    var s', k := Next(s, step), s.holders[step.h].slot;
    ReleaseKeeps(s, step.h, FreeLocked(s.slots[k]));
    hide References;
    if s.slots[k].used > 1 {
      assert s'.slots[k].pending && s'.slots[k].conn == Some(c) && s'.slots[k].used == References(s'.holders, k);
    } else {
      assert s'.freed == s.freed + [c];
    }
  }

  lemma FreedOnce(s: State, c: nat)
    requires Inv(s)
    ensures c in s.freed ==> multiset(s.freed)[c] == 1 && !Owned(s, c)
  {
    OccursOnce(s.freed, c);
  }

  lemma ClosedStays(s: State, step: Step, c: nat)
    requires Inv(s) && Enabled(s, step) && Closed(s, c)
    ensures Closed(Next(s, step), c)
  {
    var s' := Next(s, step);
    NextKeeps(s, step);
    hide References;
    if c !in s.freed {
      var k :| 0 <= k < |s.slots| && s.slots[k].conn == Some(c) && s.slots[k].pending && 0 < References(s.holders, k);
      assert c !in s'.freed ==> s'.slots[k].conn == Some(c) && s'.slots[k].pending;
      assert s'.slots[k].used == References(s'.holders, k);
    }
  }

  /**
   A netconn that some step closed is, in every later state, handed out exactly once, or it sits in a slot that is
   marked as closed and still referenced; so it is handed out by the time nobody references that slot.
   */
  lemma {:induction false} ClosedIsFreed(run: seq<State>, steps: seq<Step>, m: nat, n: nat, c: nat)
    requires RunBy(run, steps) && m < n <= |steps| && Closes(run[m], steps[m], c)
    ensures Closed(run[n], c)
    ensures c in run[n].freed ==> multiset(run[n].freed)[c] == 1 && !Owned(run[n], c)
    decreases n
  {
    hide Inv, Enabled, Next, Init, Closed, Closes, Owned;
    assert Enabled(run[n - 1], steps[n - 1]) && run[n] == Next(run[n - 1], steps[n - 1]);
    RunByKeepsInv(run, steps, n - 1);
    RunByKeepsInv(run, steps, n);
    FreedOnce(run[n], c);
    if m + 1 == n {
      CloseCloses(run[m], steps[m], c);
    } else {
      ClosedIsFreed(run, steps, m, n - 1, c);
      ClosedStays(run[n - 1], steps[n - 1], c);
    }
  }

  /** Step m closed slot k while others referenced it, and the slot has not been allocated since. */
  ghost predicate Deferred(run: seq<State>, steps: seq<Step>, n: nat, k: nat, m: nat)
    requires RunBy(run, steps) && n <= |steps|
  {
    && m < n && steps[m].Close? && steps[m].h < |run[m].holders| && Holds(run[m].holders[steps[m].h], k)
    && 1 < References(run[m].holders, k)
    && forall j :: m < j < n ==> !(steps[j].Alloc? && steps[j].slot == k)
  }

  /** A free is marked pending exactly for the slots closed while referenced by others since their allocation. */
  lemma {:induction false} PendingIffDeferred(run: seq<State>, steps: seq<Step>, n: nat, k: nat)
    requires RunBy(run, steps) && n <= |steps| && k < |run[n].slots|
    ensures run[n].slots[k].pending <==> exists m :: Deferred(run, steps, n, k, m)
    decreases n
  {
    if n > 0 {
      var s, step := run[n - 1], steps[n - 1];
      assert Enabled(s, step) && run[n] == Next(s, step);
      RunByKeepsInv(run, steps, n - 1);
      assert s.slots[k].used == References(s.holders, k);
      hide References, Inv, PendingOk, UsersOk, OwnersOk, Init;
      PendingIffDeferred(run, steps, n - 1, k);
      var now := step.Close? && Holds(s.holders[step.h], k) && 1 < References(s.holders, k);
      var taken := step.Alloc? && step.slot == k;
      assert run[n].slots[k].pending <==> now || (s.slots[k].pending && !taken);
      if now { assert Deferred(run, steps, n, k, n - 1); }
      if s.slots[k].pending && !taken {
        var m :| Deferred(run, steps, n - 1, k, m);
        assert Deferred(run, steps, n, k, m);
      }
      forall m | Deferred(run, steps, n, k, m) ensures now || (!taken && Deferred(run, steps, n - 1, k, m)) {
      }
    }
  }

  /** A reference can be had exactly while the socket has not been closed: sock_inc_used. */
  lemma ReferenceUnlessClosed(run: seq<State>, steps: seq<Step>, h: nat, k: nat)
    requires RunBy(run, steps) && Enabled(run[|steps|], TryGet(h, k))
    ensures Holds(Next(run[|steps|], TryGet(h, k)).holders[h], k) <==>
              !exists m :: Deferred(run, steps, |steps|, k, m)
  {
    PendingIffDeferred(run, steps, |steps|, k);
  }

  /** sock_inc_used_locked asserts that fd_used is not 0 when a free is pending.  In every reachable state that is
      true of a slot with a pending free if and only if the slot still has its netconn. */
  lemma PendingMeansReferenced(run: seq<State>, i: nat, k: nat)
    requires IsRun(run) && i < |run| && k < |run[i].slots| && run[i].slots[k].pending
    ensures run[i].slots[k].used != 0 <==> run[i].slots[k].conn.Some?
  {
    RunKeepsInv(run, i);
  }

  /** A close while somebody else holds a reference, and the drop of that reference. */
  function DeferredFree(k: nat): State {
    match k
    case 0 => State([Slot(None, 0, false)], [Idle, Idle], [], 0)
    case 1 => State([Slot(Some(0), 1, false)], [Using(0), Idle], [], 1)
    case 2 => State([Slot(Some(0), 2, false)], [Using(0), Raw(0)], [], 1)
    case 3 => State([Slot(Some(0), 1, true)], [Idle, Raw(0)], [], 1)
    case _ => State([Slot(None, 0, true)], [Idle, Idle], [0], 1)
  }

  lemma DeferredFreeStep(k: nat)
    requires k < 4
    ensures CanStep(DeferredFree(k), DeferredFree(k + 1))
  {
    var step := match k case 0 => Alloc(0, 0) case 1 => TryGet(1, 0) case 2 => Close(0) case _ => Drop(1);
    var s := DeferredFree(k);
    assert Enabled(s, step);
    assert Next(s, step).slots == DeferredFree(k + 1).slots;
    assert Next(s, step).holders == DeferredFree(k + 1).holders;
  }

  /** It reaches a slot whose free is still marked pending although it has no netconn and no reference. */
  lemma PendingStaysSet() returns (run: seq<State>)
    ensures IsRun(run) && run[|run| - 1].slots == [Slot(None, 0, true)]
  {
    hide CanStep;
    run := [DeferredFree(0), DeferredFree(1), DeferredFree(2), DeferredFree(3), DeferredFree(4)];
    forall i, j | 0 <= i && j == i + 1 && j < |run| ensures CanStep(run[i], run[j]) {
      DeferredFreeStep(i);
    }
  }

  lemma {:induction false} OccursOnce(xs: seq<nat>, c: nat)
    requires forall i, j :: 0 <= i < j < |xs| ==> xs[i] != xs[j]
    ensures multiset(xs)[c] == if c in xs then 1 else 0
  {
    if xs != [] {
      OccursOnce(xs[1..], c);
      assert xs == [xs[0]] + xs[1..];
    }
  }
}
