/**
 lwip/api/api_msg.c: a TCP netconn whose blocking operations are finished by callbacks.

 Core-locking, not full-duplex, without send timeouts and linger.  TCP itself is the
 environment: the results of tcp_connect, tcp_write, tcp_output, tcp_close and
 tcp_shutdown are parameters.  One application operation is outstanding at a time.
 */
module Netconn {
  import opened Basics
  import opened VectorWrite

  /** conn->state */
  datatype State = Idle | Writing | Listening | Connecting | Closing

  datatype Shut = Rd | Wr | RdWr

  /** The operation in struct api_msg. */
  datatype Msg = WriteMsg(w: Write) | ConnectMsg | CloseMsg(shut: Shut, pollsLeft: nat)

  /** The application thread: running, or in sys_arch_sem_wait for an operation in the given state. */
  datatype App = Running | Asleep(op: State)

  /** What close_internal asks of the pcb: tcp_close/tcp_shutdown result, half-closed already? */
  datatype CloseAnswer = CloseAnswer(result: Err, finWait: bool, rxClosed: bool)

  /** What listening meets: is the pcb closed, the results of tcp_listen and of creating the accept mailbox. */
  datatype ListenAnswer = ListenAnswer(closed: bool, listen: Err, mbox: Err)

  /** shut_close: close both directions instead of shutting one. */
  predicate ClosesBoth(shut: Shut, a: CloseAnswer) {
    shut.RdWr? || (shut.Rd? && a.finWait) || (shut.Wr? && a.rxClosed)
  }

  /** Both directions are closed afterwards exactly if each is shut now or was shut before. */
  lemma BothDirections(shut: Shut, a: CloseAnswer)
    ensures ClosesBoth(shut, a) <==>
              (shut == Rd || shut == RdWr || a.rxClosed) && (shut == Wr || shut == RdWr || a.finWait)
  {
  }

  /** A close short of memory is tried again while polls are left; given up, it counts as done if nothing else is
      open, because the pcb is aborted. */
  lemma CloseEnds(shut: Shut, pollsLeft: nat, a: CloseAnswer)
    ensures !CloseFinish(shut, pollsLeft, a).0 <==> a.result == Mem && pollsLeft > 0
    ensures CloseFinish(shut, pollsLeft, a) == (true, Ok) <==>
              a.result == Ok || (a.result == Mem && pollsLeft == 0 && ClosesBoth(shut, a))
    ensures var (done, e) := CloseFinish(shut, pollsLeft, a); done && e != Ok ==> e == a.result
  {
  }

  /** Is the close finished, and with what error? */
  function CloseFinish(shut: Shut, pollsLeft: nat, a: CloseAnswer): (bool, Err) {
    if a.result != Mem then (true, a.result)
    else if pollsLeft == 0 then (true, if ClosesBoth(shut, a) then Ok else Mem)
    else (false, Mem)
  }

  function StateOf(m: Msg): State {
    match m
    case WriteMsg(_) => Writing
    case ConnectMsg => Connecting
    case CloseMsg(_, _) => Closing
  }

  /** A blocking write in progress. */
  ghost predicate Unfinished(w: Write, sent: seq<Byte>) {
    WriteOk(w) && 0 < w.cnt && w.offset <= w.len && !w.dontblock && sent == Flat(w.vectors)[..w.offset]
  }

  class Conn {
    var state: State
    var pcb: bool                // conn->pcb.tcp != NULL
    var current: Option<Msg>     // conn->current_msg
    var nbConnect: bool          // NETCONN_FLAG_IN_NONBLOCKING_CONNECT
    var nonblocking: bool
    var pendingErr: Err
    var err: Err                 // msg->err of the last finished operation
    var sem: nat                 // op_completed semaphore
    var app: App
    var sent: seq<Byte>          // bytes tcp_write accepted for the last write
    var written: Option<Write>   // the last write once it is finished, and its result
    var writtenErr: Err
    ghost var waits: nat         // operations that made the caller wait
    ghost var signals: nat       // sys_sem_signal calls
    ghost var deletedWhileConnecting: bool  // the netconn was deleted during a non-blocking connect

    /** The write under way has sent exactly its first offset bytes and has some left. */
    ghost predicate WriteUnderWay()
      reads this`current, this`sent, this`written
    {
      current.Some? && current.value.WriteMsg? ==> Unfinished(current.value.w, sent) && written.None?
    }

    /** A finished write has sent exactly its first offset bytes; if it was blocking and succeeded, all of them. */
    ghost predicate WriteDone()
      reads this`sent, this`written, this`writtenErr
    {
      written.Some? ==>
        && WriteOk(written.value) && written.value.offset <= written.value.len
        && sent == Flat(written.value.vectors)[..written.value.offset]
        && (writtenErr == Ok && !written.value.dontblock ==> sent == Flat(written.value.vectors))
    }

    ghost predicate Valid()
      reads this
    {
      // an operation is current exactly while its caller sleeps unsignalled
      && (current.Some? <==> app.Asleep? && sem == 0)
      && (current.Some? ==> pcb && !nbConnect && app.op == state == StateOf(current.value))
      && sem == (if app.Asleep? && current.None? then 1 else 0)
      && (current.None? ==> !state.Writing? && !state.Closing?)
      && (current.None? && state.Connecting? ==> pcb && app.Running?)
      && (current.None? && app.Asleep? ==> state.Idle?)
      // the flag is set exactly during a non-blocking connect, and for good after a deletion during one
      && (nbConnect <==> (state.Connecting? && current.None?) || deletedWhileConnecting)
      && (deletedWhileConnecting ==> state.Idle? && !pcb)
      && (state.Listening? ==> pcb)
      && WriteUnderWay() && WriteDone()
      && waits == signals + (if current.Some? then 1 else 0)
    }

    constructor (nonblocking: bool)
      ensures Valid() && state.Idle? && pcb && waits == 0 && signals == 0 && app.Running?
      ensures this.nonblocking == nonblocking && !deletedWhileConnecting
    {
      this.nonblocking := nonblocking;
      state, pcb, current, nbConnect := Idle, true, None, false;
      pendingErr, err, sem, app := Ok, Ok, 0, Running;
      sent, written, writtenErr, waits, signals := [], None, Ok, 0, 0;
      deletedWhileConnecting := false;
    }

    /** The completion common to all operations: hand the message back, and wake the caller if it waits. */
    method Complete(e: Err, delayed: bool)
      requires current.Some?
      modifies this`err, this`current, this`state, this`sem, this`signals, this`written, this`writtenErr
      ensures err == e && current.None? && state.Idle?
      ensures sem == old(sem) + (if delayed then 1 else 0)
      ensures signals == old(signals) + (if delayed then 1 else 0)
      ensures old(current.value).WriteMsg? ==> written == Some(old(current.value).w) && writtenErr == e
      ensures !old(current.value).WriteMsg? ==> written == old(written) && writtenErr == old(writtenErr)
    {
      err := e;
      if current.value.WriteMsg? { written, writtenErr := Some(current.value.w), e; }
      current := None;
      state := Idle;
      if delayed {
        sem := sem + 1;
        signals := signals + 1;
      }
    }

    // ---------- lwip_netconn_do_writemore ----------

    /** The do-while loop; it ends after the given answers of TCP. */
    method PushVectors(answers: seq<Answer>) returns (e: Err)
      requires current.Some? && current.value.WriteMsg?
      requires WriteOk(current.value.w) && 0 < current.value.w.cnt && Loop(current.value.w, answers).Left?
      modifies this`current, this`sent
      ensures var l := old(Loop(current.value.w, answers));
              current == Some(WriteMsg(l.m)) && sent == old(sent) + l.bytes && e == l.err
    {
      ghost var l := Loop(current.value.w, answers);
      assert answers[0..] == answers;
      assert Rest(l, current.value.w, answers[0..], sent, old(sent));
      hide WriteOk, Rest, Loop, DoRound;
      var i, more := 0, true;
      e := Ok;
      while more
        invariant 0 <= i <= |answers|
        invariant current.Some? && current.value.WriteMsg?
        invariant more ==> WriteOk(current.value.w) && 0 < current.value.w.cnt
        invariant more ==> Rest(l, current.value.w, answers[i..], sent, old(sent))
        invariant !more ==> current.value.w == l.m && e == l.err && sent == old(sent) + l.bytes
        decreases |answers| - i, more
      {
        RestStep(l, current.value.w, answers[i..], sent, old(sent));
        assert answers[i..][1..] == answers[i + 1..];
        var r := DoRound(current.value.w, answers[i]);
        current := Some(WriteMsg(r.m));
        sent := sent + r.bytes;
        e, more := r.err, r.again;
        i := i + 1;
      }
    }

    /** lwip_netconn_do_writemore: Mem means the caller has to wait. */
    method WriteMore(delayed: bool, answers: seq<Answer>, out: Err) returns (r: Err)
      requires current.Some? && current.value.WriteMsg?
      requires WriteOk(current.value.w) && 0 < current.value.w.cnt && current.value.w.offset <= current.value.w.len
      requires sent == Flat(current.value.w.vectors)[..current.value.w.offset]
      requires Loop(current.value.w, answers).Left? && written.None?
      modifies this`err, this`current, this`state, this`sem, this`signals, this`written, this`writtenErr, this`sent
      ensures r == Ok || r == Mem
      ensures r == Mem <==> old(Waits(Loop(current.value.w, answers), out))
      ensures r == Ok ==> Ends(old(Loop(current.value.w, answers)), out, err)
      ensures r == Ok ==> current.None? && state.Idle? && WriteDone() && written.Some? && err == writtenErr
      ensures r == Ok ==> written.value.vectors == old(current.value.w.vectors)
      ensures r == Ok ==> written.value.dontblock == old(current.value.w.dontblock)
      ensures r == Ok ==>
                sem == old(sem) + (if delayed then 1 else 0) && signals == old(signals) + (if delayed then 1 else 0)
      ensures r == Mem ==> current.Some? && current.value.WriteMsg? && Unfinished(current.value.w, sent)
      ensures r == Mem ==> current.value.w.vectors == old(current.value.w.vectors)
      ensures r == Mem ==> state == old(state) && sem == old(sem) && signals == old(signals) && written.None?
    {
      ghost var m := current.value.w;
      LoopSends(m, answers);
      var e := PushVectors(answers);
      ghost var l := Loop(m, answers);
      SliceFromStart(Flat(m.vectors), m.offset, l.m.offset);
      var w := current.value.w;
      var (finished, result) := Finish(w, e, out);
      LeftOver(w, e, out);
      FinishExact(l, out);
      hide Flat, WriteOk, Loop, Waits, Ends;
      if finished {
        Complete(result, delayed);
        r := Ok;
      } else {
        r := Mem;
      }
    }

    // ---------- lwip_netconn_do_close_internal ----------

    /** The close answered by TCP with a: finished as CloseFinish says, or left as it was. */
    method CloseInternal(delayed: bool, a: CloseAnswer) returns (r: Err)
      requires current.Some? && current.value.CloseMsg?
      modifies this`err, this`current, this`state, this`sem, this`signals, this`written, this`writtenErr, this`pcb
      ensures r == (if old(CloseEnd(a)).0 then Ok else Mem)
      ensures r == Ok ==> err == old(CloseEnd(a)).1 && current.None? && state.Idle?
      ensures r == Ok ==>
                sem == old(sem) + (if delayed then 1 else 0) && signals == old(signals) + (if delayed then 1 else 0)
      ensures r == Ok ==> pcb == (old(pcb) && !(err == Ok && old(ClosesBoth(current.value.shut, a))))
      ensures r == Mem ==> current == old(current) && state == old(state) && err == old(err) && pcb == old(pcb)
      ensures r == Mem ==> sem == old(sem) && signals == old(signals)
      ensures written == old(written) && writtenErr == old(writtenErr)
    {
      var both := ClosesBoth(current.value.shut, a);
      var finished, e := false, a.result;
      if e == Mem {
        if current.value.pollsLeft == 0 {
          finished := true;
          if both { e := Ok; }
        }
      } else {
        finished := true;
      }
      if !finished { return Mem; }
      if e == Ok && both { pcb := false; }
      Complete(e, delayed);
      return Ok;
    }

    function CloseEnd(a: CloseAnswer): (bool, Err)
      requires current.Some? && current.value.CloseMsg?
      reads this`current
    {
      CloseFinish(current.value.shut, current.value.pollsLeft, a)
    }

    // ---------- entry points, called by an application thread ----------

    /** The caller of the current operation goes to sleep in sys_arch_sem_wait. */
    method Sleep()
      modifies this`app, this`waits
      ensures app == Asleep(state) && waits == old(waits) + 1
    {
      app := Asleep(state);
      waits := waits + 1;
    }

    /** lwip_netconn_do_write.  A call made while another operation is current is refused and changes nothing of it. */
    method DoWrite(vectors: seq<seq<Byte>>, dontblock: bool, answers: seq<Answer>, out: Err)
      requires Valid() && (app.Running? || current.Some?) && Flat(vectors) != []
      requires Loop(Started(vectors, dontblock || nonblocking), answers).Left?
      modifies this
      ensures Valid() && signals == old(signals) && nonblocking == old(nonblocking)
      ensures deletedWhileConnecting == old(deletedWhileConnecting)
      ensures var starts := old(pendingErr == Ok && state.Idle? && pcb);
              var l := Loop(Started(vectors, dontblock || nonblocking), answers);
              && (starts ==> (app.Asleep? <==> Waits(l, out)) && (app.Running? ==> Ends(l, out, err)))
              && (starts && app.Asleep? ==>
                    current.Some? && current.value.WriteMsg? && current.value.w.vectors == vectors)
              && (starts && app.Running? ==> written.Some? && written.value.vectors == vectors && err == writtenErr)
              && (starts && app.Running? ==> written.value.dontblock == (dontblock || nonblocking))
              && (!starts ==>
                    app == old(app) && err != Ok && state == old(state) && current == old(current) && sent == old(sent))
              && (!starts ==>
                    err == if old(pendingErr) != Ok then old(pendingErr)
                           else if !old(state).Idle? then InProgress else ConnErr)
    {
      if pendingErr != Ok {
        err, pendingErr := pendingErr, Ok;
      } else if state != Idle {
        err := InProgress;
      } else if !pcb {
        err := ConnErr;
      } else {
        StartWrite(vectors, dontblock || nonblocking, answers, out);
      }
    }

    /** The branch of lwip_netconn_do_write that starts writing; the caller waits exactly if the write is not
        finished. */
    method StartWrite(vectors: seq<seq<Byte>>, dontblock: bool, answers: seq<Answer>, out: Err)
      requires Valid() && app.Running? && state.Idle? && pcb && Flat(vectors) != []
      requires Loop(Started(vectors, dontblock), answers).Left?
      modifies this`err, this`current, this`state, this`sem, this`signals, this`written, this`writtenErr, this`sent,
        this`app, this`waits
      ensures Valid() && signals == old(signals)
      ensures app.Asleep? <==> Waits(Loop(Started(vectors, dontblock), answers), out)
      ensures app.Running? ==> Ends(Loop(Started(vectors, dontblock), answers), out, err)
      ensures app.Asleep? ==> current.Some? && current.value.WriteMsg? && current.value.w.vectors == vectors
      ensures app.Running? ==> written.Some? && written.value.vectors == vectors && err == writtenErr
      ensures app.Running? ==> written.value.dontblock == dontblock
    {
      hide WriteOk, Flat, Loop, Unfinished, Waits, Ends;
      assert Flat(vectors)[..0] == [];
      state := Writing;
      current := Some(WriteMsg(Started(vectors, dontblock)));
      sent, written := [], None;
      var r := WriteMore(false, answers, out);
      if r != Ok { Sleep(); }
    }

    /** lwip_netconn_do_connect; result is that of tcp_connect. */
    method DoConnect(result: Err)
      requires Valid() && (app.Running? || current.Some?)
      modifies this`err, this`current, this`state, this`nbConnect, this`app, this`waits
      ensures Valid()
      ensures var starts := old(pcb && state.Idle?) && result == Ok;
              && (starts && nonblocking ==> nbConnect && state.Connecting? && app.Running? && err == InProgress)
              && (starts && !nonblocking ==> app.Asleep? && current == Some(ConnectMsg))
              && (!starts ==> app == old(app) && err != Ok && state == old(state) && current == old(current))
              && (!starts ==> err == if !pcb then Clsd else if old(state).Connecting? then Already
                                     else if !old(state).Idle? then IsConn else result)
    {
      hide WriteOk, Flat, Unfinished;
      if !pcb {
        err := Clsd;
      } else if state == Connecting {
        err := Already;
      } else if state != Idle {
        err := IsConn;
      } else if result != Ok {
        err := result;
      } else {
        state := Connecting;
        nbConnect := nonblocking;
        if nonblocking {
          err := InProgress;
        } else {
          current := Some(ConnectMsg);
          Sleep();
        }
      }
    }

    /** The common tail of lwip_netconn_do_close and lwip_netconn_do_delconn. */
    method StartClose(shut: Shut, polls: nat, a: CloseAnswer)
      requires Valid() && app.Running? && pcb && (nbConnect ==> shut == RdWr && a.result == Ok)
      modifies this`err, this`current, this`state, this`sem, this`signals, this`written, this`writtenErr, this`pcb,
        this`app, this`waits, this`deletedWhileConnecting
      ensures Valid() && signals == old(signals) && deletedWhileConnecting == old(nbConnect)
      ensures state == if app.Asleep? then Closing else Idle
      ensures app.Asleep? <==> !CloseFinish(shut, polls, a).0
      ensures app.Asleep? ==> current == Some(CloseMsg(shut, polls))
      ensures app.Running? ==> err == CloseFinish(shut, polls, a).1
      ensures pcb <==> !(app.Running? && err == Ok && ClosesBoth(shut, a))
    {
      hide WriteOk, Flat, Unfinished;
      state := Closing;
      current := Some(CloseMsg(shut, polls));
      deletedWhileConnecting := nbConnect;
      var r := CloseInternal(false, a);
      if r != Ok { Sleep(); }
    }

    /** lwip_netconn_do_close: close, or shut down one direction.  A second close during a close is a caller's error. */
    method DoClose(shut: Shut, polls: nat, a: CloseAnswer)
      requires Valid() && (app.Running? || state.Writing? || state.Connecting?)
      modifies this
      ensures Valid() && signals == old(signals)
      ensures deletedWhileConnecting == old(deletedWhileConnecting) && nbConnect == old(nbConnect)
      ensures var starts := old(pcb && (state.Idle? || (state.Listening? && shut == RdWr)));
              && (starts ==> (app.Asleep? <==> !CloseFinish(shut, polls, a).0))
              && (starts && app.Asleep? ==> current == Some(CloseMsg(shut, polls)))
              && (starts && app.Running? ==> err == CloseFinish(shut, polls, a).1)
              && (!starts ==> app == old(app) && err != Ok && state == old(state) && current == old(current))
              && (!starts ==> err == if pcb && old(state).Writing? then InProgress else ConnErr)
    {
      if pcb && (shut == RdWr || state != Listening) {
        if state == Connecting {
          err := ConnErr;
        } else if state == Writing {
          err := InProgress;
        } else {
          StartClose(shut, polls, a);
        }
      } else {
        err := ConnErr;
      }
    }

    /** lwip_netconn_do_delconn.  A pcb whose non-blocking connect is pending closes at once. */
    method DoDelconn(polls: nat, a: CloseAnswer)
      requires Valid() && (app.Running? || current.Some?) && (nbConnect && pcb ==> a.result == Ok)
      modifies this
      ensures Valid() && signals == old(signals) && nbConnect == old(nbConnect)
      ensures deletedWhileConnecting == (old(deletedWhileConnecting) || old(nbConnect && pcb))
      ensures old(current).Some? ==>
                err == InProgress && app == old(app) && current == old(current) && state == old(state) && pcb
      ensures old(current).None? && !old(pcb) ==> err == Ok && app.Running? && state == old(state) && !pcb
      ensures old(current).None? && old(pcb) ==> (app.Asleep? <==> a.result == Mem && polls > 0)
      ensures old(current).None? && old(pcb) && app.Running? ==>
                state.Idle? && err == CloseFinish(RdWr, polls, a).1 && (pcb <==> err != Ok)
      ensures old(current).None? && app.Asleep? ==> current == Some(CloseMsg(RdWr, polls)) && state.Closing? && pcb
    {
      if (state != Idle && state != Listening && state != Connecting) || (state == Connecting && !nbConnect) {
        err := InProgress;
      } else {
        err := Ok;
        if pcb { StartClose(RdWr, polls, a); }
      }
    }

    /** lwip_netconn_do_listen: it starts only from the idle state, with a closed pcb, and never waits. */
    method DoListen(a: ListenAnswer)
      requires Valid() && (app.Running? || current.Some?)
      modifies this`state, this`err, this`pcb
      ensures Valid()
      ensures var starts := old(pcb && state.Idle?) && a.closed && a.listen == Ok;
              && (starts && a.mbox == Ok ==> state.Listening? && pcb && err == Ok)
              && (starts && a.mbox != Ok ==> state.Idle? && !pcb && err == a.mbox)
              && (!starts ==> state == old(state) && pcb == old(pcb))
              && (!starts ==> (err == Ok <==> old(pcb && state.Listening?)))
              && (!starts && err != Ok ==>
                    err == if !(pcb && old(state).Idle?) then ConnErr else if !a.closed then Val else a.listen)
    {
      if pcb {
        if state == Idle {
          if !a.closed {
            err := Val;
          } else if a.listen != Ok {
            err := a.listen;
          } else {
            err := a.mbox;
            if err == Ok { state := Listening; } else { pcb := false; }
          }
        } else if state == Listening {
          err := Ok;
        } else {
          err := ConnErr;
        }
      } else {
        err := ConnErr;
      }
    }

    /** sys_arch_sem_wait returns; the asserts on the state that follow each wait hold. */
    method Resume()
      requires Valid() && app.Asleep? && sem > 0
      modifies this`sem, this`app
      ensures Valid() && app.Running? && state.Idle? && sem == 0
    {
      sem := sem - 1;
      app := Running;
    }

    // ---------- callbacks, called by TCP ----------

    /** A write that was under way is still that of its caller, or it is finished as such. */
    twostate predicate SameWrite()
      reads this
    {
      old(current).Some? && old(current).value.WriteMsg? ==>
        && (current.Some? ==>
              current.value.WriteMsg? && current.value.w.vectors == old(current).value.w.vectors)
        && (current.None? ==>
              && written.Some? && written.value.vectors == old(current).value.w.vectors
              && !written.value.dontblock && err == writtenErr)
    }

    /** The result handed over by the last operation is still there. */
    twostate predicate SameResult()
      reads this
    {
      err == old(err) && sent == old(sent) && written == old(written) && writtenErr == old(writtenErr)
    }

    /** The callbacks' branch for a connection that is writing. */
    method ContinueWrite(answers: seq<Answer>, out: Err)
      requires Valid() && state.Writing? && Loop(current.value.w, answers).Left?
      modifies this`err, this`current, this`state, this`sem, this`signals, this`written, this`writtenErr, this`sent
      ensures Valid()
      ensures signals == old(signals) + (if current.None? then 1 else 0)
      ensures SameWrite()
      ensures current.Some? <==> old(Waits(Loop(current.value.w, answers), out))
      ensures current.None? ==> err == Ok || Excuse(answers, out, err)
    {
      assert Unfinished(current.value.w, sent);
      EndsExcused(current.value.w, answers, out);
      hide WriteOk, Flat, Loop, Waits, Ends, Excuse;
      var r := WriteMore(true, answers, out);
    }

    /** The callbacks' branch for a connection that is closing. */
    method ContinueClose(a: CloseAnswer)
      requires Valid() && state.Closing?
      modifies this`err, this`current, this`state, this`sem, this`signals, this`written, this`writtenErr, this`pcb
      ensures Valid()
      ensures old(CloseEnd(a)).0 ==> current.None? && err == old(CloseEnd(a)).1 && signals == old(signals) + 1
      ensures !old(CloseEnd(a)).0 ==> current == old(current) && signals == old(signals)
    {
      hide WriteOk, Flat, Unfinished;
      var r := CloseInternal(true, a);
    }

    /** sent_tcp */
    method SentTcp(answers: seq<Answer>, out: Err, a: CloseAnswer)
      requires Valid()
      requires state.Writing? ==> Loop(current.value.w, answers).Left?
      modifies this
      ensures Valid() && app == old(app) && nonblocking == old(nonblocking)
      ensures deletedWhileConnecting == old(deletedWhileConnecting)
      ensures signals == old(signals) + (if old(current).Some? && current.None? then 1 else 0)
      ensures SameWrite() && (old(current).None? ==> SameResult())
      ensures old(state).Writing? ==> (current.Some? <==> old(Waits(Loop(current.value.w, answers), out)))
      ensures old(state).Writing? && current.None? ==> err == Ok || Excuse(answers, out, err)
      ensures old(current).None? ==> current.None? && state == old(state)
      ensures current.Some? && current.value.CloseMsg? ==> current == old(current)
      ensures old(state).Closing? ==> (current.Some? <==> a.result == Mem && old(current.value).pollsLeft > 0)
      ensures old(state).Closing? && current.None? && a.result != Mem ==> err == a.result
    {
      if state == Writing {
        ContinueWrite(answers, out);
      } else if state == Closing {
        ContinueClose(a);
      }
    }

    /** poll_tcp: every poll of a waiting close uses up one of its polls. */
    method PollTcp(answers: seq<Answer>, out: Err, a: CloseAnswer)
      requires Valid()
      requires state.Writing? ==> Loop(current.value.w, answers).Left?
      modifies this
      ensures Valid() && app == old(app) && nonblocking == old(nonblocking)
      ensures deletedWhileConnecting == old(deletedWhileConnecting)
      ensures signals == old(signals) + (if old(current).Some? && current.None? then 1 else 0)
      ensures SameWrite() && (old(current).None? ==> SameResult())
      ensures old(state).Writing? ==> (current.Some? <==> old(Waits(Loop(current.value.w, answers), out)))
      ensures old(state).Writing? && current.None? ==> err == Ok || Excuse(answers, out, err)
      ensures old(current).None? ==> current.None? && state == old(state)
      ensures current.Some? && current.value.CloseMsg? ==>
                old(state).Closing? && 0 < current.value.pollsLeft == old(current.value).pollsLeft - 1
      ensures old(state).Closing? ==> (current.Some? <==> a.result == Mem && old(current.value).pollsLeft > 1)
      ensures old(state).Closing? && current.None? && a.result != Mem ==> err == a.result
    {
      if state == Writing {
        ContinueWrite(answers, out);
      } else if state == Closing {
        if current.value.pollsLeft > 0 {
          current := Some(current.value.(pollsLeft := current.value.pollsLeft - 1));
        }
        ContinueClose(a);
      }
    }

    /** err_tcp: the pcb is gone; a waiting caller is released, a close counts as done. */
    method ErrTcp(e: Err)
      requires Valid() && pcb && e != Ok
      modifies this`pcb, this`pendingErr, this`state, this`nbConnect, this`err, this`current, this`sem, this`signals,
        this`written, this`writtenErr
      ensures Valid()
      ensures !pcb && state.Idle? && current.None? && !nbConnect && pendingErr == e
      ensures signals == old(signals) + (if old(current).Some? then 1 else 0)
      ensures old(current).Some? ==> err == if old(state).Closing? then Ok else e
      ensures SameWrite() && (old(current).None? ==> SameResult())
    {
      hide WriteOk, Flat;
      pcb := false;
      pendingErr := e;
      var oldState := state;
      state := Idle;
      if oldState == Writing || oldState == Closing || oldState == Connecting {
        var was := nbConnect;
        nbConnect := false;
        if !was { Complete(if oldState == Closing then Ok else e, true); }
      }
    }

    /** lwip_netconn_do_connected */
    method Connected(e: Err)
      requires Valid() && state.Connecting?
      modifies this`state, this`nbConnect, this`err, this`current, this`sem, this`signals, this`written, this`writtenErr
      ensures Valid()
      ensures state.Idle? && current.None? && !nbConnect
      ensures signals == old(signals) + (if old(nbConnect) then 0 else 1)
      ensures !old(nbConnect) ==> err == e
      ensures old(current).None? ==> SameResult()
    {
      hide WriteOk, Flat, Unfinished;
      var wasBlocking := !nbConnect;
      nbConnect := false;
      if wasBlocking { Complete(e, true); } else { state := Idle; }
    }

    // ---------- runs ----------

    /** One call or callback; one that cannot happen in the present state is skipped. */
    method Handle(ev: Event)
      requires Valid()
      modifies this
      ensures Valid()
      ensures signals - old(signals) == (if old(current).Some? && current.None? then 1 else 0)
      ensures ev.Call? ==> signals == old(signals)
      ensures !ev.Call? ==> waits == old(waits) && (old(current).None? ==> SameResult())
      ensures SameWrite() && (old(app).Asleep? && old(current).None? ==> current.None? && SameResult())
      ensures old(app).Asleep? && app.Running? ==> ev.Wake? && old(current).None?
      ensures old(current).Some? && old(current).value.WriteMsg? && current.None? ==> err == Ok || Explains(ev, err)
      // calls and callbacks take effect
      ensures ev.Call? && old(app.Running?) ==> Took(ev.op)
      ensures ev.Wake? && old(app.Asleep? && sem > 0) ==> app.Running?
      ensures ev.Error? && ev.e != Ok && old(pcb) ==> !pcb && current.None? && pendingErr == ev.e
      ensures ev.Establish? && old(state).Connecting? ==> current.None? && (old(current).Some? ==> err == ev.e)
      ensures (ev.Sent? || ev.Poll?) && old(state).Writing? && old(Loop(current.value.w, ev.answers)).Left? ==>
                (current.Some? <==> old(Waits(Loop(current.value.w, ev.answers), ev.out)))
      ensures (ev.Sent? || ev.Poll?) && old(state).Closing? ==>
                (current.Some? <==> ev.a.result == Mem && old(current.value).pollsLeft > if ev.Poll? then 1 else 0)
      ensures ev.Poll? && old(current).Some? && old(current).value.CloseMsg? && current.Some? ==>
                current.value.CloseMsg? && current.value.pollsLeft < old(current.value).pollsLeft
      // only a deletion during a non-blocking connect leaves the flag set without a connect
      ensures nbConnect <==> (state.Connecting? && current.None?) || deletedWhileConnecting
      ensures deletedWhileConnecting ==
                (old(deletedWhileConnecting) || (ev.Call? && Deletes(ev.op) && old(nbConnect && pcb)))
    {
      if ev.Call? {
        if app.Running? || current.Some? { Enter(ev.op); }
      } else {
        match ev
        case Wake => if app.Asleep? && sem > 0 { Resume(); }
        case Error(e) => if pcb && e != Ok { ErrTcp(e); }
        case Establish(e) => if state == Connecting { Connected(e); }
        case Sent(answers, out, a) =>
          if state == Writing && !Loop(current.value.w, answers).Left? { return; }
          SentTcp(answers, out, a);
        case Poll(answers, out, a) =>
          if state == Writing && !Loop(current.value.w, answers).Left? { return; }
          PollTcp(answers, out, a);
      }
    }

    /** The call was made: it started what it asks for, if it could. */
    twostate predicate Took(op: Operation)
      requires old(Valid())
      reads this
    {
      var idle := old(pcb && state.Idle?);
      match op
      case CallWrite(vectors, dontblock, answers, out) =>
        idle && old(pendingErr) == Ok && Flat(vectors) != [] ==>
          var l := Loop(Started(vectors, dontblock || old(nonblocking)), answers);
          l.Left? ==> (app.Asleep? <==> Waits(l, out)) && (app.Running? ==> Ends(l, out, err))
      case CallConnect(result) =>
        && (idle && result == Ok ==> state.Connecting?)
        && (idle && result != Ok ==> err == result)
      case CallClose(shut, polls, a) =>
        && (idle ==> (app.Asleep? <==> a.result == Mem && polls > 0))
        && (idle && a.result != Mem ==> err == a.result)
      case CallDelete(polls, a) =>
        idle ==> (app.Asleep? <==> a.result == Mem && polls > 0) && (a.result == Ok ==> !pcb)
      case CallListen(a) =>
        idle && a.closed && a.listen == Ok && a.mbox == Ok ==> state.Listening?
    }

    method Enter(op: Operation)
      requires Valid() && (app.Running? || current.Some?)
      modifies this
      ensures Valid() && signals == old(signals)
      ensures old(app.Running?) ==> Took(op)
      ensures old(current).Some? ==> current == old(current) && app == old(app)
      ensures deletedWhileConnecting == (old(deletedWhileConnecting) || (Deletes(op) && old(nbConnect && pcb)))
    {
      match op
      case CallWrite(vectors, dontblock, answers, out) =>
        if Flat(vectors) != [] && Loop(Started(vectors, dontblock || nonblocking), answers).Left? {
          DoWrite(vectors, dontblock, answers, out);
        }
      case CallConnect(result) => DoConnect(result);
      case CallClose(shut, polls, a) => if app.Running? || state != Closing { DoClose(shut, polls, a); }
      case CallDelete(polls, a) => if nbConnect && pcb && a.result != Ok { return; } DoDelconn(polls, a);
      case CallListen(a) => DoListen(a);
    }

    /**
     A blocking write as its caller sees it, from the call until it runs again, whatever callbacks and calls of
     other threads come in between: what was sent is the beginning of the vectors, all of them if the result is
     ERR_OK.
     */
    method WriteAndWait(vectors: seq<seq<Byte>>, answers: seq<Answer>, out: Err, script: seq<Event>)
      requires Valid() && app.Running? && state.Idle? && pcb && pendingErr == Ok && !nonblocking
      requires Flat(vectors) != [] && Loop(Started(vectors, false), answers).Left?
      modifies this
      ensures Valid() && sent <= Flat(vectors)
      ensures app.Running? && err == Ok ==> sent == Flat(vectors)
      ensures app.Running? && err != Ok ==>
                Excuse(answers, out, err) || exists i :: 0 <= i < |script| && Explains(script[i], err)
      // an error of the connection ends it, and the caller runs again when it is woken
      ensures (exists i, j :: 0 <= i < j < |script| && Breaks(script[i]) && script[j].Wake?) ==> app.Running?
    {
      EndsExcused(Started(vectors, false), answers, out);
      hide Flat, Loop, WriteOk, Waits, Ends, Excuse;
      DoWrite(vectors, false, answers, out);
      var i := 0;
      while app.Asleep? && i < |script|
        invariant 0 <= i <= |script| && Valid() && WriteOf(vectors)
        invariant current.None? && err != Ok ==>
                    Excuse(answers, out, err) || exists j :: 0 <= j < i && Explains(script[j], err)
        invariant app.Asleep? && current.Some? ==> forall j :: 0 <= j < i ==> !Breaks(script[j])
        invariant app.Asleep? ==> forall j, k :: 0 <= j < k < i && Breaks(script[j]) ==> !script[k].Wake?
      {
        Handle(script[i]);
        i := i + 1;
      }
      WriteOfSends(vectors);
    }

    /** The write under way or just finished is a blocking one of these vectors. */
    ghost predicate WriteOf(vectors: seq<seq<Byte>>)
      reads this
    {
      && (current.Some? ==> current.value.WriteMsg? && current.value.w.vectors == vectors)
      && (current.None? ==>
            written.Some? && written.value.vectors == vectors && !written.value.dontblock && err == writtenErr)
    }

    lemma WriteOfSends(vectors: seq<seq<Byte>>)
      requires Valid() && WriteOf(vectors)
      ensures sent <= Flat(vectors) && (current.None? && err == Ok ==> sent == Flat(vectors))
    {
    }

    /**
     Polling a close that has k polls left ends it, with one signal, after at most k polls (one, if k is
     0), whatever tcp_close answers and however many sent callbacks come in between.
     */
    method PollToClose(ticks: seq<Tick>)
      requires Valid() && state.Closing? && 1 <= Polls(ticks) && current.value.pollsLeft <= Polls(ticks)
      modifies this
      ensures Valid() && current.None? && signals == old(signals) + 1 && app == old(app)
    {
      assert ticks[0..] == ticks;
      var i := 0;
      while current.Some?
        invariant 0 <= i <= |ticks| && Valid() && app == old(app)
        invariant current.Some? ==> state.Closing? && signals == old(signals)
        invariant current.Some? ==> 1 <= Polls(ticks[i..]) && current.value.pollsLeft <= Polls(ticks[i..])
        invariant current.None? ==> signals == old(signals) + 1
        decreases |ticks| - i
      {
        assert i < |ticks| && ticks[i..][1..] == ticks[i + 1..];
        if ticks[i].poll { PollTcp([], Ok, ticks[i].answer); } else { SentTcp([], Ok, ticks[i].answer); }
        i := i + 1;
      }
    }
  }

  datatype Operation =
    | CallWrite(vectors: seq<seq<Byte>>, dontblock: bool, answers: seq<Answer>, out: Err)
    | CallConnect(result: Err)
    | CallClose(shut: Shut, polls: nat, a: CloseAnswer)
    | CallDelete(polls: nat, a: CloseAnswer)
    | CallListen(answer: ListenAnswer)

  /** A write may end with error e because tcp_output found no route, or tcp_write failed for good. */
  predicate Excuse(answers: seq<Answer>, out: Err, e: Err) {
    (e == Rte && out == Rte) || (e != Ok && e != Mem && exists i :: 0 <= i < |answers| && answers[i].result == e)
  }

  lemma EndsExcused(m: Write, answers: seq<Answer>, out: Err)
    requires WriteOk(m) && 0 < m.cnt && !m.dontblock
    ensures forall e :: Ends(Loop(m, answers), out, e) ==> e == Ok || Excuse(answers, out, e)
  {
    hide WriteOk, Flat, Loop;
    LoopSends(m, answers);
    LoopErrs(m, answers);
  }

  /** The event may end a write with error e. */
  predicate Explains(ev: Event, e: Err) {
    match ev
    case Sent(answers, out, _) => Excuse(answers, out, e)
    case Poll(answers, out, _) => Excuse(answers, out, e)
    case Error(x) => e == x
    case _ => false
  }

  predicate Breaks(ev: Event) {
    ev.Error? && ev.e != Ok
  }

  /** A deletion that is carried out: a pcb whose non-blocking connect is pending closes at once. */
  predicate Deletes(op: Operation) {
    op.CallDelete? && op.a.result == Ok
  }

  datatype Event =
    | Call(op: Operation)
    | Wake
    | Sent(answers: seq<Answer>, out: Err, a: CloseAnswer)
    | Poll(answers: seq<Answer>, out: Err, a: CloseAnswer)
    | Error(e: Err)
    | Establish(e: Err)

  /** A callback during a close: a poll, or a sent callback. */
  datatype Tick = Tick(poll: bool, answer: CloseAnswer)

  function Polls(ticks: seq<Tick>): nat {
    if ticks == [] then 0 else (if ticks[0].poll then 1 else 0) + Polls(ticks[1..])
  }

  /**
   Every run of a netconn: each operation that made its caller wait has been signalled exactly once, or
   is the current one and has not been signalled; nothing else is ever signalled.
   */
  method Run(nonblocking: bool, script: seq<Event>) returns (c: Conn)
    ensures fresh(c) && c.Valid()
    ensures c.waits == c.signals + (if c.current.Some? then 1 else 0)
    ensures c.sem <= 1 && (c.sem == 1 ==> c.app.Asleep? && c.state.Idle?)
  {
    c := new Conn(nonblocking);
    for i := 0 to |script|
      invariant fresh(c) && c.Valid()
    {
      c.Handle(script[i]);
    }
  }

  /** What remains of the loop gives the same end. */
  ghost predicate Rest(l: Progress, w: Write, answers: seq<Answer>, sent: seq<Byte>, sent0: seq<Byte>)
    requires WriteOk(w) && 0 < w.cnt && l.Left?
  {
    var l' := Loop(w, answers);
    l'.Left? && l'.m == l.m && l'.err == l.err && sent + l'.bytes == sent0 + l.bytes
  }

  lemma RestStep(l: Progress, w: Write, answers: seq<Answer>, sent: seq<Byte>, sent0: seq<Byte>)
    requires WriteOk(w) && 0 < w.cnt && l.Left? && Rest(l, w, answers, sent, sent0)
    ensures answers != [] && w.off <= |w.vectors[w.Index()]| && w.cnt <= |w.vectors|
    ensures var r := DoRound(w, answers[0]);
            && (r.again ==> WriteOk(r.m) && 0 < r.m.cnt && Rest(l, r.m, answers[1..], sent + r.bytes, sent0))
            && (!r.again ==> r.m == l.m && r.err == l.err && sent + r.bytes == sent0 + l.bytes)
            && (r.again ==> r.err == Ok)
  {
    assert answers != [] && w.off <= |w.vectors[w.Index()]|;
    RoundSends(w, answers[0]);
    hide WriteOk, DoRound;
    var r := DoRound(w, answers[0]);
    if r.again {
      var l' := Loop(r.m, answers[1..]);
      assert sent + (r.bytes + l'.bytes) == sent + r.bytes + l'.bytes;
    }
  }

  lemma SliceFromStart(x: seq<Byte>, a: nat, b: nat)
    requires a <= b <= |x|
    ensures x[..a] + x[a..b] == x[..b]
  {
  }

  lemma LeftOver(w: Write, e: Err, out: Err)
    requires WriteOk(w) && w.offset <= w.len && (e != Ok ==> 0 < w.cnt)
    ensures var (finished, result) := Finish(w, e, out);
            && (!finished ==> !w.dontblock && 0 < w.cnt)
            && (finished && result == Ok && !w.dontblock ==> w.offset == |Flat(w.vectors)|)
  {
  }

  /** The flag outlives the connect: deleting a netconn during its non-blocking connect. */
  method DeleteWhileConnecting(polls: nat, finWait: bool, rxClosed: bool) returns (c: Conn)
    ensures c.Valid() && c.nbConnect && c.state.Idle? && !c.pcb && c.err == Ok && c.deletedWhileConnecting
  {
    c := new Conn(true);
    c.DoConnect(Ok);
    c.DoDelconn(polls, CloseAnswer(Ok, finWait, rxClosed));
  }
}
