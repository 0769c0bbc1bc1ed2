/**
 The receive side of a TCP socket: recv_tcp and err_tcp (lwip/api/api_msg.c) fill the mailbox,
 netconn_recv_data_tcp (lwip/api/api_lib.c) empties it, and lwip_recv_tcp (lwip/api/sockets.c)
 copies to the caller and keeps the rest of a buffer in lastdata.

 A pbuf chain is its bytes.  What TCP delivers while a call is in its loop is a parameter of the
 call.  Receive timeouts and the full-duplex variant are not modelled.
 */
module RecvStream {
  import opened Basics

  /** A mailbox message: a buffer, or one of the constants for closed, reset and aborted. */
  datatype Item = Data(bytes: seq<Byte>) | Note(err: Err)

  /** What TCP may do at any moment; full means the mailbox has no room. */
  datatype Packet = Segment(bytes: seq<Byte>, full: bool) | Fin(full: bool) | Lost(err: Err, full: bool)

  /** Outcome of a fetch: a buffer, an error, or still waiting in sys_arch_mbox_fetch. */
  datatype Fetched = Buffer(bytes: seq<Byte>) | Nothing(err: Err) | Blocked

  /** Outcome of lwip_recv_tcp: data, end of stream (0), error (-1), or still waiting. */
  datatype Result = Got(data: seq<Byte>) | Eof | Failed(err: Err) | Waiting

  function Bytes(m: seq<Item>): seq<Byte> {
    if m == [] then [] else (if m[0].Data? then m[0].bytes else []) + Bytes(m[1..])
  }

  /** Is there a pcb, has TCP reported an end, and what has it delivered? */
  datatype Line = Line(pcb: bool, ended: bool, bytes: seq<Byte>)

  /** What becomes of it when TCP does one thing after the other; open tells whether there is a mailbox. */
  function Arrived(open: bool, l: Line, ps: seq<Packet>): Line {
    if ps == [] then l
    else
      var b := Arrived(open, l, ps[..|ps| - 1]);
      match ps[|ps| - 1]
      case Segment(p, full) =>
        if b.pcb && !b.ended && 0 < |p| <= 0xffff && !(open && full) then b.(bytes := b.bytes + p) else b
      case Fin(full) => if b.pcb && !(open && full) then b.(ended := true) else b
      case Lost(err, _) => if b.pcb && err in {Abrt, Rst, Clsd} then b.(pcb := false, ended := true) else b
  }

  /** No buffer is empty or longer than tot_len can say, and none follows the end of the stream. */
  ghost predicate MailboxOk(m: seq<Item>) {
    && (forall i :: 0 <= i < |m| && m[i].Data? ==> 0 < |m[i].bytes| <= 0xffff)
    && (forall i :: 0 <= i < |m| && m[i].Note? ==> m[i].err != Ok)
    && (forall i, j :: 0 <= i < j < |m| && m[i].Note? ==> m[j].Note?)
  }

  lemma {:induction false} BytesAppend(m: seq<Item>, x: Item)
    ensures Bytes(m + [x]) == if x.Data? then Bytes(m) + x.bytes else Bytes(m)
  {
    if m == [] {
      assert Bytes([x]) == (if x.Data? then x.bytes else []) + Bytes([]);
    } else {
      assert (m + [x])[1..] == m[1..] + [x];
      BytesAppend(m[1..], x);
    }
  }

  lemma {:induction false} OnlyNotes(m: seq<Item>)
    requires MailboxOk(m) && (m == [] || m[0].Note?)
    ensures Bytes(m) == []
  {
    if |m| > 1 {
      assert m[1].Note?;
      OnlyNotes(m[1..]);
    }
  }

  /** The first message that is not data. */
  function FirstNote(m: seq<Item>): Option<Err> {
    if m == [] then None else if m[0].Note? then Some(m[0].err) else FirstNote(m[1..])
  }

  lemma {:induction false} FirstNoteEnds(m: seq<Item>)
    ensures FirstNote(m).Some? ==> exists i :: 0 <= i < |m| && m[i].Note?
  {
    if m != [] && m[0].Data? {
      FirstNoteEnds(m[1..]);
      if FirstNote(m).Some? {
        var i :| 0 <= i < |m[1..]| && m[1..][i].Note?;
        assert m[i + 1].Note?;
      }
    }
  }

  lemma {:induction false} FirstNoteBehind(m: seq<Item>, e: Err)
    ensures (forall i :: 0 <= i < |m| ==> m[i].Data?) ==> FirstNote(m + [Note(e)]) == Some(e)
  {
    if m != [] {
      assert (m + [Note(e)])[1..] == m[1..] + [Note(e)];
      FirstNoteBehind(m[1..], e);
    }
  }

  function Total(updates: seq<nat>): nat {
    if updates == [] then 0 else updates[|updates| - 1] + Total(updates[..|updates| - 1])
  }

  lemma TotalAppend(updates: seq<nat>, x: nat)
    ensures Total(updates + [x]) == Total(updates) + x
  {
    assert (updates + [x])[..|updates|] == updates;
  }

  lemma MinIs(a: nat, b: nat)
    ensures Min(a, b) == if a < b then a else b
  {
  }

  /** The stream: returned, the current buffer, the queue, and what was dropped. */
  function Cat(a: seq<Byte>, b: seq<Byte>, c: seq<Byte>, d: seq<Byte>): seq<Byte> {
    a + b + c + d
  }

  lemma CatCopy(a: seq<Byte>, b: seq<Byte>, c: seq<Byte>, d: seq<Byte>, n: nat)
    requires n <= |b|
    ensures Cat(a + b[..n], b[n..], c, d) == Cat(a, b, c, d)
  {
  }

  lemma CatMove(a: seq<Byte>, b: seq<Byte>, c: seq<Byte>, d: seq<Byte>)
    ensures Cat(a, [], b + c, d) == Cat(a, b, c, d) && Cat(a, b, [], c + d) == Cat(a, b, c, d)
  {
  }

  lemma CatMore(a: seq<Byte>, b: seq<Byte>, c: seq<Byte>, d: seq<Byte>, p: seq<Byte>)
    ensures Cat(a, b, c, d + p) == Cat(a, b, c, d) + p && Cat(a, b, c + p, []) == Cat(a, b, c, []) + p
  {
  }

  lemma CatDone(a: seq<Byte>, d: seq<Byte>)
    ensures Cat(a, [], [], d) == a + d
  {
  }

  class Socket {
    const ssizeMax: nat
    const nonblocking: bool
    var lastdata: seq<Byte>      // [] for NULL
    var mbox: seq<Item>
    var open: bool               // recvmbox is valid
    var finPending: bool         // NETCONN_FIN_RX_PENDING
    var mboxClosed: bool         // NETCONN_FLAG_MBOXCLOSED
    var pendingErr: Err
    var pcb: bool
    var updates: seq<nat>        // arguments of tcp_recved
    var ended: bool              // TCP has reported a FIN or an error
    ghost var delivered: seq<Byte>  // everything recv_tcp took from TCP
    ghost var returned: seq<Byte>   // everything non-peeking calls copied to callers
    ghost var dropped: seq<Byte>    // what arrived or was queued when the receive side was shut
    ghost var discarded: nat        // bytes of it that recv_tcp itself acknowledged

    /** p is the buffer that comes next. */
    ghost predicate StreamWith(p: seq<Byte>)
      reads this`returned, this`mbox, this`dropped, this`delivered
    {
      Cat(returned, p, Bytes(mbox), dropped) == delivered
    }

    /** Conservation and order: nothing delivered is lost, repeated or reordered. */
    ghost predicate Stream()
      reads this`returned, this`lastdata, this`mbox, this`dropped, this`delivered
    {
      StreamWith(lastdata)
    }

    /** Everything delivered while the receive side was open has been returned. */
    ghost predicate Exhausted()
      reads this`returned, this`lastdata, this`mbox, this`dropped, this`delivered
    {
      lastdata == [] && Bytes(mbox) == [] && returned + dropped == delivered
    }

    /** The end of the stream is ahead of the reader, behind the data that is left. */
    ghost predicate EndAhead()
      reads this`mbox, this`open, this`finPending, this`pcb
    {
      open && pcb && (finPending || FirstNote(mbox) == Some(Clsd))
    }

    ghost predicate Queues()
      reads this`lastdata, this`mbox, this`open, this`finPending, this`mboxClosed, this`pendingErr, this`pcb,
        this`ended, this`dropped, this`discarded
    {
      && MailboxOk(mbox) && |lastdata| <= 0xffff
      && (open ==> dropped == [] && discarded == 0) && (!open ==> mbox == [] && !finPending)
      && (finPending ==> lastdata == [] && (mbox == [] || mbox[0].Note?))
      && (mboxClosed || pendingErr != Ok || !pcb || finPending ==> ended)
      && (forall i :: 0 <= i < |mbox| && mbox[i].Note? ==> ended)
    }

    /** recvd bytes are copied but not yet acknowledged. */
    ghost predicate Window(recvd: nat)
      reads this`pcb, this`updates, this`returned, this`discarded
    {
      pcb ==> Total(updates) + recvd == |returned| + discarded
    }

    ghost predicate Valid()
      reads this
    {
      0xffff <= ssizeMax && Stream() && Queues() && Window(0)
    }

    constructor (ssizeMax: nat, nonblocking: bool)
      requires 0xffff <= ssizeMax
      ensures Valid() && delivered == [] && returned == [] && open && pcb
    {
      this.ssizeMax, this.nonblocking := ssizeMax, nonblocking;
      lastdata, mbox, open, finPending, mboxClosed := [], [], true, false, false;
      pendingErr, pcb, updates := Ok, true, [];
      ended, delivered, returned, dropped, discarded := false, [], [], [], 0;
    }

    // ---------- TCP's side ----------

    method Post(x: Item)
      requires open && MailboxOk(mbox + [x])
      modifies this`mbox
      ensures mbox == old(mbox) + [x]
      ensures Bytes(mbox) == if x.Data? then old(Bytes(mbox)) + x.bytes else old(Bytes(mbox))
    {
      BytesAppend(mbox, x);
      mbox := mbox + [x];
    }

    /** recv_tcp when recvmbox is already deleted. */
    method Discard(p: seq<Byte>, ghost recvd: nat)
      requires Stream() && Queues() && Window(recvd) && pcb && !open
      modifies this`updates, this`delivered, this`dropped, this`discarded
      ensures Stream() && Queues() && Window(recvd) && delivered == old(delivered) + p
      ensures dropped == old(dropped) + p && updates == old(updates) + [|p|]
    {
      CatMore(returned, lastdata, Bytes(mbox), dropped, p);
      hide Cat, Bytes;
      TotalAppend(updates, |p|);
      updates := updates + [|p|];
      discarded := discarded + |p|;
      dropped := dropped + p;
      delivered := delivered + p;
    }

    method Enqueue(p: seq<Byte>)
      requires Stream() && Queues() && open && !ended && 0 < |p| <= 0xffff
      modifies this`mbox, this`delivered
      ensures Stream() && Queues() && delivered == old(delivered) + p && mbox == old(mbox) + [Data(p)]
    {
      CatMore(returned, lastdata, Bytes(mbox), dropped, p);
      hide Cat, Bytes;
      Post(Data(p));
      delivered := delivered + p;
    }

    /** recv_tcp with a buffer. */
    method Deliver(p: seq<Byte>, full: bool, ghost recvd: nat) returns (e: Err)
      requires Stream() && Queues() && Window(recvd) && pcb && !ended && 0 < |p| <= 0xffff
      modifies this`mbox, this`updates, this`delivered, this`dropped, this`discarded
      ensures Stream() && Queues() && Window(recvd)
      ensures delivered == old(delivered) + (if e == Ok then p else [])
      ensures e == if old(open) && full then Mem else Ok
      ensures mbox == if open && !full then old(mbox) + [Data(p)] else old(mbox)
      ensures dropped == if open then old(dropped) else old(dropped) + p
      ensures updates == if open then old(updates) else old(updates) + [|p|]
    {
      if !open {
        Discard(p, recvd);
        return Ok;
      }
      if full { return Mem; }
      Enqueue(p);
      return Ok;
    }

    /** recv_tcp with NULL: the peer has closed. */
    method DeliverFin(full: bool) returns (e: Err)
      requires Stream() && Queues() && pcb && !ended
      modifies this`mbox, this`ended
      ensures Stream() && Queues() && (e == Ok ==> ended) && (e != Ok ==> !ended)
      ensures e == if open && full then Mem else Ok
      ensures mbox == if open && !full then old(mbox) + [Note(Clsd)] else old(mbox)
      ensures open && !full ==> EndAhead()
    {
      if open && full { return Mem; }
      FirstNoteBehind(mbox, Clsd);
      ended := true;
      if open { Post(Note(Clsd)); }
      return Ok;
    }

    /** err_tcp, as far as it concerns receiving. */
    method Abort(err: Err, full: bool)
      requires Stream() && Queues() && pcb && err in {Abrt, Rst, Clsd}
      modifies this`mbox, this`ended, this`pcb, this`pendingErr, this`mboxClosed
      ensures Stream() && Queues() && !pcb && pendingErr == err && mboxClosed && ended
      ensures mbox == if open && !full then old(mbox) + [Note(err)] else old(mbox)
    {
      hide Cat, Bytes;
      pcb, pendingErr, mboxClosed, ended := false, err, true, true;
      if open && !full { Post(Note(err)); }
    }

    /** Whatever TCP does before the next fetch. */
    method Arrive(ps: seq<Packet>, ghost recvd: nat)
      requires Stream() && Queues() && Window(recvd)
      modifies this`mbox, this`updates, this`delivered, this`dropped, this`discarded, this`ended, this`pcb,
        this`pendingErr, this`mboxClosed
      ensures Stream() && Queues() && Window(recvd)
      ensures old(delivered) <= delivered && (pcb ==> old(pcb))
      ensures Line(pcb, ended, delivered) == Arrived(open, old(Line(pcb, ended, delivered)), ps)
      ensures ps == [] || (old(ended) && pcb) ==>
                && mbox == old(mbox) && updates == old(updates) && delivered == old(delivered)
                && dropped == old(dropped) && ended == old(ended) && pcb == old(pcb)
                && pendingErr == old(pendingErr) && mboxClosed == old(mboxClosed)
    {
      hide Stream, Queues;
      for i := 0 to |ps|
        invariant Stream() && Queues() && Window(recvd) && (old(ended) ==> ended) && (pcb ==> old(pcb))
        invariant old(delivered) <= delivered
        invariant Line(pcb, ended, delivered) == Arrived(open, old(Line(pcb, ended, delivered)), ps[..i])
        invariant i == 0 || (old(ended) && pcb) ==>
                    && mbox == old(mbox) && updates == old(updates) && delivered == old(delivered)
                    && dropped == old(dropped) && ended == old(ended) && pcb == old(pcb)
                    && pendingErr == old(pendingErr) && mboxClosed == old(mboxClosed)
      {
        assert ps[..i + 1][..i] == ps[..i];
        match ps[i]
        case Segment(p, full) => if pcb && !ended && 0 < |p| <= 0xffff { var e := Deliver(p, full, recvd); }
        case Fin(full) => if pcb && !ended { var e := DeliverFin(full); }
        case Lost(err, full) => if pcb && err in {Abrt, Rst, Clsd} { Abort(err, full); }
      }
      assert ps[..|ps|] == ps;
    }

    // ---------- netconn_recv_data, netconn_recv_data_tcp ----------

    /** netconn_err */
    method TakeErr() returns (e: Err)
      modifies this`pendingErr
      ensures e == old(pendingErr) && pendingErr == Ok
    {
      e := pendingErr;
      pendingErr := Ok;
    }

    /** netconn_drain by a shutdown of the receive side. */
    method Drain()
      requires Stream() && Queues()
      modifies this`mbox, this`open, this`finPending, this`dropped
      ensures Stream() && Queues() && !open
      ensures dropped == old(Bytes(mbox)) + old(dropped)
    {
      CatMove(returned, lastdata, Bytes(mbox), dropped);
      dropped := Bytes(mbox) + dropped;
      mbox, open, finPending := [], false, false;
    }

    /** The head of the mailbox. */
    method TakeItem() returns (item: Item)
      requires Stream() && Queues() && lastdata == [] && !finPending && mbox != []
      modifies this`mbox
      ensures Queues() && mbox == old(mbox)[1..] && item == old(mbox)[0]
      ensures item.Data? ==> StreamWith(item.bytes) && 0 < |item.bytes| <= 0xffff
      ensures item.Note? ==> Exhausted() && Stream() && ended && item.err != Ok && (mbox == [] || mbox[0].Note?)
    {
      item := mbox[0];
      if item.Note? {
        OnlyNotes(mbox);
        OnlyNotes(mbox[1..]);
        CatDone(returned, dropped);
      } else {
        CatMove(returned, item.bytes, Bytes(mbox[1..]), dropped);
      }
      hide Cat;
      mbox := mbox[1..];
    }

    /** netconn_recv_data: the next buffer; the empty one stands for the end of the stream. */
    method RecvData(dontblock: bool) returns (f: Fetched)
      requires Stream() && Queues() && lastdata == [] && !finPending
      modifies this`mbox, this`pendingErr
      ensures Queues()
      ensures f.Buffer? ==> StreamWith(f.bytes) && |f.bytes| <= 0xffff
      ensures !f.Buffer? || f.bytes == [] ==> Exhausted()
      ensures f == Buffer([]) ==> ended && (mbox == [] || mbox[0].Note?)
      ensures f == Nothing(Clsd) ==> ended
      ensures f != Nothing(Ok)
      ensures f.Blocked? <==>
                old(open && mbox == [] && !nonblocking && !mboxClosed && pendingErr == Ok) && !dontblock
      ensures !old(open) ==> f == Nothing(if old(pendingErr) != Ok then old(pendingErr) else ConnErr)
      ensures old(open && mbox == []) && !f.Blocked? ==>
                f == Nothing(if old(pendingErr) != Ok then old(pendingErr)
                             else if mboxClosed then ConnErr else WouldBlock)
      ensures old(open && mbox != []) ==>
                && mbox == old(mbox)[1..] && pendingErr == old(pendingErr)
                && f == match old(mbox)[0]
                        case Data(p) => Buffer(p)
                        case Note(e) => if e == Clsd then Buffer([]) else Nothing(e)
    {
      CatDone(returned, dropped);
      hide Cat;
      if !open {
        var e := TakeErr();
        return Nothing(if e != Ok then e else ConnErr);
      }
      if mbox == [] {
        if nonblocking || dontblock || mboxClosed || pendingErr != Ok {
          var e := TakeErr();
          return Nothing(if e != Ok then e else if mboxClosed then ConnErr else WouldBlock);
        }
        return Blocked;
      }
      var item := TakeItem();
      if item.Note? {
        return if item.err == Clsd then Buffer([]) else Nothing(item.err);
      }
      return Buffer(item.bytes);
    }

    /** The part of netconn_recv_data_tcp after a FIN; drains tells whether do_close got to netconn_drain. */
    method HandleFin(drains: bool) returns (f: Fetched)
      requires Stream() && Queues() && Exhausted() && ended && !finPending
      modifies this`mbox, this`pendingErr, this`open, this`finPending, this`dropped
      ensures Queues() && Exhausted() && !finPending && dropped == old(dropped)
      ensures f.Nothing? && f.err != Ok
      ensures f.err == if pcb then Clsd else if old(pendingErr) != Ok then old(pendingErr) else Rst
      ensures open <==> old(open) && !(pcb && drains)
    {
      if !pcb {
        var e := TakeErr();
        return Nothing(if e != Ok then e else Rst);
      }
      if drains { Drain(); }
      return Nothing(Clsd);
    }

    /** What a fetch meets first decides what it gives. */
    ghost predicate Fetches(open: bool, fin: bool, m: seq<Item>, pending: Err, dontblock: bool, nofin: bool, f: Fetched)
      reads this`pcb, this`mboxClosed
    {
      var end := if pcb then Clsd else if pending != Ok then pending else Rst;
      if !open then f == Nothing(ConnErr)
      else if fin then f == Nothing(end)
      else if m == [] then
        if pending != Ok then f == Nothing(pending)
        else if mboxClosed then f == Nothing(ConnErr)
        else f == if dontblock || nonblocking then Nothing(WouldBlock) else Blocked
      else if m[0].Data? then f == Buffer(m[0].bytes)
      else if m[0].err != Clsd then f == Nothing(m[0].err)
      else f == Nothing(if nofin then WouldBlock else end)
    }

    /** netconn_recv_data_tcp, with NETCONN_NOAUTORCVD. */
    method RecvDataTcp(dontblock: bool, nofin: bool, drains: bool) returns (f: Fetched)
      requires Stream() && Queues() && lastdata == [] && (nofin ==> !finPending)
      modifies this`mbox, this`pendingErr, this`open, this`finPending, this`dropped
      ensures Queues()
      ensures f.Buffer? ==> StreamWith(f.bytes) && 0 < |f.bytes| <= 0xffff && !finPending
      ensures !f.Buffer? ==> Exhausted() && (f.Nothing? ==> f.err != Ok)
      ensures f == Nothing(Clsd) ==> ended
      ensures f.Blocked? ==> !dontblock && !nonblocking
      ensures dropped == old(dropped)
      ensures old(EndAhead()) ==>
                (f.Buffer? && EndAhead()) || (!nofin && f == Nothing(Clsd)) || (nofin && f.Nothing? && EndAhead())
      ensures Fetches(old(open), old(finPending), old(mbox), old(pendingErr), dontblock, nofin, f)
    {
      CatDone(returned, dropped);
      hide Cat;
      if !open { OnlyNotes(mbox); return Nothing(ConnErr); }
      if finPending {
        OnlyNotes(mbox);
        finPending := false;
        f := HandleFin(drains);
        return;
      }
      f := RecvData(dontblock);
      if f == Buffer([]) {
        if nofin {
          finPending := true;
          return Nothing(WouldBlock);
        }
        f := HandleFin(drains);
      }
    }

    // ---------- lwip_recv_tcp ----------

    /** lwip_netconn_do_recv: announce len bytes, in pieces that fit an u16_t. */
    method TcpRecvd(len: nat)
      requires Window(len) && 0 < len
      modifies this`updates
      ensures Window(0) && (pcb ==> Total(updates) == old(Total(updates)) + len)
      ensures old(updates) <= updates && (forall i :: |old(updates)| <= i < |updates| ==> updates[i] <= 0xffff)
    {
      if !pcb { return; }
      var remaining := len;
      while true
        invariant 0 < remaining && Total(updates) + remaining == old(Total(updates)) + len
        invariant old(updates) <= updates && (forall i :: |old(updates)| <= i < |updates| ==> updates[i] <= 0xffff)
        decreases remaining
      {
        var recved := if remaining > 0xffff then 0xffff else remaining;
        TotalAppend(updates, recved);
        updates := updates + [recved];
        remaining := remaining - recved;
        if remaining == 0 { break; }
      }
    }

    lemma FinMeansEmpty()
      requires Queues()
      ensures finPending ==> lastdata == []
    {
    }

    lemma EndMeansEnded()
      requires Queues()
      ensures EndAhead() ==> ended
    {
      FirstNoteEnds(mbox);
    }

    lemma ExhaustedIs()
      requires Exhausted()
      ensures Stream() && lastdata == []
    {
    }

    method Keep(p: seq<Byte>)
      requires StreamWith(p) && Queues() && !finPending && |p| <= 0xffff
      modifies this`lastdata
      ensures Stream() && Queues() && lastdata == p
    {
      lastdata := p;
    }

    /** The buffer to copy from: lastdata, or the next one, which becomes lastdata. */
    method NextBuffer(dontblock: bool, nofin: bool, drains: bool, ps: seq<Packet>,
                      ghost recvd: nat) returns (f: Fetched)
      requires Stream() && Queues() && Window(recvd) && (nofin ==> !finPending)
      modifies this`mbox, this`pendingErr, this`open, this`finPending, this`dropped, this`lastdata,
        this`updates, this`delivered, this`discarded, this`ended, this`pcb, this`mboxClosed
      ensures Stream() && Queues() && Window(recvd) && old(delivered) <= delivered
      ensures f.Buffer? ==> f.bytes == lastdata != [] && !finPending
      ensures !f.Buffer? ==> Exhausted() && (f.Nothing? ==> f.err != Ok)
      ensures f == Nothing(Clsd) ==> ended
      ensures f.Blocked? ==> !dontblock && !nonblocking
      ensures ps == [] ==> delivered == old(delivered) && pcb == old(pcb) && dropped == old(dropped)
      ensures pcb ==> old(pcb)
      ensures old(lastdata) == [] ==>
                Line(pcb, ended, delivered) == Arrived(old(open), old(Line(pcb, ended, delivered)), ps)
      ensures ps == [] && old(lastdata) == [] ==>
                Fetches(old(open), old(finPending), old(mbox), old(pendingErr), dontblock, nofin, f)
      ensures old(EndAhead()) && pcb ==>
                (f.Buffer? && EndAhead()) || (!nofin && f == Nothing(Clsd)) || (nofin && f.Nothing? && EndAhead())
    {
      hide *;
      FinMeansEmpty();
      if lastdata != [] { return Buffer(lastdata); }
      f := FetchNext(dontblock, nofin, drains, ps, recvd);
    }

    method FetchNext(dontblock: bool, nofin: bool, drains: bool, ps: seq<Packet>,
                     ghost recvd: nat) returns (f: Fetched)
      requires Stream() && Queues() && Window(recvd) && (nofin ==> !finPending) && lastdata == []
      modifies this`mbox, this`pendingErr, this`open, this`finPending, this`dropped, this`lastdata,
        this`updates, this`delivered, this`discarded, this`ended, this`pcb, this`mboxClosed
      ensures Stream() && Queues() && Window(recvd) && old(delivered) <= delivered
      ensures f.Buffer? ==> f.bytes == lastdata != [] && !finPending
      ensures !f.Buffer? ==> Exhausted() && (f.Nothing? ==> f.err != Ok)
      ensures f == Nothing(Clsd) ==> ended
      ensures f.Blocked? ==> !dontblock && !nonblocking
      ensures ps == [] ==> delivered == old(delivered) && pcb == old(pcb) && dropped == old(dropped)
      ensures pcb ==> old(pcb)
      ensures Line(pcb, ended, delivered) == Arrived(old(open), old(Line(pcb, ended, delivered)), ps)
      ensures ps == [] ==> Fetches(old(open), old(finPending), old(mbox), old(pendingErr), dontblock, nofin, f)
      ensures old(EndAhead()) && pcb ==>
                (f.Buffer? && EndAhead()) || (!nofin && f == Nothing(Clsd)) || (nofin && f.Nothing? && EndAhead())
    {
      hide *;
      EndMeansEnded();
      Arrive(ps, recvd);
      f := RecvDataTcp(dontblock, nofin, drains);
      if f.Buffer? { Keep(f.bytes); } else { ExhaustedIs(); }
    }

    /** One copy out of lastdata. */
    method Copy(left: nat, recvd: nat, peek: bool) returns (data: seq<Byte>)
      requires Stream() && Queues() && lastdata != [] && !finPending && left + recvd <= ssizeMax && Window(recvd)
      modifies this`lastdata, this`returned
      ensures Stream() && Queues()
      ensures data == old(lastdata)[..Min(left, |old(lastdata)|)]
      ensures peek ==> returned == old(returned) && lastdata == old(lastdata)
      ensures !peek ==>
                returned == old(returned) + data && lastdata == old(lastdata)[|data|..] && Window(recvd + |data|)
    {
      var copylen: int := if left > |lastdata| then |lastdata| else left % 0x10000;
      copylen := if recvd > ssizeMax - copylen then ssizeMax - recvd else copylen;
      data := lastdata[..copylen];
      if !peek {
        CatCopy(returned, lastdata, Bytes(mbox), dropped, copylen);
        returned := returned + data;
        lastdata := if |lastdata| - copylen > 0 then lastdata[copylen..] else [];
      }
    }

    /** A result without data as a fetch. */
    function AsFetched(r: Result): Fetched {
      match r
      case Got(data) => Buffer(data)
      case Eof => Nothing(Clsd)
      case Failed(e) => Nothing(e)
      case Waiting => Blocked
    }

    /** The copying loop of lwip_recv_tcp, from the first buffer on: after it only waiting data is fetched. */
    method CopyOut(total: nat, peek: bool, drains: bool, arrivals: seq<seq<Packet>>)
      returns (recvd: seq<Byte>, waits: bool)
      requires Stream() && Queues() && Window(0) && 0xffff <= ssizeMax && total <= ssizeMax
      requires lastdata != [] && !finPending
      modifies this
      ensures Stream() && Queues() && Window(0) && old(delivered) <= delivered && !waits
      ensures returned == old(returned) + (if peek then [] else recvd)
      ensures peek ==> recvd == lastdata[..Min(total, |lastdata|)]
      ensures |recvd| <= total && (0 < total ==> recvd != [])
      ensures !peek && |recvd| < total ==> Exhausted()
      ensures (pcb ==> old(pcb)) && (old(EndAhead()) && pcb ==> EndAhead())
      ensures arrivals == [] ==> delivered == old(delivered) && dropped == old(dropped) && pcb == old(pcb)
    {
      hide *;
      var left, i := total, 0;
      recvd, waits := [], false;
      while true
        invariant Stream() && Queues() && old(delivered) <= delivered && lastdata != [] && !finPending
        invariant !waits && |recvd| + left == total && (recvd != [] ==> !peek && 0 < left)
        invariant returned == old(returned) + recvd && Window(|recvd|)
        invariant (pcb ==> old(pcb)) && (old(EndAhead()) && pcb ==> EndAhead())
        invariant arrivals == [] ==> delivered == old(delivered) && dropped == old(dropped) && pcb == old(pcb)
        decreases left
      {
        MinIs(left, |lastdata|);
        var data := Copy(left, |recvd|, peek);
        recvd := recvd + data;
        left := left - |data|;
        if left == 0 || peek { break; }
        var f := NextBuffer(true, true, drains, if i < |arrivals| then arrivals[i] else [], |recvd|);
        i := i + 1;
        if !f.Buffer? {
          waits := f.Blocked?;
          break;
        }
      }
      if recvd != [] && !peek { TcpRecvd(|recvd|); }
    }

    /** lwip_recv_tcp; arrivals are what TCP does before each fetch. */
    method RecvTcp(len: nat, peek: bool, dontwait: bool, drains: bool, arrivals: seq<seq<Packet>>) returns (r: Result)
      requires Valid()
      modifies this
      ensures Valid() && old(delivered) <= delivered
      // the bytes returned are the next ones of the stream
      ensures returned == old(returned) + (if r.Got? && !peek then r.data else [])
      ensures r.Got? && peek ==> r.data == lastdata[..Min(Min(len, ssizeMax), |lastdata|)]
      // a call that returns fewer than asked for has returned all there is
      ensures r.Got? ==> |r.data| <= Min(len, ssizeMax) && (0 < len ==> r.data != [])
      ensures r.Got? && !peek && |r.data| < Min(len, ssizeMax) ==> Exhausted()
      ensures !r.Got? ==> Exhausted()
      ensures r.Eof? ==> ended
      ensures r.Waiting? ==> !dontwait && !nonblocking
      // the end of the stream is reported behind the data
      ensures old(EndAhead()) && pcb ==> r.Eof? || (r.Got? && EndAhead())
      ensures arrivals == [] ==> delivered == old(delivered) && dropped == old(dropped) && pcb == old(pcb)
      // what TCP delivers before the first fetch is taken in
      ensures arrivals != [] && old(lastdata) == [] ==>
                Arrived(old(open), old(Line(pcb, ended, delivered)), arrivals[0]).bytes <= delivered
      // with nothing left in lastdata, what is queued decides
      ensures arrivals == [] && old(lastdata) == [] && !r.Got? ==>
                Fetches(old(open), old(finPending), old(mbox), old(pendingErr), dontwait, false, AsFetched(r))
      ensures arrivals == [] && r.Got? ==>
                old(lastdata) != [] || old(open && !finPending && mbox != [] && mbox[0].Data?)
    {
      hide Queues, Stream, Exhausted, Window, Bytes, FirstNote;
      var first := if arrivals == [] then [] else arrivals[0];
      var f := NextBuffer(dontwait, false, drains, first, 0);
      if f.Blocked? { return Waiting; }
      if f.Nothing? { return if f.err == Clsd then Eof else Failed(f.err); }
      hide Fetches;
      var data, waits := CopyOut(Min(len, ssizeMax), peek, drains, if arrivals == [] then [] else arrivals[1..]);
      return if waits then Waiting else Got(data);
    }

    /** The application reads until the end: it gets everything that was still to come, and then the end. */
    method ReadAll(len: nat, dontwait: bool, drains: bool) returns (output: seq<Byte>, r: Result)
      requires Valid() && EndAhead() && 0 < len
      modifies this
      ensures Valid() && r.Eof? && output == old(lastdata + Bytes(mbox))
    {
      hide Valid, Bytes, FirstNote;
      output := [];
      Left();
      ghost var rest := lastdata + Bytes(mbox);
      while true
        invariant Valid() && EndAhead() && dropped == [] && delivered == old(delivered)
        invariant returned == old(returned) + output
        decreases |delivered| - |returned|
      {
        Left();
        r := RecvTcp(len, false, dontwait, drains, []);
        if !r.Got? { break; }
        output := output + r.data;
        Left();
      }
      assert returned == delivered;
      assert (old(returned) + output)[|old(returned)|..] == output && (old(returned) + rest)[|old(returned)|..] == rest;
    }

    /** What is left is what was delivered and not yet returned. */
    lemma Left()
      requires Valid() && open
      ensures dropped == [] && delivered == returned + (lastdata + Bytes(mbox))
    {
      assert Cat(returned, lastdata, Bytes(mbox), []) == returned + (lastdata + Bytes(mbox));
    }
  }

  datatype Action =
    | Tcp(packets: seq<Packet>)
    | Recv(len: nat, peek: bool, dontwait: bool, drains: bool, arrivals: seq<seq<Packet>>)
    | ShutRead

  /**
   Every run of calls and deliveries: what the non-peeking calls returned is exactly the beginning of
   what was delivered, and as long as there is a pcb the announced window is what was returned.
   */
  method Run(ssizeMax: nat, nonblocking: bool, script: seq<Action>) returns (s: Socket, output: seq<Byte>)
    requires 0xffff <= ssizeMax
    ensures fresh(s) && s.Valid() && output == s.returned
    ensures output <= s.delivered && s.delivered == output + s.lastdata + Bytes(s.mbox) + s.dropped
    ensures s.open && s.pcb ==> Total(s.updates) == |output| && s.dropped == []
  {
    s := new Socket(ssizeMax, nonblocking);
    output := [];
    for i := 0 to |script|
      invariant fresh(s) && s.Valid() && output == s.returned
    {
      match script[i]
      case Tcp(packets) => s.Arrive(packets, 0);
      case Recv(len, peek, dontwait, drains, arrivals) =>
        var r := s.RecvTcp(len, peek, dontwait, drains, arrivals);
        if r.Got? && !peek { output := output + r.data; }
      case ShutRead => s.Drain();
    }
  }
}
