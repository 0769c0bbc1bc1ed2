/**
 lwip/core/dns.c: the resolver, which works in place on dns_table, dns_requests and dns_pcbs.

 Answers, the success of udp_new and which servers are set are the environment.  Callbacks are
 entries of a log; they do not re-enter the resolver.
 */
module Dns {
  import opened Basics
  import opened DnsSpec

  /** What dns_recv makes of a packet whose id matches: nothing, an error flag, no address, or an address. */
  datatype Reply = Ignored | Failure | NoAddress | Address(ttl: nat)

  class Resolver {
    const c: Config
    var table: seq<Entry>
    var requests: seq<Request>
    var pcbs: seq<bool>          // dns_pcbs[k] != NULL
    var lastPcb: nat
    var servers: seq<bool>       // dns_servers[k] is set
    var txid: nat                // dns_txid
    var seqno: nat               // dns_seqno
    var accepted: nat            // requests accepted so far that have a callback
    var calls: seq<Call>
    var sent: seq<Query>         // what dns_send has sent
    ghost var asked: seq<string> // names of the accepted requests that have a callback
    ghost var born: seq<nat>     // and the ticks at which they were accepted
    ghost var past: seq<Past>    // history of the entries' queries
    ghost var now: nat           // ticks so far

    ghost predicate Sizes()
      reads this`table, this`requests, this`pcbs, this`servers, this`txid, this`seqno, this`lastPcb, this`past,
        this`asked, this`born, this`accepted
    {
      && ConfigOk(c) && |table| == |requests| == |past| == c.size && |asked| == |born| == accepted
      && |pcbs| == c.ports && |servers| == c.servers && txid < 0x10000 && seqno < 0x100 && lastPcb < c.ports
    }

    ghost predicate EntriesOk()
      reads this`table
    {
      forall i :: 0 <= i < |table| ==> EntryOk(c, table[i])
    }

    ghost predicate PastsOk()
      requires ConfigOk(c) && EntriesOk() && |past| == |table|
      reads this`table, this`past, this`now
    {
      forall i :: 0 <= i < |table| ==> PastOk(c, table[i], past[i], now)
    }

    ghost predicate Valid()
      reads this
    {
      ValidWith(pcbs)
    }

    /** p is dns_pcbs as the table knows it. */
    ghost predicate ValidWith(p: seq<bool>)
      reads this
    {
      && Sizes() && EntriesOk() && TxidsOk(table) && PcbsOk(table, p) && |p| == c.ports
      && NamesOk(requests, table, asked) && WaitsOk(requests, table)
      && CallsOk(requests, calls, |asked|) && CallNamesOk(calls, asked)
      && PastsOk() && BirthsOk(requests, past, born)
    }

    /** Between calls no entry is being prepared. */
    ghost predicate Settled()
      reads this`table
    {
      forall i :: 0 <= i < |table| ==> !table[i].state.New?
    }

    constructor (c: Config, servers: seq<bool>)
      requires ConfigOk(c) && |servers| == c.servers
      ensures Valid() && Settled() && this.c == c && asked == [] && calls == []
      ensures this.servers == servers && seqno == 0 && forall i :: 0 <= i < |table| ==> table[i].state.Unused?
    {
      this.c, this.servers := c, servers;
      table := seq(c.size, _ => Entry(Unused, "", 0, 0, 0, 0, 0, 0, V4, c.ports));
      requests := seq(c.size, _ => Request(None, 0));
      pcbs := seq(c.ports, _ => false);
      lastPcb, txid, seqno, calls, sent := 0, 0, 0, [], [];
      accepted, asked, born, past, now := 0, [], [], seq(c.size, _ => Past(0, 0, 0)), 0;
      new;
      NothingPending(requests);
    }

    // ---------- dns_create_txid ----------

    /** The transaction ids in use. */
    ghost function InUse(): set<nat>
      reads this`table
    {
      set i | 0 <= i < |table| && table[i].state.Asking? :: table[i].txid
    }

    /** The first asking entry with the given id, or the table size. */
    method FindTxid(id: nat) returns (i: nat)
      ensures i <= |table| && (i < |table| ==> table[i].state.Asking? && table[i].txid == id)
      ensures forall j :: 0 <= j < i && table[j].state.Asking? ==> table[j].txid != id
    {
      i := 0;
      while i < |table| && !(table[i].state == Asking && table[i].txid == id)
        invariant i <= |table|
        invariant forall j :: 0 <= j < i && table[j].state.Asking? ==> table[j].txid != id
      {
        i := i + 1;
      }
    }

    /** A fresh id, found after at most one attempt more than the table has entries. */
    method CreateTxid() returns (id: nat, ghost attempts: nat)
      requires txid < 0x10000 && |table| <= 255
      modifies this`txid
      ensures id < 0x10000 && txid == id
      ensures forall i :: 0 <= i < |table| && table[i].state.Asking? ==> table[i].txid != id
      ensures 1 <= attempts <= |table| + 1
    {
      ghost var tried: set<nat> := {};
      ghost var used := InUse();
      attempts := 0;
      InUseBound(table);
      while true
        invariant txid < 0x10000 && Distance(old(txid), txid) == |tried| == attempts
        invariant tried <= used
        invariant forall x :: x in tried ==> x < 0x10000 && Distance(old(txid), x) <= |tried|
        decreases |used| - |tried|
      {
        SubsetSize(tried, used);
        NextDistance(old(txid), txid);
        hide Distance;
        txid := (txid + 1) % 0x10000;
        id := txid;
        attempts := attempts + 1;
        var taken := FindTxid(id);
        if taken == |table| { return; }
        assert id in used && id !in tried;
        tried := tried + {id};
        SubsetSize(tried, used);
      }
    }

    // ---------- dns_call_found ----------

    /** Call and forget every callback that waits for entry idx. */
    method Notify(idx: nat, ok: bool)
      requires idx < |table|
      requires NamesOk(requests, table, asked) && CallsOk(requests, calls, |asked|) && CallNamesOk(calls, asked)
      modifies this`requests, this`calls
      ensures Cleared(old(requests), requests, idx)
      ensures CallsOk(requests, calls, |asked|) && CallNamesOk(calls, asked) && NamesOk(requests, table, asked)
      ensures old(calls) <= calls && (forall k :: |old(calls)| <= k < |calls| ==> calls[k].ok == ok)
    {
      for i := 0 to |requests|
        invariant |requests| == |old(requests)|
        invariant forall r :: 0 <= r < i ==> requests[r] == ClearedOne(old(requests)[r], idx)
        invariant forall r :: i <= r < |requests| ==> requests[r] == old(requests)[r]
        invariant CallsOk(requests, calls, |asked|) && CallNamesOk(calls, asked)
        invariant old(calls) <= calls && (forall k :: |old(calls)| <= k < |calls| ==> calls[k].ok == ok)
      {
        hide CallsOk;
        var q := requests[i];
        if q.found.Some? && q.idx == idx {
          var call := Call(q.found.value, table[idx].name, ok);
          CallMoves(requests, calls, |asked|, i, call);
          calls := calls + [call];
          requests := requests[i := q.(found := None)];
        }
      }
    }

    /** Close the pcb of entry idx unless another query is using it. */
    method ReleasePcb(idx: nat)
      requires idx < |table| && |pcbs| == c.ports && PcbsOk(table, pcbs) && table[idx].pcb <= c.ports
      requires forall j :: 0 <= j < |table| && j != idx ==> (table[j].pcb < c.ports <==> table[j].state.Asking?)
      modifies this`table, this`pcbs
      ensures table == old(table)[idx := old(table[idx]).(pcb := c.ports)]
      ensures |pcbs| == c.ports && PcbsOk(table, pcbs)
    {
      var e := table[idx].(pcb := c.ports);
      if table[idx].pcb < c.ports {
        var i := 0;
        while i < |table| && !(i != idx && table[i].state == Asking && table[i].pcb == table[idx].pcb)
          invariant i <= |table|
          invariant forall j :: 0 <= j < i && j != idx ==> table[j].pcb != table[idx].pcb
        {
          i := i + 1;
        }
        PcbDropped(table, pcbs, idx, e, i < |table|);
        if i == |table| { pcbs := pcbs[table[idx].pcb := false]; }
      } else {
        PcbsReplace(table, pcbs, idx, e);
      }
      table := table[idx := e];
    }

    /** No entry but perhaps idx is being prepared. */
    ghost predicate Quiet(idx: nat)
      reads this`table
    {
      forall j :: 0 <= j < |table| && j != idx ==> !table[j].state.New?
    }

    /** dns_call_found */
    method CallFound(idx: nat, ok: bool)
      requires Valid() && idx < |table| && Quiet(idx) && Busy(table[idx])
      modifies this`table, this`requests, this`pcbs, this`calls
      ensures table == old(table)[idx := Answered(c, old(table[idx]), ok)]
      ensures |pcbs| == c.ports && PcbsOk(table, pcbs)
      ensures Cleared(old(requests), requests, idx) && CallsOk(requests, calls, |asked|) && CallNamesOk(calls, asked)
      ensures old(calls) <= calls && (forall k :: |old(calls)| <= k < |calls| ==> calls[k].ok == ok)
    {
      Notify(idx, ok);
      ReleasePcb(idx);
      hide CallsOk, PcbsOk, CallNamesOk, TxidsOk, NamesOk, WaitsOk, BirthsOk, Cleared;
      if ok {
        PcbsReplace(table, pcbs, idx, table[idx].(addr := Single(table[idx].addr)));
        table := table[idx := table[idx].(addr := Single(table[idx].addr))];
      }
    }

    /**
     dns_call_found, and the end of the query: entry idx goes to state end, everyone waiting for it has
     been called, its pcb is released, and nobody else is affected.
     */
    method Finish(idx: nat, ok: bool, end: Phase)
      requires Valid() && idx < |table| && Quiet(idx) && Busy(table[idx]) && (end.Unused? || end.Done?)
      modifies this`table, this`requests, this`pcbs, this`calls
      ensures Valid() && Settled()
      ensures table == old(table)[idx := Answered(c, old(table[idx]), ok).(state := end)]
      ensures Cleared(old(requests), requests, idx)
      ensures old(calls) <= calls && (forall k :: |old(calls)| <= k < |calls| ==> calls[k].ok == ok)
    {
      ghost var e := Answered(c, table[idx], ok).(state := end);
      TxidsReplace(table, idx, e);
      CallFound(idx, ok);
      PcbsReplace(table, pcbs, idx, e);
      FinishKeeps(old(requests), requests, old(table), past, asked, born, idx, e);
      hide CallsOk, PcbsOk, CallNamesOk, TxidsOk, NamesOk, WaitsOk, BirthsOk, Cleared;
      table := table[idx := table[idx].(state := end)];
      assert table == old(table)[idx := e];
    }

    // ---------- dns_send, dns_check_entry ----------

    /** An entry replaced by one with the same name and pcb, while it is being prepared or asked. */
    method Replace(i: nat, e: Entry)
      requires Valid() && i < |table| && Busy(table[i]) && Busy(e) && EntryOk(c, e) && PastOk(c, e, past[i], now)
      requires e.name == table[i].name && e.pcb == table[i].pcb
      requires e.state.Asking? ==>
                forall j :: 0 <= j < |table| && j != i && table[j].state.Asking? ==> table[j].txid != e.txid
      modifies this`table
      ensures Valid() && table == old(table)[i := e]
    {
      TxidsReplace(table, i, e);
      PcbsReplace(table, pcbs, i, e);
      hide CallsOk, PcbsOk, CallNamesOk, TxidsOk;
      table := table[i := e];
    }

    /** dns_send: a query for a server that is not set any more ends at once. */
    method Send(i: nat)
      requires Valid() && i < |table| && Quiet(i) && table[i].state.Asking?
      modifies this`sent, this`table, this`requests, this`pcbs, this`calls
      ensures Valid() && Settled() && old(calls) <= calls
      ensures forall j :: 0 <= j < |table| && j != i ==> table[j] == old(table[j])
      ensures table[i] == if servers[old(table[i].server)] then old(table[i]) else Dropped(c, old(table[i]))
      ensures sent == old(sent) + if servers[old(table[i].server)] then [QueryOf(old(table[i]))] else []
      ensures forall k :: |old(calls)| <= k < |calls| ==> !calls[k].ok
      ensures table[i].state.Asking? ==> calls == old(calls) && requests == old(requests)
      ensures StillWaiting(old(requests), requests, table)
    {
      if !servers[table[i].server] {
        Finish(i, false, Unused);
      } else {
        sent := sent + [QueryOf(table[i])];
      }
    }

    /** dns_backupserver_available */
    predicate Backup(e: Entry)
      requires |servers| == c.servers
      reads this`servers
    {
      HasBackup(c, servers, e)
    }

    /** What becomes of a new entry: the query is sent, or ends at once if the first server is not set. */
    function Begun(e: Entry): Entry
      requires 0 < |servers|
      reads this`servers, this`txid
    {
      var s := Sent(e, txid);
      if servers[0] then s else Dropped(c, s)
    }

    /** The next tick takes the query to the next server. */
    predicate Moves(e: Entry)
      requires |servers| == c.servers
      reads this`servers
    {
      e.tmr == 1 && e.retries + 1 == c.retries && Backup(e)
    }

    /** A cached entry replaced by another that is not being asked either. */
    method ReplaceIdle(i: nat, e: Entry)
      requires Valid() && i < |table| && !Busy(table[i]) && !Busy(e) && e.pcb == c.ports
      modifies this`table
      ensures Valid() && table == old(table)[i := e]
    {
      TxidsReplace(table, i, e);
      PcbsReplace(table, pcbs, i, e);
      hide CallsOk, PcbsOk, CallNamesOk, TxidsOk;
      table := table[i := e];
    }

    /** dns_check_entry for a new entry. */
    method StartQuery(i: nat)
      requires Valid() && i < |table| && Quiet(i) && table[i].state.New? && past[i].age == 0
      modifies this`sent, this`table, this`requests, this`pcbs, this`calls, this`txid
      ensures Valid() && Settled() && old(calls) <= calls
      ensures forall j :: 0 <= j < |table| && j != i ==> table[j] == old(table[j])
      ensures table[i].state.Asking? || table[i].state.Unused?
      ensures table[i].state.Asking? ==>
                table[i].addr == old(table[i].addr) && Remaining(c, table[i]) == Rounds(c, c.servers)
      ensures table[i] == Begun(old(table[i]))
      ensures sent == old(sent) + if servers[0] then [QueryOf(table[i])] else []
      ensures forall k :: |old(calls)| <= k < |calls| ==> !calls[k].ok
      ensures table[i].state.Asking? ==> calls == old(calls) && requests == old(requests)
      ensures StillWaiting(old(requests), requests, table)
    {
      hide CallsOk, PcbsOk, CallNamesOk, TxidsOk, NamesOk, WaitsOk;
      ghost var attempts;
      var id;
      id, attempts := CreateTxid();
      Replace(i, Sent(table[i], id));
      Send(i);
    }

    /** dns_check_entry for a pending entry: it uses up one tick, or the query ends. */
    method RetryQuery(i: nat)
      requires Valid() && i < |table| && Quiet(i) && table[i].state.Asking?
      modifies this`sent, this`table, this`requests, this`pcbs, this`calls
      ensures Valid() && Settled() && old(calls) <= calls
      ensures forall j :: 0 <= j < |table| && j != i ==> table[j] == old(table[j])
      ensures table[i].state.Asking? || table[i].state.Unused?
      ensures table[i].state.Asking? ==>
                table[i].addr == old(table[i].addr) && Remaining(c, table[i]) == old(Remaining(c, table[i])) - 1
      ensures table[i] == Retried(c, servers, old(table[i]))
      ensures old(Moves(table[i])) ==> table[i] == Redirected(old(table[i]))
      ensures sent == old(sent) + Resent(c, servers, old(table[i]))
      ensures forall k :: |old(calls)| <= k < |calls| ==> !calls[k].ok
      ensures table[i].state.Asking? ==> calls == old(calls) && requests == old(requests)
      ensures StillWaiting(old(requests), requests, table)
    {
      hide CallsOk, PcbsOk, CallNamesOk, NamesOk, WaitsOk;
      var e := table[i];
      TickUsesOne(c, e, Backup(e));
      hide Remaining;
      if e.tmr - 1 != 0 {
        Replace(i, e.(tmr := e.tmr - 1));
      } else if e.retries + 1 == c.retries {
        if Backup(e) {
          Replace(i, Redirected(e));
          Send(i);
        } else {
          Finish(i, false, Unused);
        }
      } else {
        Replace(i, e.(tmr := e.retries + 1, retries := e.retries + 1));
        Send(i);
      }
    }

    /** dns_check_entry */
    method CheckEntry(i: nat)
      requires Valid() && i < |table| && Quiet(i) && (table[i].state.New? ==> past[i].age == 0)
      modifies this`sent, this`table, this`requests, this`pcbs, this`calls, this`txid
      ensures Valid() && Settled() && old(calls) <= calls
      ensures forall j :: 0 <= j < |table| && j != i ==> table[j] == old(table[j])
      ensures table[i].state.Asking? ==> old(Busy(table[i])) && table[i].addr == old(table[i].addr)
      ensures table[i].state.Asking? && old(table[i].state.Asking?) ==>
                Remaining(c, table[i]) == old(Remaining(c, table[i])) - 1
      ensures !old(table[i].state.New?) ==> table[i] == Ticks(c, servers, old(table[i]), 1)
      ensures old(table[i].state.New?) ==> sent == old(sent) + if servers[0] then [QueryOf(table[i])] else []
      ensures !old(table[i].state.New?) ==> sent == old(sent) + Resent(c, servers, old(table[i]))
      ensures forall k :: |old(calls)| <= k < |calls| ==> !calls[k].ok
      ensures table[i].state.Asking? ==> calls == old(calls) && requests == old(requests)
      ensures StillWaiting(old(requests), requests, table)
      ensures old(table[i].state.New?) ==> table[i] == Begun(old(table[i]))
      ensures old(table[i].state.Asking? && Moves(table[i])) ==> table[i] == Redirected(old(table[i]))
    {
      match table[i].state
      case New => StartQuery(i);
      case Asking => RetryQuery(i);
      case Done =>
        var e := table[i];
        ReplaceIdle(i, if e.ttl == 0 || e.ttl - 1 == 0 then e.(state := Unused) else e.(ttl := e.ttl - 1));
      case Unused =>
    }

    /** dns_check_entry called by the timer. */
    method TickEntry(i: nat)
      requires Valid() && Settled() && i < |table|
      modifies this`sent, this`table, this`requests, this`pcbs, this`calls, this`txid, this`past
      ensures Valid() && Settled() && old(calls) <= calls
      ensures table == old(table)[i := Ticks(c, servers, old(table[i]), 1)]
      ensures past == old(past)[i := Older(old(past[i]))]
      ensures sent == old(sent) + Resent(c, servers, old(table[i]))
      ensures forall k :: |old(calls)| <= k < |calls| ==> !calls[k].ok
      ensures StillWaiting(old(requests), requests, table)
    {
      CheckEntry(i);
      hide CallsOk, PcbsOk, CallNamesOk, TxidsOk, NamesOk, WaitsOk, Remaining;
      past := past[i := Older(past[i])];
    }

    lemma TableIsOk()
      requires Valid() && Settled()
      ensures TableOk(c, servers, table) && 0 < |table| == |past|
    {
    }

    /** dns_check_entries: every asking entry uses up one tick or is finished. */
    method CheckEntries()
      requires Valid() && Settled()
      modifies this`sent, this`table, this`requests, this`pcbs, this`calls, this`txid, this`past
      ensures Valid() && Settled() && old(calls) <= calls
      ensures old(TableOk(c, servers, table)) && TickedAll(c, servers, old(table), table, 1)
      ensures |past| == |old(past)| && forall j :: 0 <= j < |past| ==> past[j] == Older(old(past[j]))
      ensures sent == old(sent) + ResentAll(c, servers, old(table), |table|)
      ensures forall k :: |old(calls)| <= k < |calls| ==> !calls[k].ok
      ensures StillWaiting(old(requests), requests, table)
    {
      hide *;
      TableIsOk();
      StillSame(requests, table);
      ResentNext(c, servers, table, 0);
      TickedNone(c, servers, table);
      for i := 0 to |table|
        invariant Valid() && Settled() && old(calls) <= calls && |table| == |old(table)| == |past| == |old(past)|
        invariant TickedUpTo(c, servers, old(table), table, i)
        invariant forall j :: 0 <= j < |past| ==> past[j] == if j < i then Older(old(past[j])) else old(past[j])
        invariant sent == old(sent) + ResentAll(c, servers, old(table), i)
        invariant forall k :: |old(calls)| <= k < |calls| ==> !calls[k].ok
        invariant StillWaiting(old(requests), requests, table)
      {
        ghost var rs, tb := requests, table;
        ResentNext(c, servers, old(table), i);
        TickedOne(c, servers, old(table), table, i);
        TickedIsOk(i);
        TickEntry(i);
        StillTwice(old(requests), rs, requests, tb, table);
      }
      AskedBeforeUpTo(c, servers, old(table), table, |table|);
    }

    lemma TickedIsOk(i: nat)
      requires Valid() && Settled() && i < |table|
      ensures TableOk(c, servers, table) && EntryOk(c, table[i]) && !table[i].state.New?
      ensures var t := table[i := Ticks(c, servers, table[i], 1)];
              forall j :: 0 <= j < |t| && t[j].state.Asking? ==> table[j].state.Asking?
    {
      AskingBefore(c, servers, table[i], 1);
    }

    /** dns_tmr */
    method Tick()
      requires Valid() && Settled()
      modifies this`sent, this`table, this`requests, this`pcbs, this`calls, this`txid, this`past, this`now
      ensures Valid() && Settled() && old(calls) <= calls && now == old(now) + 1
      ensures old(TableOk(c, servers, table)) && TickedAll(c, servers, old(table), table, 1)
      ensures |past| == |table| && forall j :: 0 <= j < |table| && table[j].state.Asking? ==>
                old(table[j].state.Asking?) && past[j].age == old(past[j].age) + 1
      ensures sent == old(sent) + ResentAll(c, servers, old(table), |table|)
      ensures forall k :: |old(calls)| <= k < |calls| ==> !calls[k].ok
      ensures StillWaiting(old(requests), requests, table)
    {
      hide Ticks, Resent, ResentAll, TickedAll, TableOk, StillWaiting, CallsOk, PcbsOk, CallNamesOk, TxidsOk, NamesOk,
        WaitsOk, BirthsOk, EntryOk, ConfigOk, PastOk;
      ghost var t, p := table, past;
      CheckEntries();
      AskedBefore(c, servers, t, table, 1);
      Later(t, p);
      now := now + 1;
    }

    /** One tick later the histories are still within their bounds. */
    lemma Later(t: seq<Entry>, p: seq<Past>)
      requires Valid() && Settled() && |t| == |p| == |table|
      requires forall j :: 0 <= j < |t| ==> EntryOk(c, t[j]) && PastOk(c, t[j], p[j], now) && past[j] == Older(p[j])
      requires forall j :: 0 <= j < |t| ==> (table[j].state.Asking? ==> t[j].state.Asking?)
      ensures forall j :: 0 <= j < |t| ==> PastOk(c, table[j], past[j], now + 1)
    {
      hide CallsOk, PcbsOk, CallNamesOk, TxidsOk, NamesOk, WaitsOk, BirthsOk, Remaining;
    }

    /** n ticks without anything else happening. */
    method Elapse(n: nat)
      requires Valid() && Settled()
      modifies this`sent, this`table, this`requests, this`pcbs, this`calls, this`txid, this`past, this`now
      ensures Valid() && Settled() && old(calls) <= calls && now == old(now) + n
      ensures old(TableOk(c, servers, table)) && TickedAll(c, servers, old(table), table, n)
      ensures forall k :: |old(calls)| <= k < |calls| ==> !calls[k].ok
      ensures StillWaiting(old(requests), requests, table)
    {
      TableIsOk();
      StillSame(requests, table);
      assert TickedAll(c, servers, table, table, 0);
      hide Valid, Settled, TableOk, StillWaiting, Ticks, ResentAll, TickedAll;
      for i := 0 to n
        invariant Valid() && Settled() && old(calls) <= calls && now == old(now) + i
        invariant TickedAll(c, servers, old(table), table, i)
        invariant forall k :: |old(calls)| <= k < |calls| ==> !calls[k].ok
        invariant StillWaiting(old(requests), requests, table)
      {
        ghost var rs, tb := requests, table;
        TableIsOk();
        Tick();
        TickedMore(c, servers, old(table), tb, table, i);
        AskedBefore(c, servers, tb, table, 1);
        StillTwice(old(requests), rs, requests, tb, table);
      }
    }

    // ---------- dns_alloc_pcb, dns_enqueue ----------

    /** A new pcb if udp_new succeeds and a slot is free, else one that is in use; none only if there is none. */
    method AllocPcb(created: bool) returns (k: nat)
      requires 0 < c.ports <= 255 && |pcbs| == c.ports && lastPcb < c.ports
      modifies this`pcbs, this`lastPcb
      ensures k <= c.ports && lastPcb < c.ports
      ensures pcbs == if k < c.ports then old(pcbs)[k := true] else old(pcbs)
      ensures k == c.ports <==> !created && forall j :: 0 <= j < c.ports ==> !old(pcbs)[j]
      ensures created && (exists j :: 0 <= j < c.ports && !old(pcbs)[j]) ==>
                k < c.ports && !old(pcbs)[k] && forall j :: 0 <= j < k ==> old(pcbs)[j]
      ensures k < c.ports ==> lastPcb == k
      ensures k < c.ports && old(pcbs)[k] ==>
                forall j :: 0 <= j < c.ports && Between(old(lastPcb), j, k) ==> !old(pcbs)[j]
    {
      var i := 0;
      while i < c.ports && pcbs[i]
        invariant i <= c.ports && forall j :: 0 <= j < i ==> pcbs[j]
      {
        i := i + 1;
      }
      if i < c.ports && created {
        pcbs := pcbs[i := true];
        lastPcb := i;
        return i;
      }
      assert created ==> pcbs[0];
      k := ReusePcb();
      assert k < c.ports ==> pcbs[k := true] == pcbs;
    }

    /** Round robin from the last one used. */
    method ReusePcb() returns (k: nat)
      requires 0 < c.ports <= 255 && |pcbs| == c.ports && lastPcb < c.ports
      modifies this`lastPcb
      ensures k <= c.ports && lastPcb < c.ports && (k < c.ports ==> pcbs[k])
      ensures k == c.ports <==> forall j :: 0 <= j < c.ports ==> !pcbs[j]
      ensures k < c.ports ==>
                lastPcb == k && forall j :: 0 <= j < c.ports && Between(old(lastPcb), j, k) ==> !pcbs[j]
    {
      var i, idx := 0, lastPcb + 1;
      var first := if idx >= c.ports then 0 else idx;
      while i < c.ports
        invariant i <= c.ports
        invariant if i == 0 then idx == lastPcb + 1
                  else if first + i <= c.ports then idx == first + i else idx == first + i - c.ports
        invariant forall j :: 0 <= j < c.ports && (first <= j < first + i || j < first + i - c.ports) ==> !pcbs[j]
      {
        if idx >= c.ports { idx := 0; }
        if pcbs[idx] {
          lastPcb := idx;
          return idx;
        }
        i, idx := i + 1, idx + 1;
      }
      return c.ports;
    }

    /** How many requests ago a cached answer was asked for, as an u8_t. */
    function AgeOf(e: Entry): (age: nat)
      reads this`seqno
      ensures age < 0x100 && (e.seqno + age) % 0x100 == seqno % 0x100
    {
      (seqno - e.seqno) % 0x100
    }

    /** No entry can be taken: each is pending, or cached with an age that comes out as 0. */
    ghost predicate Full()
      reads this`table, this`seqno
    {
      forall j :: 0 <= j < |table| ==> !table[j].state.Unused? && (table[j].state.Done? ==> AgeOf(table[j]) == 0)
    }

    /** Entry i is the first unused one, or there is none and it is the oldest cached one. */
    ghost predicate Takes(i: nat)
      requires i < |table|
      reads this`table, this`seqno
    {
      && (table[i].state.Unused? || table[i].state.Done?)
      && (table[i].state.Unused? ==> forall j :: 0 <= j < i ==> !table[j].state.Unused?)
      && (table[i].state.Done? ==>
            0 < AgeOf(table[i]) && forall j :: 0 <= j < |table| ==>
              !table[j].state.Unused? && (table[j].state.Done? ==> AgeOf(table[j]) <= AgeOf(table[i])))
    }

    /** The first unused entry, else the oldest cached one; one whose age comes out as 0 is never taken. */
    method FindSlot() returns (i: nat)
      ensures i <= |table|
      ensures (i == |table| <==> Full()) && (i < |table| ==> Takes(i) && !Busy(table[i]))
    {
      var lseq, lseqi: nat := 0, |table|;
      i := 0;
      while i < |table| && table[i].state != Unused
        invariant i <= |table| && lseqi <= |table|
        invariant lseqi < |table| ==> lseqi < i && table[lseqi].state.Done? && AgeOf(table[lseqi]) == lseq > 0
        invariant lseqi == |table| ==> lseq == 0
        invariant forall j :: 0 <= j < i ==>
                  !table[j].state.Unused? && (table[j].state.Done? ==> AgeOf(table[j]) <= lseq)
      {
        if table[i].state == Done && AgeOf(table[i]) > lseq { lseq, lseqi := AgeOf(table[i]), i; }
        i := i + 1;
      }
      if i == |table| { i := lseqi; }
    }

    /** No request slot is free. */
    ghost predicate NoRequest()
      reads this`requests
    {
      forall r :: 0 <= r < |requests| ==> requests[r].found.Some?
    }

    /** No pcb can be had. */
    ghost predicate NoPcb(created: bool)
      reads this`pcbs
    {
      !created && forall k :: 0 <= k < |pcbs| ==> !pcbs[k]
    }

    /** The requests are those before, but request id, if it has a callback, waits for entry i in a slot once free. */
    ghost predicate Waiting(before: seq<Request>, callback: bool, id: nat, i: nat)
      reads this`requests
    {
      exists r ::
        && 0 <= r < |before| && before[r].found.None?
        && requests == before[r := Request(if callback then Some(id) else None, i)]
    }

    /** A query for the same name and type is pending. */
    ghost predicate HasDuplicate(name: string, addr: AddrType)
      reads this`table
    {
      exists j :: 0 <= j < |table| && table[j].state.Asking? && SameName(name, table[j].name) && table[j].addr == addr
    }

    method FreeRequest() returns (r: nat)
      ensures r <= |requests| && (r < |requests| ==> requests[r].found.None?)
      ensures forall j :: 0 <= j < r ==> requests[j].found.Some?
      ensures r == |requests| <==> NoRequest()
    {
      r := 0;
      while r < |requests| && requests[r].found != None
        invariant r <= |requests| && forall j :: 0 <= j < r ==> requests[j].found.Some?
      {
        r := r + 1;
      }
    }

    /** The first pending query for the same name and address type, or the table size. */
    method FindDuplicate(name: string, addr: AddrType) returns (i: nat)
      ensures i <= |table|
      ensures i < |table| ==> table[i].state.Asking? && SameName(name, table[i].name) && table[i].addr == addr
      ensures forall j :: 0 <= j < i ==>
                !(table[j].state.Asking? && SameName(name, table[j].name) && table[j].addr == addr)
      ensures i < |table| <==> HasDuplicate(name, addr)
    {
      i := 0;
      while i < |table| && !(table[i].state == Asking && SameName(name, table[i].name) && table[i].addr == addr)
        invariant i <= |table|
        invariant forall j :: 0 <= j < i ==>
                  !(table[j].state.Asking? && SameName(name, table[j].name) && table[j].addr == addr)
      {
        i := i + 1;
      }
    }

    /** Slot r waits for entry i; a request without callback leaves the slot free. */
    method Attach(r: nat, i: nat, name: string, callback: bool)
      requires Valid() && r < |requests| && requests[r].found.None? && i < |table| && Busy(table[i])
      requires SameName(name, table[i].name)
      modifies this`requests, this`asked, this`born, this`accepted
      ensures Valid()
      ensures asked == old(asked) + (if callback then [name] else [])
      ensures born == old(born) + (if callback then [now] else [])
      ensures requests == old(requests)[r := Request(if callback then Some(old(accepted)) else None, i)]
      ensures Waiting(old(requests), callback, old(accepted), i)
    {
      AcceptAdds(requests, calls, |asked|, r, Request(if callback then Some(accepted) else None, i));
      hide CallsOk, PcbsOk, TxidsOk;
      requests := requests[r := Request(if callback then Some(accepted) else None, i)];
      if callback {
        accepted := accepted + 1;
        asked := asked + [name];
        born := born + [now];
      }
    }

    /** Entry i, not in use, becomes e, which uses the pcb just put into slot e.pcb. */
    method Claim(i: nat, e: Entry, ghost before: seq<bool>)
      requires ValidWith(before) && Settled() && i < |table| && !Busy(table[i]) && e.state.New? && e.pcb < c.ports
      requires pcbs == before[e.pcb := true]
      modifies this`table, this`past
      ensures Valid() && Quiet(i) && table == old(table)[i := e] && past == old(past)[i := Past(now, 0, 0)]
    {
      TxidsReplace(table, i, e);
      PcbTaken(table, before, i, e, e.pcb);
      ClaimKeeps(requests, table, past, asked, born, i, e, Past(now, 0, 0));
      hide CallsOk, PcbsOk, TxidsOk, NamesOk, WaitsOk, BirthsOk, CallNamesOk;
      table := table[i := e];
      past := past[i := Past(now, 0, 0)];
    }

    /**
     The second half of dns_enqueue: entry i is filled in and gets a pcb; without one it stays unused.
     The search for a source port draws from the same counter as transaction ids.
     */
    method NewQuery(i: nat, r: nat, name: string, addr: AddrType, callback: bool, created: bool,
                    draw: nat) returns (err: Err)
      requires Valid() && Settled() && i < |table| && !Busy(table[i]) && r < |requests| && requests[r].found.None?
      requires draw < 0x10000
      modifies this`sent, this`table, this`past, this`pcbs, this`lastPcb, this`txid, this`requests, this`asked,
        this`born, this`accepted, this`calls, this`seqno
      ensures Valid() && Settled() && old(calls) <= calls && |table| == |old(table)|
      ensures asked == old(asked) + (if err.InProgress? && callback then [name] else [])
      ensures born == old(born) + (if err.InProgress? && callback then [now] else [])
      ensures err.Mem? ==> calls == old(calls) && requests == old(requests)
      ensures forall j :: 0 <= j < |table| && j != i ==> table[j] == old(table[j]) && past[j] == old(past[j])
      ensures err == if old(NoPcb(created)) then Mem else InProgress
      ensures sent == old(sent) + if err.InProgress? && servers[0] then [QueryOf(table[i])] else []
      ensures err.Mem? ==> table[i].state.Unused?
      ensures err.InProgress? ==> seqno == (old(seqno) + 1) % 0x100
      ensures err.InProgress? && servers[0] ==>
                && table[i].state.Asking? && table[i].name == name && table[i].addr == addr
                && table[i].seqno == old(seqno) && table[i] == Sent(table[i], table[i].txid)
      ensures err.InProgress? && servers[0] ==>
                calls == old(calls) && Waiting(old(requests), callback, old(accepted), i)
    {
      hide CallsOk, PcbsOk, TxidsOk, NamesOk, WaitsOk, BirthsOk, CallNamesOk;
      var k := AllocPcb(created);
      txid := draw;
      var e := table[i].(state := New, name := name, addr := addr, seqno := seqno, pcb := k);
      if k == c.ports {
        ReplaceIdle(i, e.(state := Unused));
        return Mem;
      }
      Claim(i, e, old(pcbs));
      hide Valid, ValidWith;
      Launch(i, r, name, callback);
      return InProgress;
    }

    /** A prepared entry gets its callback and is sent without waiting for the timer. */
    method Launch(i: nat, r: nat, name: string, callback: bool)
      requires Valid() && Quiet(i) && i < |table| && table[i].state.New? && table[i].name == name && past[i].age == 0
      requires r < |requests| && requests[r].found.None?
      modifies this`sent, this`table, this`pcbs, this`txid, this`requests, this`asked, this`born, this`accepted,
        this`calls, this`seqno
      ensures Valid() && Settled() && old(calls) <= calls
      ensures asked == old(asked) + (if callback then [name] else [])
      ensures born == old(born) + (if callback then [now] else [])
      ensures |table| == |old(table)| && forall j :: 0 <= j < |table| && j != i ==> table[j] == old(table[j])
      ensures servers[0] ==>
                && table[i] == Sent(old(table[i]), txid) && calls == old(calls)
                && Waiting(old(requests), callback, old(accepted), i)
      ensures sent == old(sent) + if servers[0] then [QueryOf(table[i])] else []
      ensures seqno == (old(seqno) + 1) % 0x100
    {
      hide CallsOk, PcbsOk, TxidsOk, NamesOk, WaitsOk, BirthsOk, CallNamesOk, EntriesOk, PastsOk;
      Attach(r, i, name, callback);
      seqno := (seqno + 1) % 0x100;
      CheckEntry(i);
    }

    /**
     dns_enqueue: accepted requests are numbered; refused ones leave no trace among requests and calls.  The
     entry used is a pending one for the same name, or the one FindSlot takes.
     */
    method Enqueue(name: string, addr: AddrType, callback: bool, created: bool, draw: nat)
      returns (err: Err, ghost slot: nat)
      requires Valid() && Settled() && draw < 0x10000
      modifies this
      ensures Valid() && Settled() && now == old(now) && old(calls) <= calls && servers == old(servers)
      ensures |table| == |old(table)|
      ensures asked == old(asked) + (if err.InProgress? && callback then [Stored(c, name)] else [])
      ensures born == old(born) + (if err.InProgress? && callback then [now] else [])
      ensures err.Mem? ==> calls == old(calls) && requests == old(requests)
      ensures err.Mem? <==>
                || old(NoRequest())
                || (!old(HasDuplicate(Stored(c, name), addr)) && (old(Full()) || old(NoPcb(created))))
      ensures err.InProgress? && old(HasDuplicate(Stored(c, name), addr)) ==>
                table == old(table) && seqno == old(seqno) && slot < |old(table)| && old(Busy(table[slot]))
      ensures err.InProgress? && (servers[0] || old(HasDuplicate(Stored(c, name), addr))) ==>
                calls == old(calls) && Waiting(old(requests), callback, old(accepted), slot)
      ensures err.Mem? && !old(NoPcb(created)) ==> table == old(table) && seqno == old(seqno)
      ensures forall j :: 0 <= j < |table| && old(Busy(table[j])) ==>
                table[j] == old(table[j]) && past[j] == old(past[j])
      ensures err.Mem? || err.InProgress?
      ensures err.InProgress? ==>
                slot < |table| && forall j :: 0 <= j < |table| && j != slot ==> table[j] == old(table[j])
      ensures err.InProgress? && old(Busy(table[slot])) ==>
                SameName(Stored(c, name), old(table[slot].name)) && old(table[slot].addr) == addr
      ensures sent == old(sent) + if err.InProgress? && !old(Busy(table[slot])) && servers[0]
                                  then [QueryOf(table[slot])] else []
      ensures err.InProgress? && !old(Busy(table[slot])) ==> old(Takes(slot)) && seqno == (old(seqno) + 1) % 0x100
      ensures err.InProgress? && !old(Busy(table[slot])) && servers[0] ==>
                && table[slot].state.Asking? && table[slot].name == Stored(c, name) && table[slot].addr == addr
                && table[slot].seqno == old(seqno) && table[slot] == Sent(table[slot], table[slot].txid)
    {
      hide *;
      Bounds();
      var stored := Stored(c, name);
      slot := |table|;
      var d := FindDuplicate(stored, addr);
      var r := FreeRequest();
      if d < |table| && r < |requests| {
        Attach(r, d, stored, callback);
        return InProgress, d;
      }
      var i := FindSlot();
      if i == |table| || r == |requests| { return Mem, |table|; }
      err := NewQuery(i, r, stored, addr, callback, created, draw);
      slot := i;
    }

    lemma CalledUnlessAsking(id: nat, i: nat)
      requires Valid() && Settled() && id < accepted && i < |table| && WaitsFor(requests, table, id, i)
      ensures Called(calls, id) == if table[i].state.Asking? then 0 else 1
    {
      CalledOnce(requests, calls, accepted, id);
      hide CallsOk, PcbsOk, TxidsOk, NamesOk, BirthsOk, CallNamesOk, EntriesOk, PastsOk, Called;
    }

    /** A request with a callback starts a query of its own. */
    method AskFirst(name: string, addr: AddrType, draw: nat) returns (ghost slot: nat)
      requires Valid() && Settled() && draw < 0x10000 && servers[0]
      requires !NoRequest() && !Full() && !HasDuplicate(Stored(c, name), addr)
      modifies this
      ensures Valid() && Settled() && servers == old(servers) && accepted == old(accepted) + 1 && calls == old(calls)
      ensures slot < |table| && table[slot].state.Asking? && table[slot] == Sent(table[slot], table[slot].txid)
      ensures table[slot].pcb < c.ports && WaitsFor(requests, table, old(accepted), slot)
      ensures forall j :: 0 <= j < |calls| ==> calls[j].id != old(accepted)
    {
      ghost var id := accepted;
      NotYet(id);
      var err;
      err, slot := Enqueue(name, addr, true, true, draw);
      Accepted();
      PcbOf(slot);
      hide Valid, Settled;
      ghost var r :| 0 <= r < |old(requests)| && requests == old(requests)[r := Request(Some(id), slot)];
      assert requests[r] == Request(Some(id), slot);
    }

    lemma Accepted()
      requires Valid()
      ensures accepted == |asked|
    {
    }

    /**
     A request that starts a query which is never answered: its callback is called, with failure, at tick
     k * (1 + R * (R - 1) / 2) and not before, where the first k servers are set and R is the number of retries.
     */
    method Unanswered(name: string, addr: AddrType, draw: nat, k: nat, n: nat)
      requires Valid() && Settled() && draw < 0x10000 && SetUpTo(c, servers, k)
      requires !NoRequest() && !Full() && !HasDuplicate(Stored(c, name), addr)
      modifies this
      ensures Valid() && Settled() && accepted == old(accepted) + 1
      ensures Called(calls, old(accepted)) == if n < k * (1 + c.retries * (c.retries - 1) / 2) then 0 else 1
      ensures forall j :: 0 <= j < |calls| && calls[j].id == old(accepted) ==> !calls[j].ok
    {
      assert ConfigOk(c) && servers[0];
      hide Valid, Full, NoRequest, HasDuplicate, Ticks, Called, ConfigOk, SetUpTo, EntryOk, WaitsFor, StillWaiting;
      ghost var slot := AskFirst(name, addr, draw);
      GivenUpExactly(c, servers, table[slot], table[slot].txid, k, n);
      ghost var before, t := requests, table;
      Elapse(n);
      AskedBefore(c, servers, t, table, n);
      StillWaitsFor(before, t, requests, table, old(accepted), slot);
      CalledUnlessAsking(old(accepted), slot);
    }

    lemma Bounds()
      requires Valid() && Settled()
      ensures 0 < |servers| == c.servers && 0 < c.nameLength && |table| == |past| == |requests|
      ensures forall j :: 0 <= j < |table| ==> (Busy(table[j]) <==> table[j].state.Asking?)
    {
    }

    lemma NotYet(id: nat)
      requires Valid() && id == accepted
      ensures forall r :: 0 <= r < |requests| ==> requests[r].found != Some(id)
      ensures forall j :: 0 <= j < |calls| ==> calls[j].id != id
    {
    }

    lemma PcbOf(i: nat)
      requires Valid() && i < |table| && table[i].state.Asking?
      ensures table[i].pcb < c.ports && ConfigOk(c)
    {
    }

    // ---------- dns_recv ----------

    /** An error response when there is another server: go on with that one at once. */
    method NextServer(i: nat)
      requires Valid() && Settled() && i < |table| && table[i].state.Asking? && Backup(table[i])
      modifies this`sent, this`table, this`requests, this`pcbs, this`calls, this`txid
      ensures Valid() && Settled() && old(calls) <= calls
      ensures |table| == |old(table)| && table[i] == Redirected(old(table[i]))
      ensures sent == old(sent) + [QueryOf(table[i])]
      ensures calls == old(calls) && StillWaiting(old(requests), requests, table)
      ensures forall j :: 0 <= j < |table| && j != i ==> table[j] == old(table[j])
    {
      var e := table[i].(retries := c.retries - 1, tmr := 1);
      TriMonotone(table[i].retries, c.retries - 1);
      Replace(i, e);
      CheckEntry(i);
    }

    /** No address of the preferred type: ask for the other type, once. */
    method TryOtherType(i: nat)
      requires Valid() && Settled() && i < |table| && table[i].state.Asking? && Dual(table[i].addr)
      modifies this`sent, this`table, this`requests, this`pcbs, this`calls, this`txid, this`past
      ensures Valid() && Settled() && old(calls) <= calls
      ensures forall j :: 0 <= j < |table| && j != i ==> table[j] == old(table[j]) && past[j] == old(past[j])
      ensures past[i].restarts == 1 && (table[i].state.Asking? ==> !Dual(table[i].addr))
      ensures table[i] == Begun(OtherType(old(table[i])))
      ensures sent == old(sent) + if servers[0] then [QueryOf(table[i])] else []
      ensures forall k :: |old(calls)| <= k < |calls| ==> !calls[k].ok
      ensures StillWaiting(old(requests), requests, table)
    {
      var e := OtherType(table[i]).(state := New);
      Restart(i, e);
      CheckEntry(i);
    }

    method Restart(i: nat, e: Entry)
      requires Valid() && Settled() && i < |table| && table[i].state.Asking? && Dual(table[i].addr)
      requires e.state.New? && !Dual(e.addr) && e.pcb == table[i].pcb && e.name == table[i].name
      modifies this`table, this`past
      ensures Valid() && Quiet(i) && table == old(table)[i := e]
      ensures past == old(past)[i := Past(old(past[i]).start, 0, 1)]
    {
      TxidsReplace(table, i, e);
      PcbsReplace(table, pcbs, i, e);
      hide CallsOk, PcbsOk, CallNamesOk, TxidsOk;
      table := table[i := e];
      past := past[i := Past(past[i].start, 0, 1)];
    }

    /** What a reply makes of the entry it answers. */
    ghost predicate Responds(e: Entry, reply: Reply, after: Entry)
      requires 0 < |servers| == c.servers
      reads this`servers, this`txid
    {
      match reply
      case Ignored => after == e
      case Failure => after == if Backup(e) then Redirected(e) else Answered(c, e, false).(state := Unused)
      case NoAddress =>
        after == if Dual(e.addr) then Begun(OtherType(e)) else Answered(c, e, false).(state := Unused)
      case Address(ttl) => after == Cached(c, e, ttl)
    }

    /** dns_recv for the entry that a reply answers. */
    method Respond(i: nat, reply: Reply)
      requires Valid() && Settled() && i < |table| && table[i].state.Asking?
      modifies this`sent, this`table, this`requests, this`pcbs, this`calls, this`txid, this`past
      ensures Valid() && Settled() && old(calls) <= calls && |table| == |old(table)|
      ensures forall j :: 0 <= j < |table| && j != i ==> table[j] == old(table[j]) && past[j] == old(past[j])
      ensures Responds(old(table[i]), reply, table[i]) && (reply.Ignored? ==> calls == old(calls))
      ensures sent == old(sent) + if table[i].state.Asking? && !reply.Ignored? then [QueryOf(table[i])] else []
      ensures forall k :: |old(calls)| <= k < |calls| ==> calls[k].ok == reply.Address?
      ensures StillWaiting(old(requests), requests, table)
    {
      match reply
      case Ignored =>
      case Failure =>
        if Backup(table[i]) { NextServer(i); } else { Finish(i, false, Unused); }
      case NoAddress =>
        if Dual(table[i].addr) { TryOtherType(i); } else { Finish(i, false, Unused); }
      case Address(ttl) =>
        var t := Min(ttl, c.maxTtl);
        Replace(i, table[i].(ttl := t));
        Finish(i, true, if t == 0 then Unused else Done);
    }

    /** dns_recv, once a packet has been read as a reply to the query with the given id. */
    method Receive(id: nat, reply: Reply)
      requires Valid() && Settled()
      modifies this`sent, this`table, this`requests, this`pcbs, this`calls, this`txid, this`past
      ensures Valid() && Settled() && old(calls) <= calls && |table| == |old(table)|
      ensures forall j :: 0 <= j < |table| && !(old(table[j].state.Asking?) && old(table[j].txid) == id) ==>
                table[j] == old(table[j]) && past[j] == old(past[j])
      ensures reply.Ignored? ==> table == old(table) && calls == old(calls)
      ensures forall j :: 0 <= j < |table| && old(table[j].state.Asking?) && old(table[j].txid) == id ==>
                Responds(old(table[j]), reply, table[j])
      ensures (forall j :: 0 <= j < |table| ==> !(old(table[j].state.Asking?) && old(table[j].txid) == id)) ==>
                sent == old(sent)
      ensures forall j :: 0 <= j < |table| && old(table[j].state.Asking?) && old(table[j].txid) == id ==>
                sent == old(sent) + if table[j].state.Asking? && !reply.Ignored? then [QueryOf(table[j])] else []
      ensures forall k :: |old(calls)| <= k < |calls| ==> calls[k].ok == reply.Address?
      ensures StillWaiting(old(requests), requests, table)
    {
      hide CallsOk, PcbsOk, NamesOk, WaitsOk, BirthsOk, CallNamesOk, EntriesOk, PastsOk;
      var i := FindTxid(id);
      if i < |table| { Respond(i, reply); }
    }

    /** dns_setserver */
    method SetServer(k: nat, valid: bool)
      requires Valid() && Settled()
      modifies this`servers
      ensures Valid() && Settled()
      ensures servers == if k < c.servers then old(servers)[k := valid] else old(servers)
    {
      if k < c.servers { servers := servers[k := valid]; }
    }

    // ---------- what follows in every state of every run ----------

    /** No query goes on for S * (1 + R * (R - 1) / 2) ticks; its address type is changed at most once. */
    lemma QueriesEnd(i: nat)
      requires Valid() && i < |table| && table[i].state.Asking?
      ensures past[i].age < c.servers * (1 + c.retries * (c.retries - 1) / 2) && past[i].restarts <= 1
    {
      RoundsClosed(c, c.servers);
    }

    /** A request is called back at most once; exactly once as soon as it is old enough, whatever happens. */
    lemma CalledBackOnce(id: nat)
      requires Valid() && Settled() && id < accepted
      ensures Called(calls, id) <= 1
      ensures born[id] + 2 * (c.servers * (1 + c.retries * (c.retries - 1) / 2)) <= now ==> Called(calls, id) == 1
      ensures (forall i :: 0 <= i < |table| ==> !Busy(table[i])) ==> Called(calls, id) == 1
    {
      RoundsClosed(c, c.servers);
      CalledOnce(requests, calls, accepted, id);
      hide Called, CallsOk, Rounds, Remaining;
      forall r | 0 <= r < |requests| && requests[r].found == Some(id)
        ensures Busy(table[requests[r].idx]) && now < born[id] + 2 * Rounds(c, c.servers)
      {
        var i := requests[r].idx;
        assert PastOk(c, table[i], past[i], now);
      }
    }

    /** Asking entries have distinct ids, and a pcb is open exactly while an asking entry uses it. */
    lemma TablesConsistent(k: nat)
      requires Valid() && Settled() && k < c.ports
      ensures pcbs[k] <==> exists i :: 0 <= i < |table| && table[i].state.Asking? && table[i].pcb == k
      ensures forall i, j :: 0 <= i < j < |table| && table[i].state.Asking? && table[j].state.Asking? ==>
                table[i].txid != table[j].txid
    {
      assert pcbs[k] <==> UsesPcb(table, k);
      assert forall i :: 0 <= i < |table| ==> EntryOk(c, table[i]);
    }
  }

  datatype Event =
    | Ask(name: string, addr: AddrType, callback: bool, created: bool, draw: nat)
    | Timer
    | Packet(id: nat, reply: Reply)
    | Server(k: nat, valid: bool)

  /** Every run of the resolver stays in a valid state. */
  method Run(c: Config, servers: seq<bool>, script: seq<Event>) returns (d: Resolver)
    requires ConfigOk(c) && |servers| == c.servers
    ensures d.Valid() && d.Settled()
    ensures forall id :: 0 <= id < d.accepted ==> Called(d.calls, id) <= 1
    ensures forall id :: 0 <= id < d.accepted && d.born[id] + 2 * Rounds(c, c.servers) <= d.now ==>
              Called(d.calls, id) == 1
    ensures forall i :: 0 <= i < |d.table| && d.table[i].state.Asking? ==> d.past[i].age < Rounds(c, c.servers)
  {
    d := new Resolver(c, servers);
    for i := 0 to |script|
      invariant fresh(d) && d.Valid() && d.Settled() && d.c == c
    {
      match script[i]
      case Ask(name, addr, callback, created, draw) =>
        ghost var slot;
        var err;
        err, slot := d.Enqueue(name, addr, callback, created, draw % 0x10000);
      case Timer => d.Tick();
      case Packet(id, reply) => d.Receive(id, reply);
      case Server(k, valid) => d.SetServer(k, valid);
    }
    RoundsClosed(c, c.servers);
    forall id | 0 <= id < d.accepted
      ensures Called(d.calls, id) <= 1 && (d.born[id] + 2 * Rounds(c, c.servers) <= d.now ==> Called(d.calls, id) == 1)
    {
      d.CalledBackOnce(id);
    }
  }

  lemma ClaimKeeps(rs: seq<Request>, t: seq<Entry>, past: seq<Past>, asked: seq<string>, born: seq<nat>, i: nat,
                   e: Entry, p: Past)
    requires NamesOk(rs, t, asked) && WaitsOk(rs, t) && BirthsOk(rs, past, born) && i < |t| == |past| && !Busy(t[i])
    ensures NamesOk(rs, t[i := e], asked) && WaitsOk(rs, t[i := e]) && BirthsOk(rs, past[i := p], born)
  {
  }

  /** An entry after dns_call_found: without pcb, and with the address type that was found. */
  function Answered(c: Config, e: Entry, ok: bool): Entry {
    e.(pcb := c.ports, addr := if ok then Single(e.addr) else e.addr)
  }

  /** An entry after an answer with the given time to live, which is cut to the maximum; 0 is not cached. */
  function Cached(c: Config, e: Entry, ttl: nat): Entry {
    var t := Min(ttl, c.maxTtl);
    Answered(c, e.(ttl := t), true).(state := if t == 0 then Unused else Done)
  }

  /** An answer is kept for exactly as many ticks as it may live, but for no more than the maximum. */
  lemma AnswerKept(c: Config, servers: seq<bool>, e: Entry, ttl: nat, n: nat)
    requires ConfigOk(c) && |servers| == c.servers
    ensures EntryOk(c, Cached(c, e, ttl))
    ensures Ticks(c, servers, Cached(c, e, ttl), n).state.Done? <==> n < Min(ttl, c.maxTtl)
  {
    if 0 < Min(ttl, c.maxTtl) {
      KeptFor(c, servers, Cached(c, e, ttl), n);
    } else {
      UnusedStays(c, servers, Cached(c, e, ttl), n);
    }
  }

  lemma {:induction false} UnusedStays(c: Config, servers: seq<bool>, e: Entry, n: nat)
    requires ConfigOk(c) && |servers| == c.servers && EntryOk(c, e) && e.state.Unused?
    ensures Ticks(c, servers, e, n) == e
  {
    if n > 0 { UnusedStays(c, servers, e, n - 1); }
  }

  /** An entry that asks for the address type it did not ask for first. */
  function OtherType(e: Entry): (r: Entry)
    ensures Dual(e.addr) ==> !Dual(r.addr) && (AsksV6(r.addr) <==> !AsksV6(e.addr))
  {
    e.(addr := if e.addr == V4ThenV6 then V6 else V4)
  }

  /** Going up cyclically from a, j comes after a and before b. */
  predicate Between(a: nat, j: nat, b: nat) {
    if a < b then a < j < b else a < j || j < b
  }

  lemma StillSame(rs: seq<Request>, t: seq<Entry>)
    ensures StillWaiting(rs, rs, t)
  {
  }

  /** One tick later. */
  function Older(p: Past): Past {
    p.(age := p.age + 1)
  }

  function Single(a: AddrType): (r: AddrType)
    ensures !Dual(r) && (AsksV6(r) <==> AsksV6(a))
  {
    match a
    case V4ThenV6 => V4
    case V6ThenV4 => V6
    case _ => a
  }

  /** Once the callbacks of idx are cleared, the rest do not depend on that entry. */
  lemma FinishKeeps(before: seq<Request>, rs: seq<Request>, t: seq<Entry>, past: seq<Past>, asked: seq<string>,
                    born: seq<nat>, idx: nat, e: Entry)
    requires NamesOk(before, t, asked) && WaitsOk(before, t) && BirthsOk(before, past, born)
    requires Cleared(before, rs, idx) && idx < |t|
    ensures NamesOk(rs, t[idx := e], asked) && WaitsOk(rs, t[idx := e]) && BirthsOk(rs, past, born)
  {
  }

  lemma {:induction false} NothingPending(rs: seq<Request>)
    requires forall i :: 0 <= i < |rs| ==> rs[i].found.None?
    ensures CallsOk(rs, [], 0)
  {
    forall id: nat ensures Pending(rs, id) == 0 {
      if Pending(rs, id) > 0 { var i := PendingFrom(rs, id); }
    }
  }

  /** How far the counter has come from one value to another. */
  function Distance(from: nat, to: nat): nat
    requires from < 0x10000 && to < 0x10000
  {
    if from <= to then to - from else to + 0x10000 - from
  }

  lemma NextDistance(from: nat, to: nat)
    requires from < 0x10000 && to < 0x10000 && Distance(from, to) < 0xffff
    ensures Distance(from, (to + 1) % 0x10000) == Distance(from, to) + 1
  {
  }

  lemma {:induction false} InUseBound(t: seq<Entry>)
    ensures |(set i | 0 <= i < |t| && t[i].state.Asking? :: t[i].txid)| <= |t|
  {
    var s := set i | 0 <= i < |t| && t[i].state.Asking? :: t[i].txid;
    if t == [] {
      assert s == {};
    } else {
      var t' := t[..|t| - 1];
      var s' := set i | 0 <= i < |t'| && t'[i].state.Asking? :: t'[i].txid;
      InUseBound(t');
      assert s <= s' + {t[|t| - 1].txid};
      SubsetSize(s, s' + {t[|t| - 1].txid});
    }
  }

  lemma {:induction false} SubsetSize(a: set<nat>, b: set<nat>)
    requires a <= b
    ensures |a| <= |b|
    decreases a
  {
    if a != {} {
      var x :| x in a;
      SubsetSize(a - {x}, b - {x});
    }
  }

  // ---------- a cached entry that is never reused ----------

  const TWO_ENTRIES: Config := Config(2, 2, 1, 4, 256, 604800)

  /** Entry 0 holds the answer to the first request, entry 1 is unused, and seqno requests were made. */
  ghost predicate OneCached(d: Resolver, seqno: nat)
    reads d
  {
    && d.Valid() && d.Settled() && d.c == TWO_ENTRIES && d.servers == [true] && d.asked == [] && d.seqno == seqno
    && |d.table| == 2 && d.table[0].state.Done? && d.table[0].seqno == 0 && d.table[1].state.Unused?
  }

  /** Without callbacks no request slot is ever taken. */
  lemma NothingWaits(d: Resolver)
    requires d.Valid() && d.asked == []
    ensures |d.table| == |d.requests| == d.c.size && |d.servers| == d.c.servers && 0 < d.c.size && !d.NoRequest()
  {
    PendingIfFound(d.requests, 0);
  }

  /** The next request takes entry 1. */
  lemma TakesSecond(d: Resolver, name: string)
    requires OneCached(d, d.seqno)
    ensures !d.NoRequest() && !d.Full() && !d.HasDuplicate(name, V4) && !d.NoPcb(true)
    ensures forall i: nat :: i < |d.table| && d.Takes(i) ==> i == 1
    ensures |d.table| == 2 && |d.servers| == d.c.servers && !Busy(d.table[1])
  {
    NothingWaits(d);
    hide Resolver.Valid;
  }

  /** A failure leaves entry 1 unused. */
  method FailSecond(d: Resolver)
    requires d.Valid() && d.Settled() && |d.table| == 2 && |d.servers| == d.c.servers == 1
    requires d.table[1].state.Asking? && !d.table[0].state.Asking?
    modifies d
    ensures d.Valid() && d.Settled() && |d.table| == 2 && d.table[0] == old(d.table[0]) && d.table[1].state.Unused?
    ensures d.servers == old(d.servers) && d.asked == old(d.asked) && d.seqno == old(d.seqno)
  {
    hide Resolver.Valid, Resolver.ValidWith, StillWaiting;
    d.Receive(d.table[1].txid, Failure);
  }

  /** A request that is refused by the server uses entry 1 and leaves it unused. */
  method OneFailure(d: Resolver)
    requires OneCached(d, d.seqno) && d.seqno < 255
    modifies d
    ensures OneCached(d, old(d.seqno) + 1)
  {
    hide Resolver.Valid, Resolver.ValidWith, Resolver.Waiting, Resolver.Full, Resolver.HasDuplicate, Resolver.NoPcb,
      Resolver.NoRequest, Resolver.Takes, StillWaiting;
    TakesSecond(d, Stored(d.c, "b"));
    ghost var slot;
    var err;
    err, slot := d.Enqueue("b", V4, false, true, 0);
    FailSecond(d);
  }

  /**
   A cached entry exactly 256 requests old is not reused: the table counts as full although one of its two
   entries is only a cached answer, with request slots and pcbs to spare.
   */
  method CachedEntryNotReused() returns (d: Resolver, err: Err)
    ensures d.Valid() && d.Settled() && err.Mem?
    ensures |d.table| == 2 && d.table[0].state.Done? && !d.NoRequest() && d.AgeOf(d.table[0]) == 0
  {
    hide Resolver.Valid, Resolver.ValidWith, StillWaiting, Resolver.Waiting;
    d := FirstAnswer();
    while d.seqno < 255
      invariant fresh(d) && d.seqno <= 255 && OneCached(d, d.seqno)
      decreases 255 - d.seqno
    {
      OneFailure(d);
    }
    NothingWaits(d);
    ghost var slot;
    err, slot := d.Enqueue("b", V4, false, true, 0);
    NothingWaits(d);
    assert !SameName("c", "b") by { assert LowerChar("c"[0]) != LowerChar("b"[0]); }
    err, slot := d.Enqueue("c", V4, false, true, 0);
    NothingWaits(d);
  }

  method FirstAnswer() returns (d: Resolver)
    ensures fresh(d) && OneCached(d, 1)
  {
    hide Resolver.Valid, Resolver.ValidWith, StillWaiting, Resolver.Waiting;
    d := new Resolver(TWO_ENTRIES, [true]);
    NothingWaits(d);
    ghost var slot;
    var err;
    err, slot := d.Enqueue("a", V4, false, true, 0);
    NothingWaits(d);
    d.Receive(d.table[0].txid, Address(3600));
  }
}
