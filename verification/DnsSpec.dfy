/**
 lwip/core/dns.c: the records of the resolver and the laws its tables keep.

 The variant is the one without LWIP_DNS_SECURE_RAND_XID (transaction ids come from a counter) and
 with LWIP_DNS_SECURE_NO_MULTIPLE_OUTSTANDING and LWIP_DNS_SECURE_RAND_SRC_PORT, where
 DNS_MAX_REQUESTS equals DNS_TABLE_SIZE.
 */
module DnsSpec {
  import opened Basics

  datatype Phase = Unused | New | Asking | Done

  datatype AddrType = V4 | V6 | V4ThenV6 | V6ThenV4

  /** struct dns_table_entry; pcb is an index into dns_pcbs, or the number of source ports for none. */
  datatype Entry = Entry(state: Phase, name: string, txid: nat, server: nat, tmr: int, retries: nat,
                         ttl: nat, seqno: nat, addr: AddrType, pcb: nat)

  /** struct dns_req_entry; a callback is known by the number its request got when it was accepted. */
  datatype Request = Request(found: Option<nat>, idx: nat)

  /** A query that dns_send sends: to which server, with which id, for which name and kind of record. */
  datatype Query = Query(server: nat, id: nat, name: string, v6: bool)

  function QueryOf(e: Entry): Query {
    Query(e.server, e.txid, e.name, AsksV6(e.addr))
  }

  /** A call of a callback: whose, with which name, and whether with an address. */
  datatype Call = Call(id: nat, name: string, ok: bool)

  /** DNS_TABLE_SIZE, DNS_MAX_SOURCE_PORTS, DNS_MAX_SERVERS, DNS_MAX_RETRIES, DNS_MAX_NAME_LENGTH, DNS_MAX_TTL */
  datatype Config = Config(size: nat, ports: nat, servers: nat, retries: nat, nameLength: nat, maxTtl: nat)

  predicate ConfigOk(c: Config) {
    0 < c.size <= 255 && 0 < c.ports <= 255 && 0 < c.servers <= 255 && 0 < c.retries <= 255 && 0 < c.nameLength
  }

  // ---------- the timer ----------

  function Tri(n: nat): nat {
    if n == 0 then 0 else n + Tri(n - 1)
  }

  lemma {:induction false} TriClosed(n: nat)
    ensures 2 * Tri(n) == n * (n + 1)
  {
    if n > 0 { TriClosed(n - 1); }
  }

  lemma {:induction false} TriMonotone(m: nat, n: nat)
    requires m <= n
    ensures Tri(m) <= Tri(n)
  {
    if m < n { TriMonotone(m, n - 1); }
  }

  /** Ticks a query spends on k servers: one, then 1, 2, ... up to retries - 1 for each. */
  function Rounds(c: Config, k: nat): nat
    requires 0 < c.retries
  {
    if k == 0 then 0 else 1 + Tri(c.retries - 1) + Rounds(c, k - 1)
  }

  /** In closed form: S * (1 + R * (R - 1) / 2). */
  lemma {:induction false} RoundsClosed(c: Config, k: nat)
    requires 0 < c.retries
    ensures Rounds(c, k) == k * (1 + c.retries * (c.retries - 1) / 2)
  {
    var t := 1 + c.retries * (c.retries - 1) / 2;
    TriClosed(c.retries - 1);
    if k > 0 {
      RoundsClosed(c, k - 1);
      assert k * t == (k - 1) * t + t;
    }
  }

  predicate TimerOk(c: Config, e: Entry) {
    e.server < c.servers && e.retries < c.retries && 1 <= e.tmr && (e.tmr == 1 || e.tmr <= e.retries)
  }

  /** Ticks left before an asking entry gives up, if no answer comes. */
  function Remaining(c: Config, e: Entry): (r: nat)
    requires 0 < c.retries && TimerOk(c, e)
    ensures 0 < r
  {
    TriMonotone(e.retries, c.retries - 1);
    e.tmr + (Tri(c.retries - 1) - Tri(e.retries)) + Rounds(c, c.servers - 1 - e.server)
  }

  /** A new entry once its query is sent. */
  function Sent(e: Entry, id: nat): Entry {
    e.(txid := id, state := Asking, server := 0, tmr := 1, retries := 0)
  }

  /** An entry that goes on with the next server. */
  function Redirected(e: Entry): Entry {
    e.(server := e.server + 1, tmr := 1, retries := 0)
  }

  /** The entry after a tick of dns_check_entry, unless it gives up. */
  function Ticked(c: Config, e: Entry, backup: bool): Option<Entry>
    requires TimerOk(c, e) && (backup ==> e.server + 1 < c.servers)
  {
    if e.tmr != 1 then Some(e.(tmr := e.tmr - 1))
    else if e.retries + 1 != c.retries then Some(e.(tmr := e.retries + 1, retries := e.retries + 1))
    else if backup then Some(Redirected(e))
    else None
  }

  /** Every tick uses up exactly one of the ticks left; an entry that gives up had no server left to try. */
  lemma TickUsesOne(c: Config, e: Entry, backup: bool)
    requires 0 < c.retries && TimerOk(c, e) && (backup ==> e.server + 1 < c.servers)
    ensures Ticked(c, e, backup).Some? ==>
              TimerOk(c, Ticked(c, e, backup).value) && Remaining(c, Ticked(c, e, backup).value) == Remaining(c, e) - 1
    ensures Ticked(c, e, backup).None? ==> !backup && Remaining(c, e) == 1 + Rounds(c, c.servers - 1 - e.server)
  {
  }

  /** With k servers to try, an entry gives up exactly with the last of the ticks it has left. */
  lemma GivesUpLast(c: Config, e: Entry, k: nat)
    requires 0 < c.retries && TimerOk(c, e) && e.server < k <= c.servers
    ensures TimerOk(c.(servers := k), e)
    ensures Ticked(c, e, e.server + 1 < k).None? <==> Remaining(c.(servers := k), e) == 1
    ensures Ticked(c, e, e.server + 1 < k).Some? ==>
              var e' := Ticked(c, e, e.server + 1 < k).value;
              && e'.server < k && TimerOk(c.(servers := k), e')
              && Remaining(c.(servers := k), e') == Remaining(c.(servers := k), e) - 1
  {
    var c' := c.(servers := k);
    TickUsesOne(c', e, e.server + 1 < k);
    assert Rounds(c', 0) == 0;
    TriMonotone(e.retries, c.retries - 1);
    if e.retries + 1 < c.retries { TriMonotone(e.retries + 1, c.retries - 1); }
  }

  // ---------- whole entries over time ----------

  /** An entry holds a pcb exactly while its query is being prepared or asked. */
  predicate EntryOk(c: Config, e: Entry) {
    e.pcb <= c.ports && (e.pcb < c.ports <==> Busy(e)) && (e.state.Asking? ==> TimerOk(c, e))
  }

  predicate Busy(e: Entry) {
    e.state.Asking? || e.state.New?
  }

  /** A query that ends without an answer. */
  function Dropped(c: Config, e: Entry): Entry {
    e.(state := Unused, pcb := c.ports)
  }

  /** dns_backupserver_available */
  predicate HasBackup(c: Config, servers: seq<bool>, e: Entry)
    requires |servers| == c.servers
  {
    e.server + 1 < c.servers && servers[e.server + 1]
  }

  /** A pending entry after a tick: it waits, is sent again, changes server, or is given up; one sent to a server that
      is not set any more ends. */
  function Retried(c: Config, servers: seq<bool>, e: Entry): (r: Entry)
    requires ConfigOk(c) && |servers| == c.servers && EntryOk(c, e) && e.state.Asking?
    ensures EntryOk(c, r) && (r.state.Asking? || r.state.Unused?)
  {
    TickUsesOne(c, e, HasBackup(c, servers, e));
    match Ticked(c, e, HasBackup(c, servers, e))
    case None => Dropped(c, e)
    case Some(x) => if e.tmr == 1 && !servers[x.server] then Dropped(c, x) else x
  }

  /** The query a tick sends for an entry, if any. */
  function Resent(c: Config, servers: seq<bool>, e: Entry): (r: seq<Query>)
    requires ConfigOk(c) && |servers| == c.servers && EntryOk(c, e)
    ensures !e.state.Asking? ==> r == []
  {
    if !e.state.Asking? then []
    else
      TickUsesOne(c, e, HasBackup(c, servers, e));
      match Ticked(c, e, HasBackup(c, servers, e))
      case None => []
      case Some(x) => if e.tmr == 1 && servers[x.server] then [QueryOf(x)] else []
  }

  /** The queries a tick sends for the first n entries. */
  function ResentAll(c: Config, servers: seq<bool>, t: seq<Entry>, n: nat): seq<Query>
    requires TableOk(c, servers, t) && n <= |t|
  {
    if n == 0 then [] else ResentAll(c, servers, t, n - 1) + Resent(c, servers, t[n - 1])
  }

  lemma ResentNext(c: Config, servers: seq<bool>, t: seq<Entry>, n: nat)
    requires TableOk(c, servers, t) && n < |t|
    ensures ResentAll(c, servers, t, n + 1) == ResentAll(c, servers, t, n) + Resent(c, servers, t[n])
    ensures ResentAll(c, servers, t, 0) == []
  {
  }

  /** Any entry after n ticks in which nothing else happens. */
  function Ticks(c: Config, servers: seq<bool>, e: Entry, n: nat): (r: Entry)
    requires ConfigOk(c) && |servers| == c.servers && EntryOk(c, e) && !e.state.New?
    ensures EntryOk(c, r) && !r.state.New?
  {
    if n == 0 then e
    else
      var x := Ticks(c, servers, e, n - 1);
      match x.state
      case Asking => Retried(c, servers, x)
      case Done => if x.ttl <= 1 then x.(state := Unused) else x.(ttl := x.ttl - 1)
      case _ => x
  }

  lemma OneMoreTick(c: Config, servers: seq<bool>, e: Entry, n: nat)
    requires ConfigOk(c) && |servers| == c.servers && EntryOk(c, e) && !e.state.New?
    ensures Ticks(c, servers, Ticks(c, servers, e, n), 1) == Ticks(c, servers, e, n + 1)
  {
    assert Ticks(c, servers, Ticks(c, servers, e, n), 0) == Ticks(c, servers, e, n);
  }

  ghost predicate TableOk(c: Config, servers: seq<bool>, t: seq<Entry>) {
    ConfigOk(c) && |servers| == c.servers && forall i :: 0 <= i < |t| ==> EntryOk(c, t[i]) && !t[i].state.New?
  }

  /** The first n entries have had a tick. */
  ghost predicate TickedUpTo(c: Config, servers: seq<bool>, before: seq<Entry>, after: seq<Entry>, n: nat)
    requires TableOk(c, servers, before)
  {
    && |after| == |before|
    && (forall i :: 0 <= i < |after| && i < n ==> after[i] == Ticks(c, servers, before[i], 1))
    && (forall i :: 0 <= i < |after| && n <= i ==> after[i] == before[i])
  }

  lemma TickedNone(c: Config, servers: seq<bool>, t: seq<Entry>)
    requires TableOk(c, servers, t)
    ensures TickedUpTo(c, servers, t, t, 0)
  {
  }

  lemma TickedOne(c: Config, servers: seq<bool>, before: seq<Entry>, after: seq<Entry>, n: nat)
    requires TableOk(c, servers, before) && TickedUpTo(c, servers, before, after, n) && n < |before|
    ensures |after| == |before| && after[n] == before[n]
    ensures TickedUpTo(c, servers, before, after[n := Ticks(c, servers, before[n], 1)], n + 1)
  {
    hide Ticks;
  }

  /** All entries have had n ticks. */
  ghost predicate TickedAll(c: Config, servers: seq<bool>, before: seq<Entry>, after: seq<Entry>, n: nat)
    requires TableOk(c, servers, before)
  {
    |after| == |before| && forall i :: 0 <= i < |after| ==> after[i] == Ticks(c, servers, before[i], n)
  }

  lemma TickedMore(c: Config, servers: seq<bool>, a: seq<Entry>, b: seq<Entry>, d: seq<Entry>, n: nat)
    requires TableOk(c, servers, a) && TickedAll(c, servers, a, b, n)
    requires TableOk(c, servers, b) && TickedAll(c, servers, b, d, 1)
    ensures TickedAll(c, servers, a, d, n + 1)
  {
    forall i | 0 <= i < |d| ensures d[i] == Ticks(c, servers, a[i], n + 1) {
      OneMoreTick(c, servers, a[i], n);
    }
  }

  lemma {:induction false} AskingBefore(c: Config, servers: seq<bool>, e: Entry, n: nat)
    requires ConfigOk(c) && |servers| == c.servers && EntryOk(c, e) && !e.state.New?
    ensures Ticks(c, servers, e, n).state.Asking? ==> e.state.Asking?
  {
    if n > 0 { AskingBefore(c, servers, e, n - 1); }
  }

  lemma AskedBefore(c: Config, servers: seq<bool>, before: seq<Entry>, after: seq<Entry>, n: nat)
    requires TableOk(c, servers, before) && TickedAll(c, servers, before, after, n)
    ensures |after| == |before| && forall i :: 0 <= i < |after| && after[i].state.Asking? ==> before[i].state.Asking?
  {
    forall i | 0 <= i < |after| ensures after[i].state.Asking? ==> before[i].state.Asking? {
      AskingBefore(c, servers, before[i], n);
    }
  }

  lemma AskedBeforeUpTo(c: Config, servers: seq<bool>, before: seq<Entry>, after: seq<Entry>, n: nat)
    requires TableOk(c, servers, before) && TickedUpTo(c, servers, before, after, n)
    ensures |after| == |before| && forall i :: 0 <= i < |after| && after[i].state.Asking? ==> before[i].state.Asking?
    ensures n == |before| ==> TickedAll(c, servers, before, after, 1)
  {
    forall i | 0 <= i < |after| ensures after[i].state.Asking? ==> before[i].state.Asking? {
      if i < n { AskingBefore(c, servers, before[i], 1); }
    }
  }

  /** Exactly the first k servers are set. */
  ghost predicate SetUpTo(c: Config, servers: seq<bool>, k: nat) {
    0 < k <= c.servers == |servers| && forall j :: 0 <= j < |servers| ==> (servers[j] <==> j < k)
  }

  /** With the first k servers set, a query without reply is given up exactly with its last tick. */
  lemma {:induction false} PendingFor(c: Config, servers: seq<bool>, e: Entry, k: nat, n: nat)
    requires ConfigOk(c) && SetUpTo(c, servers, k) && EntryOk(c, e) && e.state.Asking? && e.server < k
    ensures TimerOk(c.(servers := k), e)
    ensures Ticks(c, servers, e, n).state.Asking? <==> n < Remaining(c.(servers := k), e)
    ensures var x := Ticks(c, servers, e, n);
            x.state.Asking? ==>
              && x.server < k && TimerOk(c.(servers := k), x)
              && Remaining(c.(servers := k), x) == Remaining(c.(servers := k), e) - n
  {
    if n > 0 {
      PendingFor(c, servers, e, k, n - 1);
      var x := Ticks(c, servers, e, n - 1);
      if x.state.Asking? {
        GivesUpLast(c, x, k);
        assert HasBackup(c, servers, x) <==> x.server + 1 < k;
        hide Remaining;
      }
    }
  }

  /** A query just sent, with the first k of the servers set, is given up at tick k * (1 + R * (R - 1) / 2). */
  lemma GivenUpExactly(c: Config, servers: seq<bool>, e: Entry, id: nat, k: nat, n: nat)
    requires ConfigOk(c) && SetUpTo(c, servers, k) && e.pcb < c.ports
    ensures Ticks(c, servers, Sent(e, id), n).state.Asking? <==> n < k * (1 + c.retries * (c.retries - 1) / 2)
  {
    var x, c' := Sent(e, id), c.(servers := k);
    PendingFor(c, servers, x, k, n);
    RoundsClosed(c', k);
    assert Remaining(c', x) == Rounds(c', k) by { assert Rounds(c', k) == 1 + Tri(c.retries - 1) + Rounds(c', k - 1); }
    hide Rounds, Remaining, Ticks;
  }

  /** How many queries n ticks send for an entry. */
  function TimesSent(c: Config, servers: seq<bool>, e: Entry, n: nat): nat
    requires ConfigOk(c) && |servers| == c.servers && EntryOk(c, e) && !e.state.New?
  {
    if n == 0 then 0 else TimesSent(c, servers, e, n - 1) + |Resent(c, servers, Ticks(c, servers, e, n - 1))|
  }

  lemma {:induction false} SentSoFar(c: Config, servers: seq<bool>, e: Entry, k: nat, n: nat)
    requires ConfigOk(c) && SetUpTo(c, servers, k) && EntryOk(c, e) && e == Sent(e, e.txid)
    ensures var x := Ticks(c, servers, e, n);
            && (x.state.Asking? || x.state.Unused?)
            && (x.state.Asking? ==>
                 x.server < k && TimesSent(c, servers, e, n) == x.server * c.retries + x.retries)
            && (x.state.Unused? ==> TimesSent(c, servers, e, n) + 1 == k * c.retries)
  {
    hide Ticked, Resent, Retried, EntryOk, ConfigOk;
    if n > 0 {
      SentSoFar(c, servers, e, k, n - 1);
      var x := Ticks(c, servers, e, n - 1);
      if x.state.Asking? {
        SentStep(c, servers, x, k);
        assert (x.server + 1) * c.retries == x.server * c.retries + c.retries;
        assert x.server + 1 == k ==> (x.server + 1) * c.retries == k * c.retries;
      }
    }
  }

  /** One tick: sent again, sent to the next server, or given up after the last try of the last server. */
  lemma SentStep(c: Config, servers: seq<bool>, x: Entry, k: nat)
    requires ConfigOk(c) && SetUpTo(c, servers, k) && EntryOk(c, x) && x.state.Asking? && x.server < k
    ensures var x', n := Retried(c, servers, x), |Resent(c, servers, x)|;
            && (x'.state.Asking? ==>
                 || (x'.server == x.server && x'.retries == x.retries + n)
                 || (x'.server == x.server + 1 < k && x'.retries == 0 && x.retries + 1 == c.retries && n == 1))
            && (!x'.state.Asking? ==> x'.state.Unused? && x.server + 1 == k && x.retries + 1 == c.retries && n == 0)
  {
  }

  /** An unanswered query is sent R times to each of the k servers that are set, the first time when it starts. */
  lemma SentToEach(c: Config, servers: seq<bool>, e: Entry, id: nat, k: nat, n: nat)
    requires ConfigOk(c) && SetUpTo(c, servers, k) && e.pcb < c.ports
    requires k * (1 + c.retries * (c.retries - 1) / 2) <= n
    ensures 1 + TimesSent(c, servers, Sent(e, id), n) == k * c.retries
  {
    GivenUpExactly(c, servers, e, id, k, n);
    SentSoFar(c, servers, Sent(e, id), k, n);
  }

  /** A cached answer is kept for exactly as many ticks as its time to live. */
  lemma {:induction false} KeptFor(c: Config, servers: seq<bool>, e: Entry, n: nat)
    requires ConfigOk(c) && |servers| == c.servers && EntryOk(c, e) && e.state.Done? && 0 < e.ttl
    ensures Ticks(c, servers, e, n) == if n < e.ttl then e.(ttl := e.ttl - n) else e.(state := Unused, ttl := 1)
  {
    if n > 0 { KeptFor(c, servers, e, n - 1); }
  }

  // ---------- names ----------

  function LowerChar(ch: char): char {
    if 'A' <= ch <= 'Z' then ch - 'A' + 'a' else ch
  }

  /** Letters are the same regardless of case, and nothing else is. */
  lemma LowerCharExact(a: char, b: char)
    ensures LowerChar(a) == LowerChar(b) <==>
              a == b || ('A' <= a <= 'Z' && b == a - 'A' + 'a') || ('A' <= b <= 'Z' && a == b - 'A' + 'a')
  {
  }

  predicate SameName(a: string, b: string) {
    |a| == |b| && forall i :: 0 <= i < |a| ==> LowerChar(a[i]) == LowerChar(b[i])
  }

  /** The part of a name that fits the table. */
  function Stored(c: Config, name: string): (s: string)
    requires 0 < c.nameLength
    ensures s <= name && |s| == Min(|name|, c.nameLength - 1)
  {
    if |name| < c.nameLength then name else name[..c.nameLength - 1]
  }

  predicate Dual(a: AddrType) {
    a.V4ThenV6? || a.V6ThenV4?
  }

  /** The type of record that is asked for: LWIP_DNS_ADDRTYPE_IS_IPV6 */
  predicate AsksV6(a: AddrType) {
    a.V6? || a.V6ThenV4?
  }

  // ---------- callbacks ----------

  function Token(q: Request, id: nat): nat {
    if q.found == Some(id) then 1 else 0
  }

  /** How often request id is waiting to be called back. */
  function Pending(rs: seq<Request>, id: nat): nat {
    if rs == [] then 0 else Pending(rs[..|rs| - 1], id) + Token(rs[|rs| - 1], id)
  }

  /** How often it has been called back. */
  function Called(calls: seq<Call>, id: nat): nat {
    if calls == [] then 0 else Called(calls[..|calls| - 1], id) + (if calls[|calls| - 1].id == id then 1 else 0)
  }

  lemma {:induction false} PendingUpdate(rs: seq<Request>, i: nat, q: Request, id: nat)
    requires i < |rs|
    ensures Pending(rs[i := q], id) + Token(rs[i], id) == Pending(rs, id) + Token(q, id)
  {
    var n := |rs| - 1;
    if i == n {
      assert rs[i := q][..n] == rs[..n];
    } else {
      assert rs[i := q][..n] == rs[..n][i := q];
      PendingUpdate(rs[..n], i, q, id);
    }
  }

  lemma {:induction false} PendingHas(rs: seq<Request>, i: nat)
    requires i < |rs| && rs[i].found.Some?
    ensures 0 < Pending(rs, rs[i].found.value)
  {
    if i < |rs| - 1 { PendingHas(rs[..|rs| - 1], i); }
  }

  lemma PendingIfFound(rs: seq<Request>, i: nat)
    requires i < |rs|
    ensures rs[i].found.Some? ==> 0 < Pending(rs, rs[i].found.value)
  {
    if rs[i].found.Some? { PendingHas(rs, i); }
  }

  lemma {:induction false} PendingFrom(rs: seq<Request>, id: nat) returns (i: nat)
    requires 0 < Pending(rs, id)
    ensures i < |rs| && rs[i].found == Some(id)
  {
    var n := |rs| - 1;
    if rs[n].found == Some(id) { i := n; } else { i := PendingFrom(rs[..n], id); }
  }

  lemma CalledAppend(calls: seq<Call>, x: Call, id: nat)
    ensures Called(calls + [x], id) == Called(calls, id) + (if x.id == id then 1 else 0)
  {
    assert (calls + [x])[..|calls|] == calls;
  }

  /** Conservation: every accepted request is either pending or has been called, and that once. */
  ghost predicate CallsOk(rs: seq<Request>, calls: seq<Call>, accepted: nat) {
    forall id: nat :: Pending(rs, id) + Called(calls, id) == if id < accepted then 1 else 0
  }

  lemma CallMoves(rs: seq<Request>, calls: seq<Call>, accepted: nat, i: nat, x: Call)
    requires CallsOk(rs, calls, accepted) && i < |rs| && rs[i].found == Some(x.id)
    ensures CallsOk(rs[i := rs[i].(found := None)], calls + [x], accepted)
  {
    var q := rs[i].(found := None);
    forall id: nat ensures Pending(rs[i := q], id) + Called(calls + [x], id) == Pending(rs, id) + Called(calls, id) {
      PendingUpdate(rs, i, rs[i].(found := None), id);
      CalledAppend(calls, x, id);
    }
  }

  lemma AcceptAdds(rs: seq<Request>, calls: seq<Call>, accepted: nat, i: nat, q: Request)
    requires CallsOk(rs, calls, accepted) && i < |rs| && rs[i].found.None?
    ensures q.found.None? ==> CallsOk(rs[i := q], calls, accepted)
    ensures q.found == Some(accepted) ==> CallsOk(rs[i := q], calls, accepted + 1)
  {
    forall id: nat ensures Pending(rs[i := q], id) == Pending(rs, id) + Token(q, id) {
      PendingUpdate(rs, i, q, id);
    }
  }

  /** An accepted request whose entry is not being asked any more has been called exactly once. */
  lemma CalledOnce(rs: seq<Request>, calls: seq<Call>, accepted: nat, id: nat)
    requires CallsOk(rs, calls, accepted) && id < accepted
    ensures Called(calls, id) == 1 <==> forall r :: 0 <= r < |rs| ==> rs[r].found != Some(id)
    ensures Called(calls, id) <= 1
  {
    if Pending(rs, id) > 0 {
      var i := PendingFrom(rs, id);
    }
    forall r | 0 <= r < |rs| && rs[r].found == Some(id) ensures Pending(rs, id) > 0 {
      PendingHas(rs, r);
    }
  }

  // ---------- tables ----------

  ghost predicate TxidsOk(t: seq<Entry>) {
    forall i, j :: 0 <= i < j < |t| && t[i].state.Asking? && t[j].state.Asking? ==> t[i].txid != t[j].txid
  }

  ghost predicate UsesPcb(t: seq<Entry>, k: nat) {
    exists i :: 0 <= i < |t| && t[i].pcb == k
  }

  /** A pcb slot is filled exactly if an entry uses it. */
  ghost predicate PcbsOk(t: seq<Entry>, pcbs: seq<bool>) {
    forall k :: 0 <= k < |pcbs| ==> (pcbs[k] <==> UsesPcb(t, k))
  }

  /** A waiting callback belongs to an entry for the name it was requested with ... */
  ghost predicate NamesOk(rs: seq<Request>, t: seq<Entry>, asked: seq<string>) {
    forall r :: 0 <= r < |rs| && rs[r].found.Some? ==>
      rs[r].idx < |t| && rs[r].found.value < |asked| && SameName(asked[rs[r].found.value], t[rs[r].idx].name)
  }

  /** ... and that entry is still being asked. */
  ghost predicate WaitsOk(rs: seq<Request>, t: seq<Entry>) {
    forall r :: 0 <= r < |rs| && rs[r].found.Some? ==> rs[r].idx < |t| && Busy(t[rs[r].idx])
  }

  ghost predicate CallNamesOk(calls: seq<Call>, asked: seq<string>) {
    forall k :: 0 <= k < |calls| ==> calls[k].id < |asked| && SameName(asked[calls[k].id], calls[k].name)
  }

  /** The history of a query: when it was started, ticks since it was started or restarted, and restarts. */
  datatype Past = Past(start: nat, age: nat, restarts: nat)

  /** Within its budget of ticks, and restarted at most once. */
  ghost predicate PastOk(c: Config, e: Entry, p: Past, now: nat)
    requires 0 < c.retries && EntryOk(c, e)
  {
    && (e.state.Asking? ==> p.age + Remaining(c, e) <= Rounds(c, c.servers))
    && (Busy(e) ==> p.restarts + (if Dual(e.addr) then 1 else 0) <= 1)
    && (Busy(e) ==> p.start <= now <= p.start + p.age + (if p.restarts == 0 then 0 else Rounds(c, c.servers)))
  }

  /** A request waiting for an entry was accepted when or after that query was started. */
  ghost predicate BirthsOk(rs: seq<Request>, past: seq<Past>, born: seq<nat>) {
    forall r :: 0 <= r < |rs| && rs[r].found.Some? ==>
      rs[r].idx < |past| && rs[r].found.value < |born| && past[rs[r].idx].start <= born[rs[r].found.value]
  }

  // ---------- replacing an entry ----------

  lemma TxidsReplace(t: seq<Entry>, i: nat, e: Entry)
    requires TxidsOk(t) && i < |t|
    requires e.state.Asking? ==> forall j :: 0 <= j < |t| && j != i && t[j].state.Asking? ==> t[j].txid != e.txid
    ensures TxidsOk(t[i := e])
  {
  }

  lemma PcbsReplace(t: seq<Entry>, pcbs: seq<bool>, i: nat, e: Entry)
    requires PcbsOk(t, pcbs) && i < |t| && e.pcb == t[i].pcb
    ensures PcbsOk(t[i := e], pcbs)
  {
    forall k | 0 <= k < |pcbs| ensures UsesPcb(t[i := e], k) <==> UsesPcb(t, k) {
      if UsesPcb(t, k) {
        var j :| 0 <= j < |t| && t[j].pcb == k;
        assert t[i := e][j].pcb == k;
      }
    }
  }

  /** An entry gives up its pcb: the slot is emptied unless another entry uses it. */
  lemma PcbDropped(t: seq<Entry>, pcbs: seq<bool>, i: nat, e: Entry, shared: bool)
    requires PcbsOk(t, pcbs) && i < |t| && e.pcb == |pcbs| && t[i].pcb < |pcbs|
    requires shared <==> exists j :: 0 <= j < |t| && j != i && t[j].pcb == t[i].pcb
    ensures PcbsOk(t[i := e], if shared then pcbs else pcbs[t[i].pcb := false])
  {
    var t' := t[i := e];
    forall k | 0 <= k < |pcbs| ensures UsesPcb(t', k) <==> UsesPcb(t, k) && (k == t[i].pcb ==> shared) {
      if UsesPcb(t, k) && k != t[i].pcb {
        var j :| 0 <= j < |t| && t[j].pcb == k;
        assert t'[j].pcb == k;
      }
      if k == t[i].pcb && shared {
        var j :| 0 <= j < |t| && j != i && t[j].pcb == t[i].pcb;
        assert t'[j].pcb == k;
      }
    }
  }

  /** An entry without pcb gets the one in slot k. */
  lemma PcbTaken(t: seq<Entry>, pcbs: seq<bool>, i: nat, e: Entry, k: nat)
    requires PcbsOk(t, pcbs) && i < |t| && t[i].pcb >= |pcbs| && e.pcb == k < |pcbs|
    ensures PcbsOk(t[i := e], pcbs[k := true])
  {
    var t' := t[i := e];
    assert t'[i].pcb == k;
    forall m | 0 <= m < |pcbs| && m != k ensures UsesPcb(t', m) <==> UsesPcb(t, m) {
      if UsesPcb(t, m) {
        var j :| 0 <= j < |t| && t[j].pcb == m;
        assert t'[j].pcb == m;
      }
    }
  }

  /** Nobody new waits, and nobody who waits for a query that is still being asked in t is called. */
  ghost predicate StillWaiting(before: seq<Request>, after: seq<Request>, t: seq<Entry>) {
    |after| == |before| && forall r :: 0 <= r < |after| ==>
      && (after[r] == before[r] || after[r].found.None?)
      && (before[r].idx < |t| && t[before[r].idx].state.Asking? ==> after[r] == before[r])
  }

  lemma StillTwice(a: seq<Request>, b: seq<Request>, d: seq<Request>, t: seq<Entry>, t': seq<Entry>)
    requires StillWaiting(a, b, t) && StillWaiting(b, d, t')
    requires |t'| == |t| && forall i :: 0 <= i < |t| && t'[i].state.Asking? ==> t[i].state.Asking?
    ensures StillWaiting(a, d, t')
  {
  }

  /** Request id waits for entry i and nowhere else, if that entry is being asked; else it does not wait. */
  ghost predicate WaitsFor(rs: seq<Request>, t: seq<Entry>, id: nat, i: nat) {
    && i < |t|
    && (forall r :: 0 <= r < |rs| && rs[r].found == Some(id) ==> rs[r].idx == i)
    && (t[i].state.Asking? ==> exists r :: 0 <= r < |rs| && rs[r] == Request(Some(id), i))
  }

  lemma StillWaitsFor(before: seq<Request>, t: seq<Entry>, after: seq<Request>, t': seq<Entry>, id: nat, i: nat)
    requires WaitsFor(before, t, id, i) && StillWaiting(before, after, t') && i < |t'|
    requires t'[i].state.Asking? ==> t[i].state.Asking?
    ensures WaitsFor(after, t', id, i)
  {
    if t'[i].state.Asking? {
      var r :| 0 <= r < |before| && before[r] == Request(Some(id), i);
      assert after[r] == Request(Some(id), i);
    }
  }

  function ClearedOne(q: Request, idx: nat): Request {
    if q.found.Some? && q.idx == idx then q.(found := None) else q
  }

  /** No callback waits for entry idx any more. */
  ghost predicate Cleared(before: seq<Request>, after: seq<Request>, idx: nat) {
    |after| == |before| && forall r :: 0 <= r < |after| ==> after[r] == ClearedOne(before[r], idx)
  }
}
