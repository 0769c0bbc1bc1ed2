/**
 lwip/api/api_msg.c, lwip_netconn_do_writemore: the loop that pushes a vectored write
 into TCP, as far as tcp_sndbuf and tcp_write let it.
 */
module VectorWrite {
  import opened Basics

  /** The write part of struct api_msg.  The current vector is vectors[|vectors| - cnt]. */
  datatype Write = Write(vectors: seq<seq<Byte>>, cnt: nat, off: nat, len: nat, offset: nat, dontblock: bool) {
    function Index(): int {
      |vectors| - cnt
    }
  }

  /** What TCP answers in one round: tcp_sndbuf (an u16_t) and the result of tcp_write. */
  datatype Answer = Answer(available: nat, result: Err)

  /** All vectors one after the other. */
  function Flat(v: seq<seq<Byte>>): seq<Byte> {
    if v == [] then [] else v[0] + Flat(v[1..])
  }

  /** offset bytes are done: the full vectors before the current one and off bytes of that one. */
  ghost predicate WriteOk(m: Write) {
    && m.cnt <= |m.vectors|
    && m.len == |Flat(m.vectors)|
    && (m.cnt == 0 ==> m.offset == m.len)
    && (m.cnt > 0 ==>
         && m.off <= |m.vectors[m.Index()]| && (m.off == |m.vectors[m.Index()]| ==> m.off == 0)
         && m.offset == |Flat(m.vectors[..m.Index()])| + m.off)
  }

  /** Bytes left in the current vector. */
  function Diff(m: Write): nat
    requires 0 < m.cnt <= |m.vectors| && m.off <= |m.vectors[m.Index()]|
  {
    |m.vectors[m.Index()]| - m.off
  }

  /** Advance by len bytes accepted by tcp_write. */
  function Advance(m: Write, len: nat): Write
    requires 0 < m.cnt <= |m.vectors|
  {
    var m' := m.(offset := m.offset + len, off := m.off + len);
    if m'.off != |m.vectors[m.Index()]| then m'
    else if m.cnt > 1 then m'.(cnt := m.cnt - 1, off := 0)
    else m'.(cnt := 0)
  }

  /** One round: the message afterwards, the bytes TCP took, whether to go round again, and err. */
  datatype Round = Round(m: Write, bytes: seq<Byte>, again: bool, err: Err)

  function DoRound(m: Write, a: Answer): Round
    requires 0 < m.cnt <= |m.vectors| && m.off <= |m.vectors[m.Index()]|
  {
    var full := Min(Diff(m), 0xffff);
    var len := Min(full, a.available);
    if a.available < full && m.dontblock && len == 0 then
      Round(m, [], false, if m.offset == 0 then WouldBlock else Ok)
    else if a.result != Ok then Round(m, [], false, a.result)
    else
      Round(Advance(m, len), m.vectors[m.Index()][m.off..m.off + len], GoesOn(m, len), Ok)
  }

  /** The condition for write_more; the second comparison is made on 16 bits. */
  predicate GoesOn(m: Write, len: nat)
    requires 0 < m.cnt <= |m.vectors| && m.off <= |m.vectors[m.Index()]|
  {
    || (len == 0xffff && Diff(m) > 0xffff)
    || (len == Diff(m) % 0x1_0000 && m.cnt > 1)
  }

  /** What the do-while loop arrives at when TCP gives these answers; None while it is still looping. */
  datatype Progress = Looping(m: Write, bytes: seq<Byte>) | Left(m: Write, bytes: seq<Byte>, err: Err)

  function Loop(m: Write, answers: seq<Answer>): (r: Progress)
    requires WriteOk(m) && 0 < m.cnt
    decreases |answers|
  {
    if answers == [] then Looping(m, [])
    else
      RoundSends(m, answers[0]);
      var r := DoRound(m, answers[0]);
      if !r.again then Left(r.m, r.bytes, r.err)
      else
        match Loop(r.m, answers[1..])
        case Looping(m', bytes) => Looping(m', r.bytes + bytes)
        case Left(m', bytes, err) => Left(m', r.bytes + bytes, err)
  }

  /** After the loop: is the write finished, and with what error?  out is the result of tcp_output. */
  function Finish(m: Write, err: Err, out: Err): (r: (bool, Err)) {
    match err
    case Ok => if out == Rte then (true, Rte) else (m.offset == m.len || m.dontblock, Ok)
    case Mem =>
      if out == Rte then (true, Rte)
      else if m.dontblock then (true, if m.offset == 0 then WouldBlock else Ok)
      else (false, Mem)
    case _ => (true, err)
  }

  // ---------- concatenations ----------

  lemma {:induction false} FlatConcat(v: seq<seq<Byte>>, w: seq<seq<Byte>>)
    ensures Flat(v + w) == Flat(v) + Flat(w)
  {
    if v == [] {
      assert v + w == w;
    } else {
      assert (v + w)[1..] == v[1..] + w;
      FlatConcat(v[1..], w);
    }
  }

  lemma FlatUpTo(v: seq<seq<Byte>>, i: nat)
    requires i < |v|
    ensures Flat(v[..i + 1]) == Flat(v[..i]) + v[i]
  {
    FlatOne(v[i]);
    hide Flat;
    FlatConcat(v[..i], [v[i]]);
    assert v[..i + 1] == v[..i] + [v[i]];
  }

  /** The bytes of vector i sit in the concatenation right behind the vectors before it. */
  lemma FlatAt(v: seq<seq<Byte>>, i: nat, from: nat, to: nat)
    requires i < |v| && from <= to <= |v[i]|
    ensures var p := |Flat(v[..i])|;
            p + to <= |Flat(v)| && Flat(v)[p + from..p + to] == v[i][from..to]
  {
    hide Flat;
    FlatUpTo(v, i);
    FlatConcat(v[..i + 1], v[i + 1..]);
    assert v == v[..i + 1] + v[i + 1..];
    SliceMiddle(Flat(v[..i]), v[i], Flat(v[i + 1..]), from, to);
  }

  lemma SliceMiddle(a: seq<Byte>, b: seq<Byte>, c: seq<Byte>, from: nat, to: nat)
    requires from <= to <= |b|
    ensures (a + b + c)[|a| + from..|a| + to] == b[from..to]
  {
  }

  lemma FlatOne(x: seq<Byte>)
    ensures Flat([x]) == x
  {
    assert [x][1..] == [];
  }

  // ---------- one round ----------

  /** A round sends exactly the bytes its offset moves over. */
  lemma RoundSends(m: Write, a: Answer)
    requires WriteOk(m) && 0 < m.cnt
    ensures var r := DoRound(m, a);
            && WriteOk(r.m) && r.m.vectors == m.vectors && r.m.dontblock == m.dontblock && r.m.len == m.len
            && m.offset <= r.m.offset <= m.len
            && r.bytes == Flat(m.vectors)[m.offset..r.m.offset]
            && (r.again || r.err != Ok ==> 0 < r.m.cnt)
  {
    RoundShape(m, a);
    RoundBytes(m, a);
  }

  lemma RoundShape(m: Write, a: Answer)
    requires WriteOk(m) && 0 < m.cnt
    ensures var r := DoRound(m, a);
            && WriteOk(r.m) && r.m.vectors == m.vectors && r.m.dontblock == m.dontblock && r.m.len == m.len
            && m.offset <= r.m.offset
            && (r.again || r.err != Ok ==> 0 < r.m.cnt)
  {
    var len := Min(Min(Diff(m), 0xffff), a.available);
    AdvanceOk(m, len);
    GoesOnLeavesMore(m, len);
    hide Flat, Advance, GoesOn, WriteOk;
  }

  lemma RoundBytes(m: Write, a: Answer)
    requires WriteOk(m) && 0 < m.cnt
    ensures var r := DoRound(m, a);
            && m.offset <= r.m.offset <= m.len && m.len == |Flat(m.vectors)|
            && r.bytes == Flat(m.vectors)[m.offset..r.m.offset]
  {
    hide Flat, GoesOn;
    var len := Min(Min(Diff(m), 0xffff), a.available);
    FlatAt(m.vectors, m.Index(), m.off, m.off + len);
  }

  lemma GoesOnLeavesMore(m: Write, len: nat)
    requires 0 < m.cnt <= |m.vectors| && m.off <= |m.vectors[m.Index()]| && len <= Min(Diff(m), 0xffff)
    ensures GoesOn(m, len) ==> 0 < Advance(m, len).cnt
  {
  }

  lemma AdvanceOk(m: Write, len: nat)
    requires WriteOk(m) && 0 < m.cnt && m.off + len <= |m.vectors[m.Index()]|
    ensures WriteOk(Advance(m, len)) && m.offset == |Flat(m.vectors[..m.Index()])| + m.off
    ensures var m' := Advance(m, len);
            m'.vectors == m.vectors && m'.dontblock == m.dontblock && m'.len == m.len && m'.offset == m.offset + len
  {
    hide Flat;
    FlatUpTo(m.vectors, m.Index());
    if m.cnt == 1 { assert m.vectors[..m.Index() + 1] == m.vectors; }
  }

  /** A round is repeated without progress if and only if tcp_sndbuf is exhausted when a positive multiple of
      65536 bytes is left in a vector that is not the last, in a blocking write: the 16-bit comparison then
      takes the round for the end of the vector. */
  lemma RoundStuck(m: Write, a: Answer)
    requires 0 < m.cnt <= |m.vectors| && m.off <= |m.vectors[m.Index()]|
    ensures DoRound(m, a).again && DoRound(m, a).m == m <==>
              && a.available == 0 && a.result == Ok
              && Diff(m) > 0 && Diff(m) % 0x1_0000 == 0 && m.cnt > 1 && !m.dontblock
  {
  }

  /** In that position the loop goes on for as long as the send buffer stays exhausted. */
  lemma {:induction false} StuckForever(m: Write, answers: seq<Answer>)
    requires WriteOk(m) && m.cnt > 1 && !m.dontblock && Diff(m) > 0 && Diff(m) % 0x1_0000 == 0
    requires forall i :: 0 <= i < |answers| ==> answers[i] == Answer(0, Ok)
    ensures Loop(m, answers) == Looping(m, [])
    decreases |answers|
  {
    if answers != [] {
      RoundStuck(m, answers[0]);
      hide Flat;
      StuckForever(m, answers[1..]);
    }
  }

  /** No such vector can be formed when every vector is at most 0xffff bytes long. */
  lemma ShortVectorsProgress(m: Write, a: Answer)
    requires 0 < m.cnt <= |m.vectors| && m.off <= |m.vectors[m.Index()]|
    requires forall i :: 0 <= i < |m.vectors| ==> |m.vectors[i]| <= 0xffff
    ensures DoRound(m, a).again ==> DoRound(m, a).m.cnt < m.cnt
  {
  }

  /** The stuck round: a 65536-byte vector followed by another one, with an empty send buffer. */
  lemma StuckRound(zeros: seq<Byte>, a: Answer)
    requires |zeros| == 0x1_0000 && a == Answer(0, Ok)
    ensures var m := Write([zeros, [1]], 2, 0, 0x1_0001, 0, false);
            WriteOk(m) && DoRound(m, a) == Round(m, [], true, Ok)
  {
    var v := [zeros, [1]];
    assert v[1..] == [[1]] && v[..0] == [];
    FlatOne([1]);
  }

  // ---------- the loop ----------

  lemma SliceSplit(x: seq<Byte>, a: nat, b: nat, c: nat)
    requires a <= b <= c <= |x|
    ensures x[a..b] + x[b..c] == x[a..c]
  {
  }

  /** However long the loop runs and whatever TCP answers, the bytes taken are exactly those the offset moved
      over: none is skipped, none is repeated. */
  lemma {:induction false} LoopSends(m: Write, answers: seq<Answer>)
    requires WriteOk(m) && 0 < m.cnt
    ensures var r := Loop(m, answers);
            && WriteOk(r.m) && r.m.vectors == m.vectors && r.m.dontblock == m.dontblock && r.m.len == m.len
            && m.offset <= r.m.offset <= m.len
            && r.bytes == Flat(m.vectors)[m.offset..r.m.offset]
            && (r.Left? && r.err != Ok ==> 0 < r.m.cnt)
    decreases |answers|
  {
    if answers == [] {
      FlatAt(m.vectors, m.Index(), m.off, m.off);
    } else {
      RoundSends(m, answers[0]);
      hide WriteOk, DoRound, Flat;
      var r := DoRound(m, answers[0]);
      if r.again {
        LoopSends(r.m, answers[1..]);
        var r' := Loop(r.m, answers[1..]);
        SliceSplit(Flat(m.vectors), m.offset, r.m.offset, r'.m.offset);
      }
    }
  }

  /** A blocking write that ends with ERR_OK has sent everything; one that goes on has something left to send. */
  lemma FinishMeansAll(m: Write, err: Err, out: Err)
    requires WriteOk(m) && !m.dontblock
    ensures Finish(m, err, out) == (true, Ok) ==> m.offset == |Flat(m.vectors)|
    ensures !Finish(m, err, out).0 && err == Ok ==> m.offset != m.len && 0 < m.cnt
  {
  }

  /** The loop has ended, and a blocking write has to wait: something is left, and neither the route nor tcp_write
      rules out that it can be sent later. */
  predicate Waits(l: Progress, out: Err) {
    && l.Left? && !l.m.dontblock && out != Rte
    && (l.err == Mem || (l.err == Ok && l.m.offset < l.m.len))
  }

  /** The loop has ended, and the write ends with result e. */
  predicate Ends(l: Progress, out: Err, e: Err) {
    && l.Left?
    && (l.err != Ok && l.err != Mem ==> e == l.err)
    && ((l.err == Ok || l.err == Mem) && out == Rte ==> e == Rte)
    && (l.err == Ok && out != Rte ==> e == Ok && (l.m.offset == l.m.len || l.m.dontblock))
    && (l.err == Mem && out != Rte ==> l.m.dontblock && e == if l.m.offset == 0 then WouldBlock else Ok)
  }

  /** A write waits exactly in the cases of Waits, and otherwise ends with the result Ends gives. */
  lemma FinishExact(l: Progress, out: Err)
    requires l.Left? && l.m.offset <= l.m.len
    ensures !Finish(l.m, l.err, out).0 <==> Waits(l, out)
    ensures Finish(l.m, l.err, out).0 <==> Ends(l, out, Finish(l.m, l.err, out).1)
  {
  }

  /**
   The loop stops only when everything is sent, when the send buffer is used up to the last byte, or when tcp_write
   fails; and what tcp_write did not take is not counted as sent.
   */
  lemma {:induction false} LoopEnds(m: Write, answers: seq<Answer>)
    requires WriteOk(m) && 0 < m.cnt && answers != []
    requires Loop(m, answers[..|answers| - 1]).Looping? && Loop(m, answers).Left?
    ensures var n := |answers| - 1;
            var l, p, a := Loop(m, answers), Loop(m, answers[..n]).m, answers[n];
            && (forall i :: 0 <= i < n ==> answers[i].result == Ok)
            && (l.err == Ok ==> l.m.offset == l.m.len || l.m.offset == p.offset + a.available)
            && (l.err != Ok || a.result != Ok ==> l.m == p)
            && (l.err != a.result ==>
                 m.dontblock && a.available == 0 && l.err == if p.offset == 0 then WouldBlock else Ok)
    decreases |answers|
  {
    hide DoRound, Flat;
    RoundEnds(m, answers[0]);
    RoundSends(m, answers[0]);
    var n := |answers| - 1;
    if n == 0 {
      assert answers[..0] == [];
    } else {
      assert answers[..n][0] == answers[0] && answers[..n][1..] == answers[1..][..n - 1];
      LoopEnds(DoRound(m, answers[0]).m, answers[1..]);
    }
  }

  lemma RoundEnds(m: Write, a: Answer)
    requires WriteOk(m) && 0 < m.cnt
    ensures var r := DoRound(m, a);
            && (r.again ==> a.result == Ok && r.err == Ok)
            && (Diff(m) == 0 && 1 < m.cnt && a.result == Ok ==> r.again)
            && (!r.again && r.err == Ok ==> r.m.offset == r.m.len || r.m.offset == m.offset + a.available)
            && (r.err != Ok || a.result != Ok ==> r.m == m)
            && (r.err != a.result ==>
                 m.dontblock && a.available == 0 && r.err == if m.offset == 0 then WouldBlock else Ok)
  {
    if m.cnt == 1 { FlatUpTo(m.vectors, m.Index()); assert m.vectors[..m.Index() + 1] == m.vectors; }
    hide Flat;
  }

  /** A blocking write gets no other error from the loop than one of tcp_write. */
  lemma {:induction false} LoopErrs(m: Write, answers: seq<Answer>)
    requires WriteOk(m) && 0 < m.cnt && !m.dontblock
    ensures var l := Loop(m, answers);
            l.Left? && l.err != Ok ==> exists i :: 0 <= i < |answers| && answers[i].result == l.err
    decreases |answers|
  {
    if answers != [] {
      RoundEnds(m, answers[0]);
      RoundSends(m, answers[0]);
      hide WriteOk, DoRound, Flat;
      var r := DoRound(m, answers[0]);
      if r.again {
        LoopErrs(r.m, answers[1..]);
        var l := Loop(r.m, answers[1..]);
        if l.Left? && l.err != Ok {
          var i :| 0 <= i < |answers[1..]| && answers[1..][i].result == l.err;
          assert answers[i + 1].result == l.err;
        }
      }
    }
  }

  /** For vectors of at most 0xffff bytes the loop ends after at most one round for each vector left. */
  lemma {:induction false} ShortVectorsEnd(m: Write, answers: seq<Answer>)
    requires WriteOk(m) && 0 < m.cnt <= |answers|
    requires forall i :: 0 <= i < |m.vectors| ==> |m.vectors[i]| <= 0xffff
    ensures Loop(m, answers).Left?
    decreases |answers|
  {
    ShortVectorsProgress(m, answers[0]);
    RoundSends(m, answers[0]);
    hide WriteOk, DoRound, Flat;
    var r := DoRound(m, answers[0]);
    if r.again { ShortVectorsEnd(r.m, answers[1..]); }
  }

  /** A write as netconn_write_vectors_partly starts it. */
  function Started(vectors: seq<seq<Byte>>, dontblock: bool): (w: Write)
    requires Flat(vectors) != []
    ensures WriteOk(w) && 0 < w.cnt
  {
    assert vectors != [] && vectors[..0] == [];
    Write(vectors, |vectors|, 0, |Flat(vectors)|, 0, dontblock)
  }

  // ---------- can the loop go on without end? ----------

  /** Some answers keep the loop going for at least n rounds. */
  ghost predicate CanLoop(m: Write, n: nat)
    requires WriteOk(m) && 0 < m.cnt
  {
    exists answers :: n <= |answers| && Loop(m, answers).Looping?
  }

  /** Some vector but the last has at least 65536 bytes. */
  predicate LongVector(v: seq<seq<Byte>>) {
    exists i :: 0 <= i < |v| - 1 && |v[i]| >= 0x1_0000
  }

  /** A bound on the rounds: one for each vector but the last, and each other one sends 0xffff bytes of the last. */
  function RoundsLeft(m: Write): nat
    requires 0 < m.cnt <= |m.vectors| && m.off <= |m.vectors[m.Index()]|
  {
    m.cnt + (if m.cnt == 1 then Diff(m) else |m.vectors[|m.vectors| - 1]|)
  }

  lemma RoundsDecrease(m: Write, a: Answer)
    requires WriteOk(m) && 0 < m.cnt && !LongVector(m.vectors) && DoRound(m, a).again
    ensures var r := DoRound(m, a);
            0 < r.m.cnt <= |r.m.vectors| && r.m.off <= |r.m.vectors[r.m.Index()]| && RoundsLeft(r.m) < RoundsLeft(m)
  {
    hide Flat;
    if m.cnt > 1 { assert |m.vectors[m.Index()]| < 0x1_0000; }
  }

  lemma {:induction false} LoopBounded(m: Write, answers: seq<Answer>)
    requires WriteOk(m) && 0 < m.cnt && !LongVector(m.vectors) && Loop(m, answers).Looping?
    ensures |answers| <= RoundsLeft(m)
    decreases |answers|
  {
    if answers != [] {
      hide WriteOk, DoRound, Flat, LongVector, RoundsLeft;
      RoundSends(m, answers[0]);
      RoundsDecrease(m, answers[0]);
      LoopBounded(DoRound(m, answers[0]).m, answers[1..]);
    }
  }

  lemma {:induction false} LoopConcat(m: Write, a: seq<Answer>, b: seq<Answer>)
    requires WriteOk(m) && 0 < m.cnt && Loop(m, a).Looping?
    ensures WriteOk(Loop(m, a).m) && 0 < Loop(m, a).m.cnt
    ensures Loop(m, a + b).Looping? <==> Loop(Loop(m, a).m, b).Looping?
    decreases |a|
  {
    hide DoRound, Flat;
    if a == [] {
      assert a + b == b;
    } else {
      RoundSends(m, a[0]);
      assert (a + b)[0] == a[0] && (a + b)[1..] == a[1..] + b;
      LoopConcat(DoRound(m, a[0]).m, a[1..], b);
    }
  }

  /** The message stands where a round can get stuck. */
  predicate AtMultiple(m: Write)
    requires 0 < m.cnt <= |m.vectors| && m.off <= |m.vectors[m.Index()]|
  {
    m.cnt > 1 && !m.dontblock && Diff(m) > 0 && Diff(m) % 0x1_0000 == 0
  }

  /** At a vector of at least 65536 bytes, a first answer makes the rest a multiple of 65536. */
  lemma FirstAnswer(m: Write)
    requires WriteOk(m) && m.cnt > 1 && !m.dontblock && Diff(m) >= 0x1_0000
    ensures var r := DoRound(m, Answer(Diff(m) % 0x1_0000, Ok));
            r.again && WriteOk(r.m) && 0 < r.m.cnt && AtMultiple(r.m)
  {
    RoundSends(m, Answer(Diff(m) % 0x1_0000, Ok));
    hide Flat;
  }

  /** Full rounds lead to vector i, and one more answer to a place where the loop can stay. */
  lemma {:induction false} ReachMultiple(m: Write, i: nat) returns (answers: seq<Answer>)
    requires WriteOk(m) && 0 < m.cnt && !m.dontblock && m.Index() <= i < |m.vectors| - 1
    requires |m.vectors[i]| >= 0x1_0000 && (m.Index() == i ==> m.off == 0)
    ensures var l := Loop(m, answers);
            l.Looping? && WriteOk(l.m) && 0 < l.m.cnt && AtMultiple(l.m)
    decreases m.cnt, Diff(m)
  {
    if m.Index() == i {
      FirstAnswer(m);
      answers := [Answer(Diff(m) % 0x1_0000, Ok)];
      assert answers[1..] == [];
    } else {
      var a := Answer(0xffff, Ok);
      RoundSends(m, a);
      FullRoundAdvances(m);
      assert DoRound(m, a).m.cnt < m.cnt ==> DoRound(m, a).m.cnt == m.cnt - 1 && DoRound(m, a).m.off == 0;
      hide WriteOk, DoRound, Flat;
      var rest := ReachMultiple(DoRound(m, a).m, i);
      answers := [a] + rest;
      assert answers[1..] == rest;
    }
  }

  /**
   The inner loop of a blocking write can be kept going without end if and only if the caller passed a vector,
   other than the last, of at least 65536 bytes.
   */
  lemma EndlessLoop(vectors: seq<seq<Byte>>)
    requires Flat(vectors) != []
    ensures (forall n: nat :: CanLoop(Started(vectors, false), n)) <==> LongVector(vectors)
  {
    hide Flat, WriteOk, Loop, RoundsLeft;
    var m := Started(vectors, false);
    if LongVector(vectors) {
      var i :| 0 <= i < |vectors| - 1 && |vectors[i]| >= 0x1_0000;
      var a := ReachMultiple(m, i);
      forall n: nat ensures CanLoop(m, n) {
        var b := seq(n, _ => Answer(0, Ok));
        StuckForever(Loop(m, a).m, b);
        LoopConcat(m, a, b);
        assert n <= |a + b| && Loop(m, a + b).Looping?;
      }
    } else if CanLoop(m, RoundsLeft(m) + 1) {
      var answers :| RoundsLeft(m) + 1 <= |answers| && Loop(m, answers).Looping?;
      LoopBounded(m, answers);
    }
  }

  // ---------- the assert at the top of lwip_netconn_do_writemore ----------

  /** One call of lwip_netconn_do_writemore: TCP's answers in its loop, and the result of tcp_output. */
  datatype Call = Call(answers: seq<Answer>, out: Err)

  /** The message after some calls none of which finished the write; None if one of them did, or did not end. */
  ghost function Waiting(m: Write, calls: seq<Call>): (r: Option<Write>)
    requires WriteOk(m) && 0 < m.cnt
    ensures r.Some? ==> WriteOk(r.value) && 0 < r.value.cnt && r.value.vectors == m.vectors
    decreases |calls|
  {
    if calls == [] then Some(m)
    else
      LoopSends(m, calls[0].answers);
      var l := Loop(m, calls[0].answers);
      if l.Looping? || Finish(l.m, l.err, calls[0].out).0 then None else Waiting(l.m, calls[1..])
  }

  /** While there is a vector left and the last one is not empty, there are bytes left. */
  lemma LastVectorLeft(m: Write)
    requires WriteOk(m) && 0 < m.cnt && m.vectors[|m.vectors| - 1] != []
    ensures m.offset < m.len
  {
    var n, i := |m.vectors| - 1, m.Index();
    FlatAt(m.vectors, n, 0, |m.vectors[n]|);
    if i < n {
      FlatAt(m.vectors[..n], i, 0, |m.vectors[i]|);
      assert m.vectors[..n][..i] == m.vectors[..i];
    }
  }

  /** With an empty last vector, a full send buffer can carry the loop to that vector; there memory may run out. */
  lemma {:induction false} ReachLastVector(m: Write) returns (answers: seq<Answer>)
    requires WriteOk(m) && 0 < m.cnt && !m.dontblock && m.vectors[|m.vectors| - 1] == []
    ensures var l := Loop(m, answers);
            l.Left? && l.err == Mem && l.m.vectors == m.vectors && l.m.cnt == 1 && !l.m.dontblock && WriteOk(l.m)
    decreases m.cnt, Diff(m)
  {
    if m.cnt == 1 {
      answers := [Answer(0xffff, Mem)];
    } else {
      RoundSends(m, Answer(0xffff, Ok));
      FullRoundAdvances(m);
      hide WriteOk, DoRound, Flat;
      var rest := ReachLastVector(DoRound(m, Answer(0xffff, Ok)).m);
      answers := [Answer(0xffff, Ok)] + rest;
      assert answers[1..] == rest;
    }
  }

  lemma FullRoundAdvances(m: Write)
    requires WriteOk(m) && 1 < m.cnt
    ensures var r := DoRound(m, Answer(0xffff, Ok));
            r.again && (r.m.cnt < m.cnt || (r.m.cnt == m.cnt && Diff(r.m) < Diff(m)))
  {
    hide Flat;
  }

  lemma NothingLeft(m: Write)
    requires WriteOk(m) && m.cnt == 1 && m.vectors[|m.vectors| - 1] == []
    ensures m.offset == m.len
  {
    var n := |m.vectors| - 1;
    FlatUpTo(m.vectors, n);
    assert m.vectors[..n + 1] == m.vectors;
  }

  /**
   The assert that offset is below len holds whenever a blocking write is taken up again, on every run, if
   and only if the last vector the caller passed is not empty.
   */
  lemma OffsetBelowLen(vectors: seq<seq<Byte>>)
    requires Flat(vectors) != []
    ensures (forall calls :: var w := Waiting(Started(vectors, false), calls); w.Some? ==> w.value.offset < w.value.len)
            <==> vectors[|vectors| - 1] != []
  {
    var m := Started(vectors, false);
    hide Flat, WriteOk, Loop, Started;
    if vectors[|vectors| - 1] != [] {
      forall calls | Waiting(m, calls).Some? ensures Waiting(m, calls).value.offset < Waiting(m, calls).value.len {
        LastVectorLeft(Waiting(m, calls).value);
      }
    } else {
      var answers := ReachLastVector(m);
      NothingLeft(Loop(m, answers).m);
      var calls := [Call(answers, Ok)];
      assert calls[1..] == [];
      assert Waiting(m, calls) == Some(Loop(m, answers).m);
    }
  }

  /** It can fail: with an empty last vector, a write can be made to wait although nothing is left to send. */
  lemma WaitsWithNothingLeft()
    ensures var m := Write([[1], []], 2, 0, 1, 0, false);
            var r := DoRound(m, Answer(5, Ok));
            var r' := DoRound(r.m, Answer(5, Mem));
            && WriteOk(m) && r.again && !r'.again
            && !Finish(r'.m, r'.err, Ok).0 && r'.m.cnt > 0 && r'.m.offset == r'.m.len
  {
    var v: seq<seq<Byte>> := [[1], []];
    assert v[1..] == [[]] && v[..0] == [];
    FlatOne([]);
  }

  // ---------- netconn_write_vectors_partly ----------

  /** Addition of size_t values: the sum wraps exactly if it comes out below a summand. */
  function AddWrap(a: nat, b: nat, modulus: nat): (r: nat)
    requires a < modulus && b < modulus
    ensures r < modulus && (r < b <==> modulus <= a + b) && (b <= r ==> r == a + b)
  {
    if a + b < modulus then a + b else a + b - modulus
  }

  /** The total size as a size_t below modulus; the wrap-around test refuses exactly the sums that do not fit. */
  method TotalSize(vectors: seq<seq<Byte>>, modulus: nat) returns (fits: bool, size: nat)
    requires forall i :: 0 <= i < |vectors| ==> |vectors[i]| < modulus
    requires 0 < modulus
    ensures fits <==> |Flat(vectors)| < modulus
    ensures fits ==> size == |Flat(vectors)|
  {
    size := 0;
    for i := 0 to |vectors|
      invariant size == |Flat(vectors[..i])| < modulus
    {
      FlatUpTo(vectors, i);
      hide Flat, AddWrap;
      size := AddWrap(size, |vectors[i]|, modulus);
      if size < |vectors[i]| {
        FlatAt(vectors, i, |vectors[i]|, |vectors[i]|);
        return false, 0;
      }
    }
    assert vectors[..|vectors|] == vectors;
    return true, size;
  }
}
