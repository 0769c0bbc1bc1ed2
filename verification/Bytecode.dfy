/**
 port/luat_luac_report.c: the recursive reader that advances a pointer through a bytecode file and
 files strings, numbers, code and line numbers in the tables of a shared report.

 The pointer is the rest of the input.  The reader checks no bounds, so each method is specified on
 input that starts with what it is to read.
 */
module Bytecode {
  import opened Basics
  import opened ByteOrder
  import opened BytecodeSpec
  import opened BytecodeTree

  const ENTRIES: nat := 32 * 1024
  const FUNCS: nat := 1024

  class Reader {
    const z: Sizes
    var rest: seq<Byte>          // from tio->ptr on
    var strs: seq<StrEntry>
    var nums: seq<NumEntry>
    var codes: seq<seq<Byte>>
    var lines: seq<seq<Byte>>
    var funcs: seq<Slot>

    function Report(): Tables
      reads this
    {
      Tables(strs, nums, codes, lines, funcs)
    }

    constructor (z: Sizes, input: seq<Byte>)
      ensures rest == input && this.z == z && Report() == Tables([], [], [], [], [])
    {
      this.z := z;
      rest, strs, nums, codes, lines, funcs := input, [], [], [], [], [];
    }

    // ---------- primitive reads ----------

    method LoadBlock(n: nat) returns (b: seq<Byte>)
      requires n <= |rest|
      modifies this`rest
      ensures b == old(rest)[..n] && rest == old(rest)[n..]
    {
      b := rest[..n];
      rest := rest[n..];
    }

    method LoadByte(ghost b: Byte, ghost tail: seq<Byte>) returns (r: Byte)
      requires rest == [b] + tail
      modifies this`rest
      ensures r == b && rest == tail
    {
      r := rest[0];
      rest := rest[1..];
    }

    method LoadBytes(n: nat, ghost b: seq<Byte>, ghost tail: seq<Byte>) returns (r: seq<Byte>)
      requires rest == b + tail && |b| == n
      modifies this`rest
      ensures r == b && rest == tail
    {
      r := LoadBlock(n);
    }

    method LoadInt(ghost n: nat, ghost tail: seq<Byte>) returns (r: nat)
      requires rest == PutInt(n, tail) && n < 0x1_0000_0000
      modifies this`rest
      ensures r == n && rest == tail
    {
      LeRoundTrip4(n);
      hide FromLe, LeBytes;
      var b := LoadBytes(4, LeBytes(n, 4), tail);
      r := FromLe(b);
    }

    method LoadString(ghost t: Text, ghost tail: seq<Byte>) returns (r: Text, len: nat)
      requires rest == PutText(t, tail) && TextOk(t)
      modifies this`rest
      ensures r == t && len == StoredSize(t) && rest == tail
    {
      hide PutInt;
      len := LoadByte(SizeByte(t), PutAfterSize(t, tail));
      if len == 0 { return Null, 0; }
      if len == 0xff { len := LoadInt(|t.bytes| + 1, t.bytes + tail); }
      var buff := [];
      if len > 1 { buff := LoadBytes(len - 1, t.bytes, tail); }
      r := Text(buff);
    }

    method AddStr(e: StrEntry) returns (i: nat)
      requires |strs| < ENTRIES
      modifies this`strs
      ensures strs == old(strs) + [e] && i == |old(strs)|
    {
      i := |strs|;
      strs := strs + [e];
    }

    /** A name: the string goes into strs with a type according to its size. */
    method LoadName(ghost t: Text, ghost tail: seq<Byte>) returns (i: nat)
      requires rest == PutText(t, tail) && TextOk(t) && |strs| < ENTRIES
      modifies this`rest, this`strs
      ensures rest == tail && strs == old(strs) + [NameEntry(t)] && i == |old(strs)|
    {
      hide PutText;
      var text, len := LoadString(t, tail);
      i := AddStr(StrEntry(text, len, if len <= 41 then TSHRSTR else TLNGSTR));
    }

    // ---------- constants ----------

    method AddNum(e: NumEntry) returns (r: Option<Ref>)
      requires |nums| < ENTRIES
      modifies this`nums
      ensures nums == old(nums) + [e] && r == Some(NumRef(|old(nums)|))
    {
      r := Some(NumRef(|nums|));
      nums := nums + [e];
    }

    method LoadConst(ghost c: Const, ghost tail: seq<Byte>) returns (r: Option<Ref>)
      requires rest == PutConst(c, tail) && ConstOk(z, c) && |strs| + |ConstStr(c)| <= ENTRIES
      requires |nums| + |ConstNum(c)| <= ENTRIES
      modifies this`rest, this`strs, this`nums
      ensures rest == tail && strs == old(strs) + ConstStr(c) && nums == old(nums) + ConstNum(c)
      ensures r == ConstRef(c, |old(strs)|, |old(nums)|)
    {
      hide PutText;
      var t := LoadByte(Tag(c), PutAfterTag(c, tail));
      if t == TNIL {
        r := None;
      } else if t == TBOOLEAN {
        var b := LoadByte(c.b, tail);
        r := AddNum(NumEntry([b], TBOOLEAN));
      } else if t == TNUMFLT {
        var raw := LoadBytes(z.number, c.raw, tail);
        r := AddNum(NumEntry(raw, TNUMFLT));
      } else if t == TNUMINT {
        var raw := LoadBytes(z.integer, c.raw, tail);
        r := AddNum(NumEntry(raw, t));
      } else {
        var text, len := LoadString(c.text, tail);
        var i := AddStr(StrEntry(text, len, t));
        r := Some(StrRef(i));
      }
    }

    method LoadConstants(ghost cs: seq<Const>, ghost tail: seq<Byte>) returns (k: seq<Option<Ref>>)
      requires rest == PutInt(|cs|, PutConsts(cs, tail)) && Count(|cs|)
      requires forall i :: 0 <= i < |cs| ==> ConstOk(z, cs[i])
      requires |strs| + |ConstStrs(cs)| <= ENTRIES && |nums| + |ConstNums(cs)| <= ENTRIES
      modifies this`rest, this`strs, this`nums
      ensures rest == tail && strs == old(strs) + ConstStrs(cs) && nums == old(nums) + ConstNums(cs)
      ensures k == ConstRefs(cs, |old(strs)|, |old(nums)|)
    {
      hide PutInt, PutConst, PutConsts, ConstStr, ConstNum, ConstStrs, ConstNums, ConstRefs, ConstOk, ConstRef;
      var n := LoadInt(|cs|, PutConsts(cs, tail));
      ConstsEnds(cs, |strs|, |nums|);
      k := [];
      for i := 0 to n
        invariant rest == PutConsts(cs[i..], tail)
        invariant strs == old(strs) + ConstStrs(cs[..i]) && nums == old(nums) + ConstNums(cs[..i])
        invariant k == ConstRefs(cs[..i], |old(strs)|, |old(nums)|)
      {
        ConstsStep(cs, i, |old(strs)|, |old(nums)|, tail);
        ConstsGrow(cs, i + 1);
        Append3(old(strs), ConstStrs(cs[..i]), ConstStr(cs[i]));
        Append3(old(nums), ConstNums(cs[..i]), ConstNum(cs[i]));
        var r := LoadConst(cs[i], PutConsts(cs[i + 1..], tail));
        k := k + [r];
      }
    }

    // ---------- debug information ----------

    method LoadLocals(n: nat, ghost ls: seq<Local>, ghost tail: seq<Byte>) returns (r: seq<(nat, nat, nat)>)
      requires rest == PutLocals(ls, tail) && n == |ls| && |strs| + n <= ENTRIES
      requires forall i :: 0 <= i < |ls| ==> LocalOk(ls[i])
      modifies this`rest, this`strs
      ensures rest == tail && strs == old(strs) + LocalNames(ls) && r == LocalSlots(ls, |old(strs)|)
    {
      hide PutInt, PutText, PutLocals, LocalNames, LocalSlots, NameEntry;
      LocalsEnds(ls, |strs|);
      r := [];
      for i := 0 to n
        invariant rest == PutLocals(ls[i..], tail)
        invariant strs == old(strs) + LocalNames(ls[..i]) && r == LocalSlots(ls[..i], |old(strs)|)
      {
        LocalsStep(ls, i, |old(strs)|, tail);
        Append3(old(strs), LocalNames(ls[..i]), [NameEntry(ls[i].name)]);
        ghost var after := PutLocals(ls[i + 1..], tail);
        var name := LoadName(ls[i].name, PutInt(ls[i].startPc, PutInt(ls[i].endPc, after)));
        var startPc := LoadInt(ls[i].startPc, PutInt(ls[i].endPc, after));
        var endPc := LoadInt(ls[i].endPc, after);
        r := r + [(name, startPc, endPc)];
      }
    }

    method LoadNames(n: nat, ghost ts: seq<Text>, ghost tail: seq<Byte>) returns (r: seq<nat>)
      requires rest == PutTexts(ts, tail) && n == |ts| && |strs| + n <= ENTRIES
      requires forall i :: 0 <= i < |ts| ==> TextOk(ts[i])
      modifies this`rest, this`strs
      ensures rest == tail && strs == old(strs) + Names(ts) && r == Range(|old(strs)|, n)
    {
      hide PutText, PutTexts, Names, NameEntry;
      NamesEnds(ts);
      r := [];
      for i := 0 to n
        invariant rest == PutTexts(ts[i..], tail)
        invariant strs == old(strs) + Names(ts[..i]) && r == Range(|old(strs)|, i)
      {
        NamesStep(ts, i, tail);
        Append3(old(strs), Names(ts[..i]), [NameEntry(ts[i])]);
        var name := LoadName(ts[i], PutTexts(ts[i + 1..], tail));
        r := r + [name];
      }
    }

    /** LoadDebug completes the slot. */
    method LoadDebug(h: Slot, ghost f: Func, ghost tail: seq<Byte>) returns (r: Slot)
      requires rest == PutDebug(f, tail) && BodyOk(z, f)
      requires |strs| + |f.locals| + |f.upnames| <= ENTRIES && |lines| < ENTRIES
      modifies this`rest, this`strs, this`lines
      ensures rest == tail && strs == old(strs) + (LocalNames(f.locals) + Names(f.upnames))
      ensures lines == old(lines) + [f.lines]
      ensures r == h.(lineinfo := |old(lines)|, locals := LocalSlots(f.locals, |old(strs)|),
                      upnames := Range(|old(strs)| + |f.locals|, |f.upnames|))
    {
      hide PutInt, PutLocals, PutTexts, LocalOk, TextOk, LocalNames, Names, Range, LocalSlots;
      var n := LoadInt(|f.lines| / 4, f.lines + PutNames(f, tail));
      var l := LoadBytes(n * 4, f.lines, PutNames(f, tail));
      var lineinfo := |lines|;
      lines := lines + [l];
      n := LoadInt(|f.locals|, PutLocals(f.locals, PutUpnames(f, tail)));
      var locals := LoadLocals(n, f.locals, PutUpnames(f, tail));
      n := LoadInt(|f.upnames|, PutTexts(f.upnames, tail));
      var upnames := LoadNames(n, f.upnames, tail);
      r := h.(lineinfo := lineinfo, locals := locals, upnames := upnames);
      Append3(old(strs), LocalNames(f.locals), Names(f.upnames));
    }

    // ---------- functions ----------

    /** LoadFunction up to the inner functions. */
    method LoadHead(ghost f: Func, ghost tail: seq<Byte>) returns (h: Slot)
      requires rest == PutHead(f, tail) && BodyOk(z, f)
      requires |strs| + 1 + |ConstStrs(f.consts)| <= ENTRIES && |nums| + |ConstNums(f.consts)| <= ENTRIES
      requires |codes| < ENTRIES
      modifies this`rest, this`strs, this`nums, this`codes
      ensures rest == tail && strs == old(strs) + ([NameEntry(f.source)] + ConstStrs(f.consts))
      ensures nums == old(nums) + ConstNums(f.consts) && codes == old(codes) + [f.code]
      ensures h == HeadSlot(f, old(Report()).Counts())
    {
      hide PutInt, PutText, PutConsts, ConstOk, TextOk, ConstStrs, ConstNums, ConstRefs, NameEntry;
      var source := LoadName(f.source, PutInt(f.line, PutInt(f.lastLine, PutFlags(f, tail))));
      var line := LoadInt(f.line, PutInt(f.lastLine, PutFlags(f, tail)));
      var lastLine := LoadInt(f.lastLine, PutFlags(f, tail));
      var params := LoadByte(f.params, [f.vararg] + ([f.stack] + PutCode(f, tail)));
      var vararg := LoadByte(f.vararg, [f.stack] + PutCode(f, tail));
      var stack := LoadByte(f.stack, PutCode(f, tail));
      var n := LoadInt(|f.code| / 4, f.code + PutConstants(f, tail));
      var code := LoadBytes(n * 4, f.code, PutConstants(f, tail));
      codes := codes + [code];
      var k := LoadConstants(f.consts, PutUpvalues(f, tail));
      n := LoadInt(|f.upvalues| / 2, f.upvalues + tail);
      var upvalues := LoadBytes(n * 2, f.upvalues, tail);
      h := Slot(source, line, lastLine, params, vararg, stack, |codes| - 1, k, upvalues, [], 0, [], []);
      Append3(old(strs), [NameEntry(f.source)], ConstStrs(f.consts));
    }

    /** LoadProtos: the inner functions, each in the next free slot. */
    method LoadProtos(ghost f: Func, ghost tail: seq<Byte>) returns (p: seq<nat>)
      requires rest == PutInt(|f.protos|, PutProtos(f, 0, tail)) && FuncOk(z, f)
      requires Fits(Report().Plus(ProtoTables(f, |f.protos|, Report().Counts())))
      modifies this
      ensures rest == tail
      ensures Report() == old(Report()).Plus(ProtoTables(f, |f.protos|, old(Report()).Counts()))
      ensures p == ProtoIds(f, |f.protos|, old(Report()).Counts())
      decreases f, 0
    {
      hide PutInt, FuncTables, PutFunc, FuncOk, BodyOk, Fits;
      ghost var r0, b := Report(), Report().Counts();
      FuncOkCount(z, f);
      var n := LoadInt(|f.protos|, PutProtos(f, 0, tail));
      PlusNothing(r0);
      p := [];
      for i := 0 to n
        invariant rest == PutProtos(f, i, tail)
        invariant Report() == r0.Plus(ProtoTables(f, i, b)) && p == ProtoIds(f, i, b)
      {
        ghost var t := ProtoTables(f, i, b);
        PlusCounts(r0, t);
        PlusAssoc(r0, t, FuncTables(f.protos[i], b.Plus(t.Counts())));
        ProtosFit(r0, f, i + 1, b);
        FuncOkInner(z, f, i);
        var id := LoadFunction(f.protos[i], PutProtos(f, i + 1, tail));
        p := p + [id];
      }
    }

    /**
     LoadFunction consumes exactly the dump of f, appends exactly its strings, numbers, code and line
     numbers to the tables, and puts f and the functions inside it into the next slots, in preorder.
     */
    method LoadFunction(ghost f: Func, ghost tail: seq<Byte>) returns (id: nat)
      requires rest == PutFunc(f, tail) && FuncOk(z, f)
      requires Fits(Report().Plus(FuncTables(f, Report().Counts())))
      modifies this
      ensures rest == tail && id == |old(funcs)|
      ensures Report() == old(Report()).Plus(FuncTables(f, old(Report()).Counts()))
      decreases f, 1
    {
      hide *;
      ghost var r0 := Report();
      FuncParts(f, tail, r0);
      FuncOkBody(z, f);
      var h;
      id, h := ReadHead(f, PutInt(|f.protos|, PutProtos(f, 0, PutDebug(f, tail))));
      var p := LoadProtos(f, PutDebug(f, tail));
      var slot := ReadDebug(h.(p := p), f, tail);
      SlotIs(r0, f);
      Assembled(r0, f, slot);
      Store(id, slot);
    }

    method ReadHead(ghost f: Func, ghost tail: seq<Byte>) returns (id: nat, h: Slot)
      requires rest == PutHead(f, tail) && BodyOk(z, f) && Fits(Report().Plus(HeadTables(f, Blank())))
      modifies this
      ensures rest == tail && id == |old(funcs)| == |old(Report()).funcs| && h == HeadSlot(f, old(Report()).Counts())
      ensures Report() == old(Report()).Plus(HeadTables(f, Blank()))
    {
      hide BodyOk, PutHead, HeadSlot, ConstStrs, ConstNums, NameEntry;
      id := |funcs|;
      funcs := funcs + [Blank()];
      h := LoadHead(f, tail);
      HeadSlotSame(f, old(Report()).Counts(), old(Report()).Counts().(f := |funcs|));
    }

    method ReadDebug(h: Slot, ghost f: Func, ghost tail: seq<Byte>) returns (r: Slot)
      requires rest == PutDebug(f, tail) && BodyOk(z, f) && Fits(Report().Plus(DebugTables(f)))
      modifies this
      ensures rest == tail && Report() == old(Report()).Plus(DebugTables(f))
      ensures r == DebugSlot(h, f, old(Report()).Counts())
    {
      hide BodyOk, PutDebug, LocalSlots, Range, LocalNames, Names;
      r := LoadDebug(h, f, tail);
    }

    method Store(id: nat, slot: Slot)
      requires id < |Report().funcs|
      modifies this`funcs
      ensures Report() == WithSlot(old(Report()), id, slot)
    {
      funcs := funcs[id := slot];
    }
  }

  function WithSlot(t: Tables, id: nat, slot: Slot): Tables
    requires id < |t.funcs|
  {
    t.(funcs := t.funcs[id := slot])
  }

  function DebugSlot(h: Slot, f: Func, b: Base): Slot {
    h.(lineinfo := b.l, locals := LocalSlots(f.locals, b.s), upnames := Range(b.s + |f.locals|, |f.upnames|))
  }

  lemma SlotIs(r0: Tables, f: Func)
    ensures var b := r0.Counts();
            var h := b.Plus(Head(f));
            var inner := ProtoTables(f, |f.protos|, h);
            var r2 := r0.Plus(HeadTables(f, Blank())).Plus(inner);
            DebugSlot(HeadSlot(f, b).(p := ProtoIds(f, |f.protos|, h)), f, r2.Counts()) == SlotOf(f, b, inner.Counts())
  {
    hide ConstStrs, ConstNums, LocalSlots, Range, ProtoTables, ProtoIds, HeadSlot;
  }

  lemma HeadSlotSame(f: Func, a: Base, b: Base)
    requires a.s == b.s && a.n == b.n && a.c == b.c
    ensures HeadSlot(f, a) == HeadSlot(f, b)
  {
  }

  /** An entry of luf_funcs before it is filled in. */
  function Blank(): Slot {
    Slot(0, 0, 0, 0, 0, 0, 0, [], [], [], 0, [], [])
  }

  predicate Fits(t: Tables) {
    |t.strs| <= ENTRIES && |t.nums| <= ENTRIES && |t.codes| <= ENTRIES && |t.lines| <= ENTRIES && |t.funcs| <= FUNCS
  }

  lemma FuncOkCount(z: Sizes, f: Func)
    requires FuncOk(z, f)
    ensures Count(|f.protos|)
  {
  }

  lemma FuncOkBody(z: Sizes, f: Func)
    requires FuncOk(z, f)
    ensures BodyOk(z, f)
  {
  }

  lemma FuncOkInner(z: Sizes, f: Func, i: nat)
    requires FuncOk(z, f) && i < |f.protos|
    ensures FuncOk(z, f.protos[i])
  {
  }

  lemma PlusNothing(r: Tables)
    ensures r.Plus(Tables([], [], [], [], [])) == r
  {
  }

  lemma FitsPrefix(r: Tables, a: Tables, b: Tables)
    requires Fits(r.Plus(a.Plus(b)))
    ensures Fits(r.Plus(a))
  {
  }

  /** If all inner functions fit, so do the first i. */
  lemma {:induction false} ProtosFit(r: Tables, f: Func, i: nat, b: Base)
    requires i <= |f.protos| && Fits(r.Plus(ProtoTables(f, |f.protos|, b)))
    ensures Fits(r.Plus(ProtoTables(f, i, b)))
    decreases |f.protos| - i
  {
    hide FuncTables, Fits;
    if i < |f.protos| {
      ProtosFit(r, f, i + 1, b);
      FitsPrefix(r, ProtoTables(f, i, b), FuncTables(f.protos[i], b.Plus(ProtoTables(f, i, b).Counts())));
    }
  }

  /** What LoadFunction needs at each of its steps. */
  lemma FuncParts(f: Func, tail: seq<Byte>, r0: Tables)
    requires Fits(r0.Plus(FuncTables(f, r0.Counts())))
    ensures var b := r0.Counts();
            var inner := ProtoTables(f, |f.protos|, b.Plus(Head(f)));
            var r1 := r0.Plus(HeadTables(f, Blank()));
            && PutFunc(f, tail) == PutHead(f, PutInt(|f.protos|, PutProtos(f, 0, PutDebug(f, tail))))
            && r1.Counts() == b.Plus(Head(f)) && Fits(r1) && Fits(r1.Plus(inner))
            && Fits(r1.Plus(inner).Plus(DebugTables(f)))
            && |r0.funcs| < |r1.Plus(inner).Plus(DebugTables(f)).funcs|
  {
    hide PutHead, PutInt, PutProtos, PutDebug, ConstStrs, ConstNums, LocalNames, Names, ProtoTables, SlotOf;
  }

  /** Filling in the reserved slot gives exactly the tables of f. */
  lemma Assembled(r0: Tables, f: Func, slot: Slot)
    requires var b := r0.Counts();
             var inner := ProtoTables(f, |f.protos|, b.Plus(Head(f)));
             slot == SlotOf(f, b, inner.Counts())
    ensures var b := r0.Counts();
            var inner := ProtoTables(f, |f.protos|, b.Plus(Head(f)));
            var r3 := r0.Plus(HeadTables(f, Blank())).Plus(inner).Plus(DebugTables(f));
            |r0.funcs| < |r3.funcs| && WithSlot(r3, |r0.funcs|, slot) == r0.Plus(FuncTables(f, b))
  {
    hide ConstStrs, ConstNums, LocalNames, Names, ProtoTables, SlotOf;
  }

  lemma LocalsEnds(ls: seq<Local>, s: nat)
    ensures ls[0..] == ls && ls[..|ls|] == ls && LocalNames(ls[..0]) == [] && LocalSlots(ls[..0], s) == []
    ensures forall tail :: PutLocals(ls[|ls|..], tail) == tail
  {
  }

  lemma LocalsStep(ls: seq<Local>, i: nat, s: nat, tail: seq<Byte>)
    requires i < |ls|
    ensures PutLocals(ls[i..], tail) ==
              PutText(ls[i].name, PutInt(ls[i].startPc, PutInt(ls[i].endPc, PutLocals(ls[i + 1..], tail))))
    ensures LocalNames(ls[..i + 1]) == LocalNames(ls[..i]) + [NameEntry(ls[i].name)]
    ensures LocalSlots(ls[..i + 1], s) == LocalSlots(ls[..i], s) + [(s + i, ls[i].startPc, ls[i].endPc)]
  {
    hide PutText, PutInt, NameEntry;
    assert ls[i..][0] == ls[i] && ls[i..][1..] == ls[i + 1..];
    var front := ls[..i + 1];
    assert front[..|front| - 1] == ls[..i] && front[|front| - 1] == ls[i];
  }

  lemma NamesEnds(ts: seq<Text>)
    ensures ts[0..] == ts && ts[..|ts|] == ts && Names(ts[..0]) == []
    ensures forall tail :: PutTexts(ts[|ts|..], tail) == tail
  {
  }

  lemma NamesStep(ts: seq<Text>, i: nat, tail: seq<Byte>)
    requires i < |ts|
    ensures PutTexts(ts[i..], tail) == PutText(ts[i], PutTexts(ts[i + 1..], tail))
    ensures Names(ts[..i + 1]) == Names(ts[..i]) + [NameEntry(ts[i])]
  {
    hide PutText, NameEntry;
    assert ts[i..][0] == ts[i] && ts[i..][1..] == ts[i + 1..];
    var front := ts[..i + 1];
    assert front[..|front| - 1] == ts[..i] && front[|front| - 1] == ts[i];
  }

  lemma Append3<T>(a: seq<T>, b: seq<T>, c: seq<T>)
    ensures a + (b + c) == a + b + c
  {
  }

  lemma ConstsEnds(cs: seq<Const>, s: nat, n: nat)
    ensures cs[0..] == cs && cs[..|cs|] == cs
    ensures ConstStrs(cs[..0]) == [] && ConstNums(cs[..0]) == [] && ConstRefs(cs[..0], s, n) == []
    ensures forall tail :: PutConsts(cs[|cs|..], tail) == tail
  {
  }

  lemma ConstsStep(cs: seq<Const>, i: nat, s: nat, n: nat, tail: seq<Byte>)
    requires i < |cs|
    ensures PutConsts(cs[i..], tail) == PutConst(cs[i], PutConsts(cs[i + 1..], tail))
    ensures ConstStrs(cs[..i + 1]) == ConstStrs(cs[..i]) + ConstStr(cs[i])
    ensures ConstNums(cs[..i + 1]) == ConstNums(cs[..i]) + ConstNum(cs[i])
    ensures ConstRefs(cs[..i + 1], s, n) ==
              ConstRefs(cs[..i], s, n) + [ConstRef(cs[i], s + |ConstStrs(cs[..i])|, n + |ConstNums(cs[..i])|)]
  {
    hide PutConst, ConstStr, ConstNum, ConstRef;
    assert cs[i..][0] == cs[i] && cs[i..][1..] == cs[i + 1..];
    var front := cs[..i + 1];
    assert front[..|front| - 1] == cs[..i] && front[|front| - 1] == cs[i];
  }

  /** The tables of a prefix are not longer than those of the whole. */
  lemma {:induction false} ConstsGrow(cs: seq<Const>, i: nat)
    requires i <= |cs|
    ensures |ConstStrs(cs[..i])| <= |ConstStrs(cs)| && |ConstNums(cs[..i])| <= |ConstNums(cs)|
  {
    if i < |cs| {
      assert cs[..|cs| - 1][..i] == cs[..i];
      ConstsGrow(cs[..|cs| - 1], i);
    } else {
      assert cs[..i] == cs;
    }
  }

  const NO_ENTRIES: Base := Base(0, 0, 0, 0, 0)

  /**
   Reading the dump of a function tree into an empty report: exactly the dump is consumed, slot 0 stands
   for the tree, there is one slot per function, and every entry is pointed to by exactly one field.
   */
  method ReadTree(z: Sizes, input: seq<Byte>, ghost f: Func, ghost tail: seq<Byte>) returns (r: Reader)
    requires input == PutFunc(f, []) + tail && FuncOk(z, f) && Fits(FuncTables(f, NO_ENTRIES))
    ensures fresh(r) && r.rest == tail && Represents(r.Report(), 0, f) && |r.Report().funcs| == Size(f)
    ensures forall ref :: Hits(r.Report().funcs, ref) ==
              RefIn(ref, NO_ENTRIES, r.Report().Counts()) - (if ref == FuncRef(0) then 1 else 0)
  {
    hide *;
    FuncRest(f, [], tail);
    assert [] + tail == tail;
    r := new Reader(z, input);
    ghost var t := FuncTables(f, NO_ENTRIES);
    FirstEntries(t);
    var id := r.LoadFunction(f, tail);
    TreeFound(t, NO_ENTRIES, f);
    SlotPerFunction(f, NO_ENTRIES);
    forall ref ensures Hits(t.funcs, ref) == RefIn(ref, NO_ENTRIES, t.Counts()) - (if ref == FuncRef(0) then 1 else 0) {
      HitOnce(f, NO_ENTRIES, ref);
    }
  }

  lemma FirstEntries(t: Tables)
    ensures var none := Tables([], [], [], [], []);
            none.Counts() == NO_ENTRIES && NO_ENTRIES.f == 0 && none.Plus(t) == t && Has(t, NO_ENTRIES, t)
  {
  }
}
