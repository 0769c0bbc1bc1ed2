/**
 What the report says about a bytecode file once it has been read: the function tree can be recovered
 from it, and every entry of its tables belongs to exactly one field of one function.
 */
module BytecodeTree {
  import opened Basics
  import opened ByteOrder
  import opened BytecodeSpec

  // ---------- the dump ends where the rest begins ----------

  lemma BytesRest(x: seq<Byte>, a: seq<Byte>, rest: seq<Byte>)
    ensures x + (a + rest) == (x + a) + rest
  {
  }

  lemma IntRest(n: nat, a: seq<Byte>, rest: seq<Byte>)
    ensures PutInt(n, a + rest) == PutInt(n, a) + rest
  {
    BytesRest(LeBytes(n, 4), a, rest);
  }

  lemma TextRest(t: Text, a: seq<Byte>, rest: seq<Byte>)
    ensures PutText(t, a + rest) == PutText(t, a) + rest
  {
    hide PutInt;
    if t.Text? {
      BytesRest(t.bytes, a, rest);
      IntRest(|t.bytes| + 1, t.bytes + a, rest);
    }
    BytesRest([SizeByte(t)], PutAfterSize(t, a), rest);
  }

  lemma ConstRest(c: Const, a: seq<Byte>, rest: seq<Byte>)
    ensures PutConst(c, a + rest) == PutConst(c, a) + rest
  {
    hide PutText;
    match c {
      case Nil =>
      case Bool(b) => BytesRest([b], a, rest);
      case Number(_, raw) => BytesRest(raw, a, rest);
      case String(_, text) => TextRest(text, a, rest);
    }
    BytesRest([Tag(c)], PutAfterTag(c, a), rest);
  }

  lemma {:induction false} ConstsRest(cs: seq<Const>, a: seq<Byte>, rest: seq<Byte>)
    ensures PutConsts(cs, a + rest) == PutConsts(cs, a) + rest
  {
    hide PutConst;
    if cs != [] {
      ConstsRest(cs[1..], a, rest);
      ConstRest(cs[0], PutConsts(cs[1..], a), rest);
    }
  }

  lemma {:induction false} LocalsRest(ls: seq<Local>, a: seq<Byte>, rest: seq<Byte>)
    ensures PutLocals(ls, a + rest) == PutLocals(ls, a) + rest
  {
    hide PutText, PutInt;
    if ls != [] {
      LocalsRest(ls[1..], a, rest);
      var p := PutLocals(ls[1..], a);
      IntRest(ls[0].endPc, p, rest);
      IntRest(ls[0].startPc, PutInt(ls[0].endPc, p), rest);
      TextRest(ls[0].name, PutInt(ls[0].startPc, PutInt(ls[0].endPc, p)), rest);
    }
  }

  lemma {:induction false} TextsRest(ts: seq<Text>, a: seq<Byte>, rest: seq<Byte>)
    ensures PutTexts(ts, a + rest) == PutTexts(ts, a) + rest
  {
    hide PutText;
    if ts != [] {
      TextsRest(ts[1..], a, rest);
      TextRest(ts[0], PutTexts(ts[1..], a), rest);
    }
  }

  lemma DebugRest(f: Func, a: seq<Byte>, rest: seq<Byte>)
    ensures PutDebug(f, a + rest) == PutDebug(f, a) + rest
  {
    hide PutInt, PutTexts, PutLocals;
    TextsRest(f.upnames, a, rest);
    IntRest(|f.upnames|, PutTexts(f.upnames, a), rest);
    LocalsRest(f.locals, PutUpnames(f, a), rest);
    IntRest(|f.locals|, PutLocals(f.locals, PutUpnames(f, a)), rest);
    BytesRest(f.lines, PutNames(f, a), rest);
    IntRest(|f.lines| / 4, f.lines + PutNames(f, a), rest);
  }

  lemma CodeRest(f: Func, a: seq<Byte>, rest: seq<Byte>)
    ensures PutCode(f, a + rest) == PutCode(f, a) + rest
  {
    hide PutInt, PutConsts;
    BytesRest(f.upvalues, a, rest);
    IntRest(|f.upvalues| / 2, f.upvalues + a, rest);
    ConstsRest(f.consts, PutUpvalues(f, a), rest);
    IntRest(|f.consts|, PutConsts(f.consts, PutUpvalues(f, a)), rest);
    BytesRest(f.code, PutConstants(f, a), rest);
    IntRest(|f.code| / 4, f.code + PutConstants(f, a), rest);
  }

  lemma HeadRest(f: Func, a: seq<Byte>, rest: seq<Byte>)
    ensures PutHead(f, a + rest) == PutHead(f, a) + rest
  {
    hide PutInt, PutText, PutCode;
    CodeRest(f, a, rest);
    BytesRest([f.stack], PutCode(f, a), rest);
    BytesRest([f.vararg], [f.stack] + PutCode(f, a), rest);
    BytesRest([f.params], [f.vararg] + ([f.stack] + PutCode(f, a)), rest);
    IntRest(f.lastLine, PutFlags(f, a), rest);
    IntRest(f.line, PutInt(f.lastLine, PutFlags(f, a)), rest);
    TextRest(f.source, PutInt(f.line, PutInt(f.lastLine, PutFlags(f, a))), rest);
  }

  /** Reading a function stops exactly behind its dump, whatever follows. */
  lemma {:induction false} FuncRest(f: Func, a: seq<Byte>, rest: seq<Byte>)
    ensures PutFunc(f, a + rest) == PutFunc(f, a) + rest
    decreases f, |f.protos| + 1
  {
    hide PutInt, PutHead, PutDebug, PutProtos;
    DebugRest(f, a, rest);
    var d := PutDebug(f, a);
    ProtosRest(f, 0, d, rest);
    IntRest(|f.protos|, PutProtos(f, 0, d), rest);
    HeadRest(f, PutInt(|f.protos|, PutProtos(f, 0, d)), rest);
  }

  lemma {:induction false} ProtosRest(f: Func, i: nat, a: seq<Byte>, rest: seq<Byte>)
    requires i <= |f.protos|
    ensures PutProtos(f, i, a + rest) == PutProtos(f, i, a) + rest
    decreases f, |f.protos| - i
  {
    hide PutFunc;
    if i < |f.protos| {
      ProtosRest(f, i + 1, a, rest);
      FuncRest(f.protos[i], PutProtos(f, i + 1, a), rest);
    }
  }

  // ---------- recovering the tree ----------

  ghost predicate ConstAt(t: Tables, r: Option<Ref>, c: Const) {
    match c
    case Nil => r.None?
    case String(isLong, text) =>
      && r.Some? && r.value.StrRef? && r.value.i < |t.strs|
      && t.strs[r.value.i].text == text && t.strs[r.value.i].tag == Tag(c)
    case Bool(b) => r.Some? && r.value.NumRef? && r.value.i < |t.nums| && t.nums[r.value.i] == NumEntry([b], TBOOLEAN)
    case Number(isFloat, raw) =>
      r.Some? && r.value.NumRef? && r.value.i < |t.nums| && t.nums[r.value.i] == NumEntry(raw, Tag(c))
  }

  ghost predicate NameAt(t: Tables, i: nat, name: Text) {
    i < |t.strs| && t.strs[i].text == name && t.strs[i].len == StoredSize(name)
  }

  ghost predicate LocalAt(t: Tables, s: (nat, nat, nat), l: Local) {
    NameAt(t, s.0, l.name) && s.1 == l.startPc && s.2 == l.endPc
  }

  /** The fields of a slot, but for the inner functions, say what f says. */
  ghost predicate BodyAt(t: Tables, s: Slot, f: Func) {
    && NameAt(t, s.source, f.source)
    && s.line == f.line && s.lastLine == f.lastLine
    && s.params == f.params && s.vararg == f.vararg && s.stack == f.stack
    && s.code < |t.codes| && t.codes[s.code] == f.code && s.upvalues == f.upvalues
    && |s.k| == |f.consts| && (forall i :: 0 <= i < |s.k| ==> ConstAt(t, s.k[i], f.consts[i]))
    && s.lineinfo < |t.lines| && t.lines[s.lineinfo] == f.lines
    && |s.locals| == |f.locals|
    && (forall i :: 0 <= i < |s.locals| ==> LocalAt(t, s.locals[i], f.locals[i]))
    && |s.upnames| == |f.upnames| && (forall i :: 0 <= i < |s.upnames| ==> NameAt(t, s.upnames[i], f.upnames[i]))
  }

  /** Slot id of the report stands for the function f and everything inside it. */
  ghost predicate Represents(t: Tables, id: nat, f: Func)
    decreases f
  {
    && id < |t.funcs| && BodyAt(t, t.funcs[id], f)
    && |t.funcs[id].p| == |f.protos|
    && forall i :: 0 <= i < |f.protos| ==> Represents(t, t.funcs[id].p[i], f.protos[i])
  }

  lemma ConstUnique(t: Tables, r: Option<Ref>, c: Const, d: Const)
    requires ConstAt(t, r, c) && ConstAt(t, r, d)
    ensures c == d
  {
  }

  lemma BodyUnique(t: Tables, s: Slot, f: Func, g: Func)
    requires BodyAt(t, s, f) && BodyAt(t, s, g)
    ensures f.(protos := []) == g.(protos := [])
  {
    hide ConstAt;
    forall i | 0 <= i < |f.consts| ensures f.consts[i] == g.consts[i] {
      ConstUnique(t, s.k[i], f.consts[i], g.consts[i]);
    }
    assert f.consts == g.consts;
    forall i | 0 <= i < |f.locals| ensures f.locals[i] == g.locals[i] {
      assert LocalAt(t, s.locals[i], f.locals[i]) && LocalAt(t, s.locals[i], g.locals[i]);
    }
    assert f.locals == g.locals;
    forall i | 0 <= i < |f.upnames| ensures f.upnames[i] == g.upnames[i] {
      assert NameAt(t, s.upnames[i], f.upnames[i]) && NameAt(t, s.upnames[i], g.upnames[i]);
    }
    assert f.upnames == g.upnames;
  }

  /** A slot stands for one tree only: the tree that was read is determined by the report. */
  lemma {:induction false} TreeUnique(t: Tables, id: nat, f: Func, g: Func)
    requires Represents(t, id, f) && Represents(t, id, g)
    ensures f == g
    decreases f
  {
    hide BodyAt;
    BodyUnique(t, t.funcs[id], f, g);
    forall i | 0 <= i < |f.protos| ensures f.protos[i] == g.protos[i] {
      TreeUnique(t, t.funcs[id].p[i], f.protos[i], g.protos[i]);
    }
    assert f.protos == g.protos;
  }

  ghost predicate HasAt<T(!new)>(s: seq<T>, at: nat, x: seq<T>) {
    at + |x| <= |s| && forall i :: 0 <= i < |x| ==> s[at + i] == x[i]
  }

  /** Each table of t has the entries of x from b on. */
  ghost predicate Has(t: Tables, b: Base, x: Tables) {
    && HasAt(t.strs, b.s, x.strs) && HasAt(t.nums, b.n, x.nums) && HasAt(t.codes, b.c, x.codes)
    && HasAt(t.lines, b.l, x.lines) && HasAt(t.funcs, b.f, x.funcs)
  }

  lemma HasAtParts<T(!new)>(s: seq<T>, at: nat, x: seq<T>, y: seq<T>)
    requires HasAt(s, at, x + y)
    ensures HasAt(s, at, x) && HasAt(s, at + |x|, y)
  {
    forall i | 0 <= i < |x| ensures s[at + i] == x[i] { assert (x + y)[i] == x[i]; }
    forall i | 0 <= i < |y| ensures s[at + |x| + i] == y[i] {
      assert (x + y)[|x| + i] == y[i];
      assert s[at + (|x| + i)] == (x + y)[|x| + i];
    }
  }

  lemma HasParts(t: Tables, b: Base, x: Tables, y: Tables)
    requires Has(t, b, x.Plus(y))
    ensures Has(t, b, x) && Has(t, b.Plus(x.Counts()), y)
  {
    hide HasAt;
    HasAtParts(t.strs, b.s, x.strs, y.strs);
    HasAtParts(t.nums, b.n, x.nums, y.nums);
    HasAtParts(t.codes, b.c, x.codes, y.codes);
    HasAtParts(t.lines, b.l, x.lines, y.lines);
    HasAtParts(t.funcs, b.f, x.funcs, y.funcs);
  }

  lemma ConstsLast(cs: seq<Const>, s: nat, n: nat)
    ensures cs == [] ==> ConstStrs(cs) == [] && ConstNums(cs) == [] && ConstRefs(cs, s, n) == []
    ensures cs != [] ==>
              var front, c := cs[..|cs| - 1], cs[|cs| - 1];
              && ConstStrs(cs) == ConstStrs(front) + ConstStr(c) && ConstNums(cs) == ConstNums(front) + ConstNum(c)
              && ConstRefs(cs, s, n) ==
                   ConstRefs(front, s, n) + [ConstRef(c, s + |ConstStrs(front)|, n + |ConstNums(front)|)]
  {
    hide ConstStr, ConstNum, ConstRef;
  }

  lemma ConstFound(t: Tables, c: Const, s: nat, n: nat)
    requires HasAt(t.strs, s, ConstStr(c)) && HasAt(t.nums, n, ConstNum(c))
    ensures ConstAt(t, ConstRef(c, s, n), c)
  {
    if c.String? {
      assert t.strs[s + 0] == ConstStr(c)[0];
    } else if !c.Nil? {
      assert t.nums[n + 0] == ConstNum(c)[0];
    }
  }

  lemma {:induction false} ConstsFound(t: Tables, cs: seq<Const>, s: nat, n: nat, i: nat)
    requires HasAt(t.strs, s, ConstStrs(cs)) && HasAt(t.nums, n, ConstNums(cs)) && i < |cs|
    ensures ConstAt(t, ConstRefs(cs, s, n)[i], cs[i])
  {
    hide ConstStrs, ConstNums, ConstRefs, ConstStr, ConstNum, ConstRef, ConstAt, HasAt;
    var front, c := cs[..|cs| - 1], cs[|cs| - 1];
    ConstsLast(cs, s, n);
    HasAtParts(t.strs, s, ConstStrs(front), ConstStr(c));
    HasAtParts(t.nums, n, ConstNums(front), ConstNum(c));
    if i < |cs| - 1 {
      ConstsFound(t, front, s, n, i);
    } else {
      ConstFound(t, c, s + |ConstStrs(front)|, n + |ConstNums(front)|);
    }
  }

  lemma {:induction false} LocalsAt(ls: seq<Local>, s: nat, i: nat)
    requires i < |ls|
    ensures LocalNames(ls)[i] == NameEntry(ls[i].name) && LocalSlots(ls, s)[i] == (s + i, ls[i].startPc, ls[i].endPc)
  {
    if i < |ls| - 1 { LocalsAt(ls[..|ls| - 1], s, i); }
  }

  lemma {:induction false} NamesAt(ts: seq<Text>, i: nat)
    requires i < |ts|
    ensures Names(ts)[i] == NameEntry(ts[i])
  {
    if i < |ts| - 1 { NamesAt(ts[..|ts| - 1], i); }
  }

  lemma {:induction false} RangeAt(from: nat, n: nat, i: nat)
    requires i < n
    ensures Range(from, n)[i] == from + i
  {
    if i < n - 1 { RangeAt(from, n - 1, i); }
  }

  lemma NameFound(t: Tables, b: nat, x: seq<StrEntry>, i: nat, name: Text)
    requires HasAt(t.strs, b, x) && i < |x| && x[i] == NameEntry(name)
    ensures NameAt(t, b + i, name)
  {
  }

  /** The slot of f finds everything of f where it was put. */
  lemma BodyFound(t: Tables, b: Base, f: Func, inner: Tables)
    requires var slot := SlotOf(f, b, inner.Counts());
             Has(t, b, HeadTables(f, slot)) && Has(t, b.Plus(Head(f)).Plus(inner.Counts()), DebugTables(f))
    ensures BodyAt(t, SlotOf(f, b, inner.Counts()), f)
  {
    hide ConstStrs, ConstNums, ConstRefs, LocalNames, LocalSlots, Names, Range, NameEntry, Has, HasAt, NameAt,
      LocalAt, ConstAt, ProtoIds, Head;
    var slot := SlotOf(f, b, inner.Counts());
    var e := b.Plus(Head(f)).Plus(inner.Counts());
    HeadFound(t, b, f, slot);
    DebugFound(t, e, f);
  }

  lemma HeadFound(t: Tables, b: Base, f: Func, slot: Slot)
    requires Has(t, b, HeadTables(f, slot))
    ensures NameAt(t, b.s, f.source) && b.c < |t.codes| && t.codes[b.c] == f.code && b.f < |t.funcs|
    ensures t.funcs[b.f] == slot
    ensures forall i :: 0 <= i < |f.consts| ==> ConstAt(t, ConstRefs(f.consts, b.s + 1, b.n)[i], f.consts[i])
  {
    hide ConstStrs, ConstNums, ConstRefs, ConstAt;
    var x := HeadTables(f, slot);
    NameFound(t, b.s, x.strs, 0, f.source);
    assert t.codes[b.c + 0] == x.codes[0] && t.funcs[b.f + 0] == x.funcs[0];
    HasAtParts(t.strs, b.s, [NameEntry(f.source)], ConstStrs(f.consts));
    forall i | 0 <= i < |f.consts| ensures ConstAt(t, ConstRefs(f.consts, b.s + 1, b.n)[i], f.consts[i]) {
      ConstsFound(t, f.consts, b.s + 1, b.n, i);
    }
  }

  lemma DebugFound(t: Tables, e: Base, f: Func)
    requires Has(t, e, DebugTables(f))
    ensures e.l < |t.lines| && t.lines[e.l] == f.lines
    ensures forall i :: 0 <= i < |f.locals| ==> LocalAt(t, LocalSlots(f.locals, e.s)[i], f.locals[i])
    ensures forall i :: 0 <= i < |f.upnames| ==> NameAt(t, Range(e.s + |f.locals|, |f.upnames|)[i], f.upnames[i])
  {
    hide LocalNames, LocalSlots, Names, Range, NameEntry, NameAt;
    assert t.lines[e.l + 0] == DebugTables(f).lines[0];
    HasAtParts(t.strs, e.s, LocalNames(f.locals), Names(f.upnames));
    forall i | 0 <= i < |f.locals| ensures LocalAt(t, LocalSlots(f.locals, e.s)[i], f.locals[i]) {
      LocalsAt(f.locals, e.s, i);
      NameFound(t, e.s, LocalNames(f.locals), i, f.locals[i].name);
    }
    forall i | 0 <= i < |f.upnames| ensures NameAt(t, Range(e.s + |f.locals|, |f.upnames|)[i], f.upnames[i]) {
      NamesAt(f.upnames, i);
      RangeAt(e.s + |f.locals|, |f.upnames|, i);
      NameFound(t, e.s + |f.locals|, Names(f.upnames), i, f.upnames[i]);
    }
  }

  /** A report that has the tables of f from b on represents f in slot b.f. */
  lemma {:induction false} TreeFound(t: Tables, b: Base, f: Func)
    requires Has(t, b, FuncTables(f, b))
    ensures Represents(t, b.f, f)
    decreases f, |f.protos| + 1
  {
    hide BodyAt, Has, SlotOf, ProtoTables, ProtoIds, Head, HeadTables, DebugTables;
    var h := b.Plus(Head(f));
    var inner := ProtoTables(f, |f.protos|, h);
    var slot := SlotOf(f, b, inner.Counts());
    FuncHas(t, b, f);
    BodyFound(t, b, f, inner);
    HeadFound(t, b, f, slot);
    ProtosFound(t, h, f, |f.protos|);
    SlotProtos(f, b, inner.Counts());
  }

  lemma SlotProtos(f: Func, b: Base, inner: Base)
    ensures SlotOf(f, b, inner).p == ProtoIds(f, |f.protos|, b.Plus(Head(f)))
  {
  }

  lemma FuncHas(t: Tables, b: Base, f: Func)
    requires Has(t, b, FuncTables(f, b))
    ensures var h := b.Plus(Head(f));
            var inner := ProtoTables(f, |f.protos|, h);
            && Has(t, b, HeadTables(f, SlotOf(f, b, inner.Counts()))) && Has(t, h, inner)
            && Has(t, h.Plus(inner.Counts()), DebugTables(f))
  {
    hide Has, SlotOf, ProtoTables, ConstStrs, ConstNums, LocalNames, Names;
    var h := b.Plus(Head(f));
    var inner := ProtoTables(f, |f.protos|, h);
    var head := HeadTables(f, SlotOf(f, b, inner.Counts()));
    HasParts(t, b, head.Plus(inner), DebugTables(f));
    HasParts(t, b, head, inner);
    PlusCounts(head, inner);
    assert head.Counts() == Head(f);
    BasePlus(b, Head(f), inner.Counts());
  }

  lemma BasePlus(a: Base, b: Base, c: Base)
    ensures a.Plus(b).Plus(c) == a.Plus(b.Plus(c))
  {
  }

  lemma {:induction false} ProtosFound(t: Tables, b: Base, f: Func, i: nat)
    requires i <= |f.protos| && Has(t, b, ProtoTables(f, i, b))
    ensures forall j :: 0 <= j < i ==> Represents(t, ProtoIds(f, i, b)[j], f.protos[j])
    decreases f, i
  {
    hide Has, FuncTables, Represents;
    if i > 0 {
      var front := ProtoTables(f, i - 1, b);
      var last := b.Plus(front.Counts());
      HasParts(t, b, front, FuncTables(f.protos[i - 1], last));
      ProtosFound(t, b, f, i - 1);
      TreeFound(t, last, f.protos[i - 1]);
    }
  }

  // ---------- every entry belongs to one field ----------

  function CountNat(s: seq<nat>, x: nat): nat {
    if s == [] then 0 else CountNat(s[..|s| - 1], x) + (if s[|s| - 1] == x then 1 else 0)
  }

  function CountRef(k: seq<Option<Ref>>, r: Ref): nat {
    if k == [] then 0 else CountRef(k[..|k| - 1], r) + (if k[|k| - 1] == Some(r) then 1 else 0)
  }

  function CountLocal(ls: seq<(nat, nat, nat)>, x: nat): nat {
    if ls == [] then 0 else CountLocal(ls[..|ls| - 1], x) + (if ls[|ls| - 1].0 == x then 1 else 0)
  }

  /** How many pointers of a slot go to r. */
  function SlotHits(s: Slot, r: Ref): nat {
    match r
    case StrRef(x) =>
      (if s.source == x then 1 else 0) + CountRef(s.k, r) + CountLocal(s.locals, x) + CountNat(s.upnames, x)
    case NumRef(x) => CountRef(s.k, r)
    case CodeRef(x) => if s.code == x then 1 else 0
    case LineRef(x) => if s.lineinfo == x then 1 else 0
    case FuncRef(x) => CountNat(s.p, x)
  }

  function Hits(slots: seq<Slot>, r: Ref): nat {
    if slots == [] then 0 else Hits(slots[..|slots| - 1], r) + SlotHits(slots[|slots| - 1], r)
  }

  /** 1 if x is among the n numbers from from on, else 0. */
  function In(x: nat, from: nat, n: nat): nat {
    if from <= x < from + n then 1 else 0
  }

  /** 1 if r is one of the entries that the n counts from b on stand for. */
  function RefIn(r: Ref, b: Base, n: Base): nat {
    match r
    case StrRef(x) => In(x, b.s, n.s)
    case NumRef(x) => In(x, b.n, n.n)
    case CodeRef(x) => In(x, b.c, n.c)
    case LineRef(x) => In(x, b.l, n.l)
    case FuncRef(x) => In(x, b.f, n.f)
  }

  lemma RefInPlus(r: Ref, b: Base, m: Base, n: Base)
    ensures RefIn(r, b, m.Plus(n)) == RefIn(r, b, m) + RefIn(r, b.Plus(m), n)
  {
  }

  lemma {:induction false} HitsConcat(a: seq<Slot>, b: seq<Slot>, r: Ref)
    ensures Hits(a + b, r) == Hits(a, r) + Hits(b, r)
  {
    hide SlotHits;
    if b == [] {
      assert a + b == a;
    } else {
      assert (a + b)[..|a + b| - 1] == a + b[..|b| - 1];
      HitsConcat(a, b[..|b| - 1], r);
    }
  }

  lemma {:induction false} RangeCount(from: nat, n: nat, x: nat)
    ensures CountNat(Range(from, n), x) == In(x, from, n)
  {
    if n > 0 {
      assert Range(from, n)[..n - 1] == Range(from, n - 1);
      RangeCount(from, n - 1, x);
    }
  }

  lemma {:induction false} LocalsCount(ls: seq<Local>, s: nat, x: nat)
    ensures CountLocal(LocalSlots(ls, s), x) == In(x, s, |ls|)
  {
    if ls != [] {
      assert LocalSlots(ls, s)[..|ls| - 1] == LocalSlots(ls[..|ls| - 1], s);
      LocalsCount(ls[..|ls| - 1], s, x);
    }
  }

  lemma {:induction false} ConstsCount(cs: seq<Const>, s: nat, n: nat, r: Ref)
    ensures r.StrRef? ==> CountRef(ConstRefs(cs, s, n), r) == In(r.i, s, |ConstStrs(cs)|)
    ensures r.NumRef? ==> CountRef(ConstRefs(cs, s, n), r) == In(r.i, n, |ConstNums(cs)|)
  {
    hide ConstStrs, ConstNums, ConstRefs;
    ConstsLast(cs, s, n);
    if cs != [] {
      ConstsCount(cs[..|cs| - 1], s, n, r);
      assert ConstRefs(cs, s, n)[..|cs| - 1] == ConstRefs(cs[..|cs| - 1], s, n);
    }
  }

  /** The fields of the slot of f point to the entries of f itself, once each, and to its inner functions. */
  lemma SlotCount(f: Func, b: Base, inner: Base, r: Ref)
    ensures var h := b.Plus(Head(f));
            SlotHits(SlotOf(f, b, inner), r) ==
              if r.FuncRef? then CountNat(ProtoIds(f, |f.protos|, h), r.i)
              else RefIn(r, b, Head(f)) + RefIn(r, h.Plus(inner), DebugTables(f).Counts())
  {
    var e := b.Plus(Head(f)).Plus(inner);
    hide ConstStrs, ConstNums, ConstRefs, LocalSlots, Range, CountRef, CountLocal, CountNat, ProtoIds, LocalNames,
      Names;
    ConstsCount(f.consts, b.s + 1, b.n, r);
    LocalsCount(f.locals, e.s, r.i);
    RangeCount(e.s + |f.locals|, |f.upnames|, r.i);
  }

  /** Every entry that f adds is pointed to exactly once, and so is every slot but that of f. */
  lemma {:induction false} HitOnce(f: Func, b: Base, r: Ref)
    ensures var t := FuncTables(f, b);
            0 < |t.funcs| && Hits(t.funcs, r) == RefIn(r, b, t.Counts()) - (if r == FuncRef(b.f) then 1 else 0)
    decreases f, |f.protos| + 1
  {
    hide Hits, SlotHits, SlotOf, ProtoTables, ProtoIds, DebugTables, CountNat, RefIn;
    var h := b.Plus(Head(f));
    var inner := ProtoTables(f, |f.protos|, h);
    var slot := SlotOf(f, b, inner.Counts());
    FuncShape(f, b);
    HitsConcat([slot], inner.funcs, r);
    HitsOne(slot, r);
    SlotCount(f, b, inner.Counts(), r);
    ProtosHitOnce(f, h, |f.protos|, r);
    RefInPlus(r, b, Head(f).Plus(inner.Counts()), DebugTables(f).Counts());
    RefInPlus(r, b, Head(f), inner.Counts());
    BasePlus(b, Head(f), inner.Counts());
    OwnSlot(r, b, h.Plus(inner.Counts()), f);
  }

  lemma HitsOne(s: Slot, r: Ref)
    ensures Hits([s], r) == SlotHits(s, r)
  {
    assert [s][..0] == [];
    assert Hits([s][..0], r) == 0;
  }

  lemma OwnSlot(r: Ref, b: Base, e: Base, f: Func)
    ensures r.FuncRef? ==>
              RefIn(r, b, Head(f)) == (if r == FuncRef(b.f) then 1 else 0) && RefIn(r, e, DebugTables(f).Counts()) == 0
  {
  }

  lemma FuncShape(f: Func, b: Base)
    ensures var inner := ProtoTables(f, |f.protos|, b.Plus(Head(f)));
            var t := FuncTables(f, b);
            && t.funcs == [SlotOf(f, b, inner.Counts())] + inner.funcs
            && t.Counts() == Head(f).Plus(inner.Counts()).Plus(DebugTables(f).Counts())
  {
    hide SlotOf, ProtoTables, ConstStrs, ConstNums, LocalNames, Names;
  }

  lemma {:induction false} ProtosHitOnce(f: Func, b: Base, i: nat, r: Ref)
    requires i <= |f.protos|
    ensures var t := ProtoTables(f, i, b);
            Hits(t.funcs, r) + (if r.FuncRef? then CountNat(ProtoIds(f, i, b), r.i) else 0) == RefIn(r, b, t.Counts())
    decreases f, i
  {
    hide Hits, SlotHits, FuncTables, CountNat, RefIn;
    if i == 0 {
      NoHits(r, b);
    } else {
      var front := ProtoTables(f, i - 1, b);
      var last := FuncTables(f.protos[i - 1], b.Plus(front.Counts()));
      ProtosHitOnce(f, b, i - 1, r);
      HitOnce(f.protos[i - 1], b.Plus(front.Counts()), r);
      HitsConcat(front.funcs, last.funcs, r);
      PlusCounts(front, last);
      RefInPlus(r, b, front.Counts(), last.Counts());
      CountAppend(ProtoIds(f, i - 1, b), b.f + |front.funcs|, r.i);
    }
  }

  lemma NoHits(r: Ref, b: Base)
    ensures Hits([], r) == 0 && CountNat([], r.i) == 0 && RefIn(r, b, Tables([], [], [], [], []).Counts()) == 0
  {
  }

  lemma CountAppend(s: seq<nat>, y: nat, x: nat)
    ensures CountNat(s + [y], x) == CountNat(s, x) + (if x == y then 1 else 0)
  {
    assert (s + [y])[..|s|] == s;
  }

  // ---------- slots in preorder ----------

  /** How many functions f is made of. */
  function Size(f: Func): nat
    decreases f, |f.protos| + 1
  {
    1 + SizeUpTo(f, |f.protos|)
  }

  /** The functions of the first i inner functions. */
  function SizeUpTo(f: Func, i: nat): nat
    requires i <= |f.protos|
    decreases f, i
  {
    if i == 0 then 0 else SizeUpTo(f, i - 1) + Size(f.protos[i - 1])
  }

  lemma {:induction false} SlotPerFunction(f: Func, b: Base)
    ensures |FuncTables(f, b).funcs| == Size(f)
    decreases f, |f.protos| + 1
  {
    hide SlotOf, ProtoTables;
    ProtoSlots(f, b.Plus(Head(f)), |f.protos|);
  }

  /** An inner function comes after its outer one and all that is inside the inner ones before it. */
  lemma {:induction false} ProtoSlots(f: Func, b: Base, i: nat)
    requires i <= |f.protos|
    ensures |ProtoTables(f, i, b).funcs| == SizeUpTo(f, i)
    ensures forall j :: 0 <= j < i ==> ProtoIds(f, i, b)[j] == b.f + SizeUpTo(f, j)
    decreases f, i
  {
    hide FuncTables, Size;
    if i > 0 {
      ProtoSlots(f, b, i - 1);
      SlotPerFunction(f.protos[i - 1], b.Plus(ProtoTables(f, i - 1, b).Counts()));
    }
  }
}
