/**
 Lua bytecode as luac dumps it and as port/luat_luac_report.c reads it: the tree of functions, its
 serialized form, and where the reader puts every part.
 */
module BytecodeSpec {
  import opened Basics
  import opened ByteOrder

  /** A string; its stored size is one more than its length, and 0 means there is none. */
  datatype Text = Null | Text(bytes: seq<Byte>)

  datatype Const = Nil | Bool(b: Byte) | Number(isFloat: bool, raw: seq<Byte>) | String(isLong: bool, text: Text)

  datatype Local = Local(name: Text, startPc: nat, endPc: nat)

  datatype Func = Func(source: Text, line: nat, lastLine: nat, params: Byte, vararg: Byte, stack: Byte, code: seq<Byte>,
                       consts: seq<Const>, upvalues: seq<Byte>, protos: seq<Func>, lines: seq<Byte>,
                       locals: seq<Local>, upnames: seq<Text>)

  /** Sizes of lua_Number and lua_Integer. */
  datatype Sizes = Sizes(number: nat, integer: nat)

  // ---------- well-formedness ----------

  predicate Count(n: nat) {
    n < 0x8000_0000
  }

  predicate TextOk(t: Text) {
    t.Text? ==> Count(|t.bytes| + 1)
  }

  predicate ConstOk(z: Sizes, c: Const) {
    match c
    case Nil => true
    case Bool(_) => true
    case Number(isFloat, raw) => |raw| == (if isFloat then z.number else z.integer)
    case String(_, text) => TextOk(text)
  }

  predicate LocalOk(l: Local) {
    TextOk(l.name) && l.startPc < 0x1_0000_0000 && l.endPc < 0x1_0000_0000
  }

  /** Everything of f but its inner functions. */
  predicate BodyOk(z: Sizes, f: Func) {
    && TextOk(f.source) && f.line < 0x1_0000_0000 && f.lastLine < 0x1_0000_0000
    && Units(f.code, 4) && Units(f.lines, 4) && Units(f.upvalues, 2)
    && Count(|f.consts|) && Count(|f.protos|) && Count(|f.locals|) && Count(|f.upnames|)
    && (forall i :: 0 <= i < |f.consts| ==> ConstOk(z, f.consts[i]))
    && (forall i :: 0 <= i < |f.locals| ==> LocalOk(f.locals[i]))
    && (forall i :: 0 <= i < |f.upnames| ==> TextOk(f.upnames[i]))
  }

  /** Whole units of k bytes. */
  predicate Units(s: seq<Byte>, k: nat)
    requires 0 < k
  {
    |s| % k == 0 && Count(|s| / k)
  }

  predicate FuncOk(z: Sizes, f: Func)
    decreases f
  {
    BodyOk(z, f) && forall i :: 0 <= i < |f.protos| ==> FuncOk(z, f.protos[i])
  }

  // ---------- serialized form, each part followed by the rest ----------

  function PutInt(n: nat, rest: seq<Byte>): seq<Byte> {
    LeBytes(n, 4) + rest
  }

  /** One byte for sizes below 0xff. */
  function SizeByte(t: Text): Byte {
    if t.Null? then 0 else if |t.bytes| + 1 < 0xff then |t.bytes| + 1 else 0xff
  }

  function PutAfterSize(t: Text, rest: seq<Byte>): seq<Byte> {
    if t.Null? then rest
    else if |t.bytes| + 1 < 0xff then t.bytes + rest
    else PutInt(|t.bytes| + 1, t.bytes + rest)
  }

  function PutText(t: Text, rest: seq<Byte>): seq<Byte> {
    [SizeByte(t)] + PutAfterSize(t, rest)
  }

  // type tags of constants
  const TNIL: Byte := 0
  const TBOOLEAN: Byte := 1
  const TNUMFLT: Byte := 3
  const TNUMINT: Byte := 19
  const TSHRSTR: Byte := 4
  const TLNGSTR: Byte := 20

  function Tag(c: Const): Byte {
    match c
    case Nil => TNIL
    case Bool(b) => TBOOLEAN
    case Number(isFloat, raw) => if isFloat then TNUMFLT else TNUMINT
    case String(isLong, text) => if isLong then TLNGSTR else TSHRSTR
  }

  function PutAfterTag(c: Const, rest: seq<Byte>): seq<Byte> {
    match c
    case Nil => rest
    case Bool(b) => [b] + rest
    case Number(_, raw) => raw + rest
    case String(_, text) => PutText(text, rest)
  }

  function PutConst(c: Const, rest: seq<Byte>): seq<Byte> {
    [Tag(c)] + PutAfterTag(c, rest)
  }

  function PutConsts(cs: seq<Const>, rest: seq<Byte>): seq<Byte> {
    if cs == [] then rest else PutConst(cs[0], PutConsts(cs[1..], rest))
  }

  function PutLocals(ls: seq<Local>, rest: seq<Byte>): seq<Byte> {
    if ls == [] then rest else PutText(ls[0].name, PutInt(ls[0].startPc, PutInt(ls[0].endPc, PutLocals(ls[1..], rest))))
  }

  function PutTexts(ts: seq<Text>, rest: seq<Byte>): seq<Byte> {
    if ts == [] then rest else PutText(ts[0], PutTexts(ts[1..], rest))
  }

  function PutUpnames(f: Func, rest: seq<Byte>): seq<Byte> {
    PutInt(|f.upnames|, PutTexts(f.upnames, rest))
  }

  function PutNames(f: Func, rest: seq<Byte>): seq<Byte> {
    PutInt(|f.locals|, PutLocals(f.locals, PutUpnames(f, rest)))
  }

  function PutDebug(f: Func, rest: seq<Byte>): seq<Byte> {
    PutInt(|f.lines| / 4, f.lines + PutNames(f, rest))
  }

  function PutUpvalues(f: Func, rest: seq<Byte>): seq<Byte> {
    PutInt(|f.upvalues| / 2, f.upvalues + rest)
  }

  function PutConstants(f: Func, rest: seq<Byte>): seq<Byte> {
    PutInt(|f.consts|, PutConsts(f.consts, PutUpvalues(f, rest)))
  }

  function PutCode(f: Func, rest: seq<Byte>): seq<Byte> {
    PutInt(|f.code| / 4, f.code + PutConstants(f, rest))
  }

  function PutFlags(f: Func, rest: seq<Byte>): seq<Byte> {
    [f.params] + ([f.vararg] + ([f.stack] + PutCode(f, rest)))
  }

  function PutHead(f: Func, rest: seq<Byte>): seq<Byte> {
    PutText(f.source, PutInt(f.line, PutInt(f.lastLine, PutFlags(f, rest))))
  }

  /** The dump of f: its own parts up to the upvalues, the inner functions, its debug information. */
  function PutFunc(f: Func, rest: seq<Byte>): seq<Byte>
    decreases f, |f.protos| + 1
  {
    PutHead(f, PutInt(|f.protos|, PutProtos(f, 0, PutDebug(f, rest))))
  }

  function PutProtos(f: Func, i: nat, rest: seq<Byte>): seq<Byte>
    requires i <= |f.protos|
    decreases f, |f.protos| - i
  {
    if i == |f.protos| then rest else PutFunc(f.protos[i], PutProtos(f, i + 1, rest))
  }

  // ---------- tables of the report ----------

  /** An entry of strs: the string, its stored size and its type. */
  datatype StrEntry = StrEntry(text: Text, len: nat, tag: Byte)

  datatype NumEntry = NumEntry(raw: seq<Byte>, tag: Byte)

  /** A pointer to an entry of one of the tables, or to a function's slot. */
  datatype Ref = StrRef(i: nat) | NumRef(i: nat) | CodeRef(i: nat) | LineRef(i: nat) | FuncRef(i: nat)

  /** struct luf_func; pointers are table and slot indices. */
  datatype Slot = Slot(source: nat, line: nat, lastLine: nat, params: Byte, vararg: Byte, stack: Byte, code: nat,
                       k: seq<Option<Ref>>, upvalues: seq<Byte>, p: seq<nat>, lineinfo: nat,
                       locals: seq<(nat, nat, nat)>, upnames: seq<nat>)

  /** Entry counts of the tables. */
  datatype Base = Base(s: nat, n: nat, c: nat, l: nat, f: nat) {
    function Plus(b: Base): Base {
      Base(s + b.s, n + b.n, c + b.c, l + b.l, f + b.f)
    }
  }

  function StoredSize(t: Text): nat {
    if t.Null? then 0 else |t.bytes| + 1
  }

  /** A name outside the constants gets its type from its size. */
  function NameEntry(t: Text): StrEntry {
    StrEntry(t, StoredSize(t), if StoredSize(t) <= 41 then TSHRSTR else TLNGSTR)
  }

  function ConstStr(c: Const): seq<StrEntry> {
    if c.String? then [StrEntry(c.text, StoredSize(c.text), if c.isLong then TLNGSTR else TSHRSTR)] else []
  }

  function ConstNum(c: Const): seq<NumEntry> {
    match c
    case Bool(b) => [NumEntry([b], TBOOLEAN)]
    case Number(isFloat, raw) => [NumEntry(raw, if isFloat then TNUMFLT else TNUMINT)]
    case _ => []
  }

  function ConstStrs(cs: seq<Const>): seq<StrEntry> {
    if cs == [] then [] else ConstStrs(cs[..|cs| - 1]) + ConstStr(cs[|cs| - 1])
  }

  function ConstNums(cs: seq<Const>): seq<NumEntry> {
    if cs == [] then [] else ConstNums(cs[..|cs| - 1]) + ConstNum(cs[|cs| - 1])
  }

  /** The constant table of a function whose strings and numbers start at s and n. */
  function ConstRefs(cs: seq<Const>, s: nat, n: nat): (r: seq<Option<Ref>>)
    ensures |r| == |cs|
  {
    if cs == [] then []
    else
      var front := cs[..|cs| - 1];
      ConstRefs(front, s, n) + [ConstRef(cs[|cs| - 1], s + |ConstStrs(front)|, n + |ConstNums(front)|)]
  }

  function ConstRef(c: Const, s: nat, n: nat): Option<Ref> {
    match c
    case Nil => None
    case String(_, _) => Some(StrRef(s))
    case _ => Some(NumRef(n))
  }

  function LocalNames(ls: seq<Local>): (r: seq<StrEntry>)
    ensures |r| == |ls|
  {
    if ls == [] then [] else LocalNames(ls[..|ls| - 1]) + [NameEntry(ls[|ls| - 1].name)]
  }

  function LocalSlots(ls: seq<Local>, s: nat): (r: seq<(nat, nat, nat)>)
    ensures |r| == |ls|
  {
    if ls == [] then []
    else LocalSlots(ls[..|ls| - 1], s) + [(s + |ls| - 1, ls[|ls| - 1].startPc, ls[|ls| - 1].endPc)]
  }

  function Names(ts: seq<Text>): (r: seq<StrEntry>)
    ensures |r| == |ts|
  {
    if ts == [] then [] else Names(ts[..|ts| - 1]) + [NameEntry(ts[|ts| - 1])]
  }

  function Range(from: nat, n: nat): (r: seq<nat>)
    ensures |r| == n
  {
    if n == 0 then [] else Range(from, n - 1) + [from + n - 1]
  }

  /** What reading f appends to each table. */
  datatype Tables = Tables(strs: seq<StrEntry>, nums: seq<NumEntry>, codes: seq<seq<Byte>>, lines: seq<seq<Byte>>,
                           funcs: seq<Slot>) {
    function Plus(t: Tables): Tables {
      Tables(strs + t.strs, nums + t.nums, codes + t.codes, lines + t.lines, funcs + t.funcs)
    }
    function Counts(): Base {
      Base(|strs|, |nums|, |codes|, |lines|, |funcs|)
    }
  }

  lemma PlusAssoc(a: Tables, b: Tables, c: Tables)
    ensures a.Plus(b).Plus(c) == a.Plus(b.Plus(c))
  {
  }

  lemma PlusCounts(a: Tables, b: Tables)
    ensures a.Plus(b).Counts() == a.Counts().Plus(b.Counts())
  {
  }

  /** Before the inner functions: the source name, the constants and the code, and the slot of f itself. */
  function HeadTables(f: Func, slot: Slot): Tables {
    Tables([NameEntry(f.source)] + ConstStrs(f.consts), ConstNums(f.consts), [f.code], [], [slot])
  }

  function DebugTables(f: Func): Tables {
    Tables(LocalNames(f.locals) + Names(f.upnames), [], [], [f.lines], [])
  }

  function Head(f: Func): Base {
    Base(1 + |ConstStrs(f.consts)|, |ConstNums(f.consts)|, 1, 0, 1)
  }

  function FuncTables(f: Func, b: Base): Tables
    decreases f, |f.protos| + 1, 1
  {
    var inner := ProtoTables(f, |f.protos|, b.Plus(Head(f)));
    HeadTables(f, SlotOf(f, b, inner.Counts())).Plus(inner).Plus(DebugTables(f))
  }

  /** The first i inner functions of f. */
  function ProtoTables(f: Func, i: nat, b: Base): Tables
    requires i <= |f.protos|
    decreases f, i
  {
    if i == 0 then Tables([], [], [], [], [])
    else
      var t := ProtoTables(f, i - 1, b);
      t.Plus(FuncTables(f.protos[i - 1], b.Plus(t.Counts())))
  }

  /** The slots of the inner functions. */
  function ProtoIds(f: Func, i: nat, b: Base): (r: seq<nat>)
    requires i <= |f.protos|
    ensures |r| == i
    decreases f, i
  {
    if i == 0 then [] else ProtoIds(f, i - 1, b) + [b.f + |ProtoTables(f, i - 1, b).funcs|]
  }

  /** The slot of f, when the tables have b entries before it is read and inner is what its inner functions add. */
  function SlotOf(f: Func, b: Base, inner: Base): Slot
    decreases f, |f.protos| + 1, 0
  {
    var h := b.Plus(Head(f));
    var e := h.Plus(inner);
    HeadSlot(f, b).(p := ProtoIds(f, |f.protos|, h), lineinfo := e.l,
                    locals := LocalSlots(f.locals, e.s), upnames := Range(e.s + |f.locals|, |f.upnames|))
  }

  /** What is known of the slot before the inner functions are read. */
  function HeadSlot(f: Func, b: Base): Slot {
    Slot(b.s, f.line, f.lastLine, f.params, f.vararg, f.stack, b.c, ConstRefs(f.consts, b.s + 1, b.n), f.upvalues,
         [], 0, [], [])
  }
}
