/**
 lwip/core/inet_chksum.c: the Internet checksum (sections 1 and 2 of RFC 1071).

 Sums are taken over 16-bit words as a little-endian host reads them, with 32-bit
 accumulators written out as arithmetic modulo 2^32.
 */
module Checksum {
  import opened Basics

  type U16 = x: int | 0 <= x < 0x1_0000

  // ---------- the specification ----------

  /** The 16-bit word with the given low and high byte. */
  function Word(lo: nat, hi: nat): nat {
    lo + 256 * hi
  }

  /** Sum of the 16-bit words of b as a little-endian host reads them; an odd last byte is padded with zero. */
  function WordSum(b: seq<Byte>): nat {
    if |b| == 0 then 0
    else if |b| == 1 then b[0]
    else Word(b[0], b[1]) + WordSum(b[2..])
  }

  /** Ones'-complement canonical form: 0 stays 0, everything else lands in 1..65535. */
  function Canon(n: nat): nat {
    if n == 0 then 0 else (n - 1) % 65535 + 1
  }

  /** The non-inverted Internet sum of b. */
  function Sum16(b: seq<Byte>): nat {
    Canon(WordSum(b))
  }

  // ---------- the macros ----------

  /** FOLD_U32T, spelled out at line 106 */
  function Fold(x: nat): nat {
    x / 0x1_0000 + x % 0x1_0000
  }

  /** SWAP_BYTES_IN_WORD, and lwip_htons on a little-endian host */
  function Swap(x: nat): nat {
    (x % 256) * 256 + x / 256 % 256
  }

  /** u32_t addition */
  function Add32(a: nat, b: nat): nat {
    (a + b) % 0x1_0000_0000
  }

  // ---------- congruence ----------

  /** Same residue modulo 65535, and zero together. */
  ghost predicate Cong(a: nat, b: nat) {
    a % 65535 == b % 65535 && (a == 0 <==> b == 0)
  }

  lemma CanonCong(a: nat, b: nat)
    requires Cong(a, b)
    ensures Canon(a) == Canon(b)
  {
  }

  lemma CanonIsCong(a: nat)
    ensures Cong(Canon(a), a) && Canon(a) <= 65535
    ensures a <= 65535 ==> Canon(a) == a
  {
  }

  lemma CongSym(a: nat, b: nat)
    requires Cong(a, b)
    ensures Cong(b, a)
  {
  }

  lemma CongTrans(a: nat, b: nat, c: nat)
    requires Cong(a, b) && Cong(b, c)
    ensures Cong(a, c)
  {
  }

  lemma CongAdd(a: nat, b: nat, c: nat)
    requires Cong(a, b)
    ensures Cong(a + c, b + c)
  {
  }

  lemma CongScale(a: nat, b: nat)
    requires Cong(a, b)
    ensures Cong(256 * a, 256 * b)
  {
    assert 256 * a - 256 * b == 65535 * (256 * (a / 65535 - b / 65535));
  }

  /** Multiplying by 256 twice is the identity. */
  lemma CongWrap(a: nat, c: nat)
    ensures Cong(65536 * a + c, a + c)
  {
  }

  lemma FoldCong(x: nat)
    ensures Cong(Fold(x), x)
  {
    assert x == 65535 * (x / 0x1_0000) + Fold(x);
  }

  lemma FoldSmall(x: nat)
    requires x < 0x1_0000
    ensures Fold(x) == x
  {
  }

  lemma Add32Exact(a: nat, b: nat)
    requires a + b < 0x1_0000_0000
    ensures Add32(a, b) == a + b
  {
  }

  lemma FoldTwice(x: nat)
    requires x < 0x1_0000_0000
    ensures Fold(Fold(x)) == Canon(x)
  {
    assert Fold(Fold(x)) <= 65535;
    hide Canon, Cong, Fold;
    FoldCong(x);
    FoldCong(Fold(x));
    CongTrans(Fold(Fold(x)), Fold(x), x);
    CanonCong(Fold(Fold(x)), x);
    CanonIsCong(Fold(Fold(x)));
  }

  lemma SwapCong(x: nat)
    requires x <= 65535
    ensures Swap(x) <= 65535 && Cong(Swap(x), 256 * x)
  {
    var h, l := x / 256, x % 256;
    assert x == 256 * h + l && Swap(x) == 256 * l + h;
    CongWrap(h, 256 * l);
  }

  lemma SwapCanon(x: nat)
    ensures Swap(Canon(x)) == Canon(256 * x)
  {
    CanonIsCong(x);
    hide Canon, Cong, Swap;
    SwapCong(Canon(x));
    CongScale(Canon(x), x);
    CongTrans(Swap(Canon(x)), 256 * Canon(x), 256 * x);
    CanonCong(Swap(Canon(x)), 256 * x);
    CanonIsCong(Swap(Canon(x)));
  }

  // ---------- word sums ----------

  lemma {:induction false} WordSumConcat(x: seq<Byte>, y: seq<Byte>)
    requires |x| % 2 == 0
    ensures WordSum(x + y) == WordSum(x) + WordSum(y)
  {
    if |x| == 0 {
      assert x + y == y;
    } else {
      assert (x + y)[2..] == x[2..] + y;
      WordSumConcat(x[2..], y);
    }
  }

  lemma WordSumEmpty()
    ensures WordSum([]) == 0
  {
  }

  /** Shifting the bytes by one position multiplies by 256. */
  lemma {:induction false} WordSumShift(b: seq<Byte>)
    requires |b| > 0
    ensures Cong(WordSum(b), b[0] + 256 * WordSum(b[1..]))
  {
    if |b| > 2 {
      var rest := b[2..];
      WordSumStep(b, 1);
      assert b[1 + 2..] == rest[1..];
      WordSumShift(rest);
      WordSumShiftStep(b[0], b[1], rest[0], WordSum(rest), WordSum(rest[1..]));
    } else if |b| == 2 {
      assert WordSum(b[2..]) == 0 && WordSum(b[1..]) == b[1];
    }
  }

  lemma WordSumShiftStep(x: Byte, y: Byte, z: Byte, w: nat, v: nat)
    requires Cong(w, z + 256 * v)
    ensures Cong(Word(x, y) + w, x + 256 * (Word(y, z) + v))
  {
    var s := x + 256 * (Word(y, z) + v);
    CongAdd(w, z + 256 * v, Word(x, y));
    CongWrap(z, Word(x, y) + 256 * v);
    hide Cong;
    assert z + 256 * v + Word(x, y) == z + (Word(x, y) + 256 * v) && s == 65536 * z + (Word(x, y) + 256 * v);
    CongSym(s, z + (Word(x, y) + 256 * v));
    CongTrans(Word(x, y) + w, z + (Word(x, y) + 256 * v), s);
  }

  lemma WordSumConcatOdd(x: seq<Byte>, y: seq<Byte>)
    requires |x| % 2 == 1
    ensures Cong(WordSum(x + y), WordSum(x) + 256 * WordSum(y))
  {
    var i := |x| - 1;
    hide WordSum, Cong;
    var u, l := x[..i], [x[i]];
    assert x + y == u + (l + y) && x == u + l;
    WordSumConcat(u, l + y);
    WordSumConcat(u, l);
    WordSumOneOdd(x[i], y);
    CongAdd(WordSum(l + y), WordSum(l) + 256 * WordSum(y), WordSum(u));
    assert WordSum(x + y) == WordSum(l + y) + WordSum(u);
    assert WordSum(x) + 256 * WordSum(y) == WordSum(l) + 256 * WordSum(y) + WordSum(u);
  }

  lemma WordSumOneOdd(b: Byte, y: seq<Byte>)
    ensures Cong(WordSum([b] + y), WordSum([b]) + 256 * WordSum(y))
  {
    assert WordSum([b]) == b;
    hide Cong, WordSum;
    WordSumShift([b] + y);
    assert ([b] + y)[1..] == y;
  }

  lemma {:induction false} WordSumBound(b: seq<Byte>)
    ensures WordSum(b) <= 65535 * ((|b| + 1) / 2)
  {
    if |b| >= 2 { WordSumBound(b[2..]); }
  }

  // ---------- version 1 ----------

  /** Sum of the words with the first byte most significant. */
  function NetSum(b: seq<Byte>): nat {
    if |b| == 0 then 0
    else if |b| == 1 then Word(0, b[0])
    else Word(b[1], b[0]) + NetSum(b[2..])
  }

  lemma {:induction false} NetSumBound(b: seq<Byte>)
    ensures NetSum(b) <= 65535 * ((|b| + 1) / 2)
  {
    if |b| >= 2 { NetSumBound(b[2..]); }
  }

  lemma {:induction false} NetSumSwaps(b: seq<Byte>)
    ensures Cong(256 * NetSum(b), WordSum(b))
  {
    if |b| == 1 {
      CongWrap(b[0], 0);
    } else if |b| >= 2 {
      NetSumSwaps(b[2..]);
      NetSumSwapsStep(NetSum(b[2..]), WordSum(b[2..]), b[0], b[1]);
    }
  }

  lemma NetSumSwapsStep(n: nat, w: nat, x: Byte, y: Byte)
    requires Cong(256 * n, w)
    ensures Cong(256 * (Word(y, x) + n), Word(x, y) + w)
  {
    CongAdd(256 * n, w, 256 * Word(y, x));
    CongWrap(x, Word(0, y) + w);
    hide Cong;
    CongTrans(256 * (Word(y, x) + n), 256 * Word(y, x) + w, Word(x, y) + w);
  }

  lemma NetSumFinish(b: seq<Byte>)
    requires |b| <= 0x20000
    ensures NetSum(b) < 0x1_0000_0000
    ensures Swap(Fold(Fold(NetSum(b)))) == Sum16(b)
    ensures Fold(NetSum(b)) < 0x1_0000 ==> Fold(Fold(NetSum(b))) == Fold(NetSum(b))
  {
    NetSumBound(b);
    NetSumSwaps(b);
    hide NetSum, WordSum, Cong, Canon, Fold, Swap;
    FoldTwice(NetSum(b));
    SwapCanon(NetSum(b));
    CanonCong(256 * NetSum(b), WordSum(b));
    if Fold(NetSum(b)) < 0x1_0000 { FoldSmall(Fold(NetSum(b))); }
  }

  lemma NetSumStep(b: seq<Byte>, i: nat)
    requires i < |b|
    ensures i + 1 < |b| ==> NetSum(b[i..]) == Word(b[i + 1], b[i]) + NetSum(b[i + 2..])
    ensures i + 1 == |b| ==> NetSum(b[i..]) == Word(0, b[i])
  {
    if i + 1 < |b| { assert b[i..][2..] == b[i + 2..]; }
  }

  /** lwip_standard_chksum, version 1 */
  method Chksum1(data: seq<Byte>) returns (r: nat)
    requires |data| <= 0x20000
    ensures r == Sum16(data)
  {
    NetSumFinish(data);
    assert data[0..] == data;
    assert NetSum([]) == 0;
    hide Fold, Swap, Sum16, Add32, NetSum, Word;
    var acc: nat, i := 0, 0;
    while |data| - i > 1
      invariant 0 <= i <= |data|
      invariant acc + NetSum(data[i..]) == NetSum(data)
    {
      NetSumStep(data, i);
      Add32Exact(acc, Word(data[i + 1], data[i]));
      acc := Add32(acc, Word(data[i + 1], data[i]));
      i := i + 2;
    }
    if |data| - i > 0 {
      NetSumStep(data, i);
      Add32Exact(acc, Word(0, data[i]));
      acc := Add32(acc, Word(0, data[i]));
    } else {
      assert data[i..] == [];
    }
    assert acc == NetSum(data);
    acc := Fold(acc);
    if acc >= 0x1_0000 { acc := Fold(acc); }
    r := Swap(acc);
  }

  // ---------- version 2 ----------

  lemma WordSumStep(b: seq<Byte>, i: nat)
    requires i < |b|
    ensures i + 1 < |b| ==> WordSum(b[i..]) == Word(b[i], b[i + 1]) + WordSum(b[i + 2..])
    ensures i + 1 == |b| ==> WordSum(b[i..]) == b[i]
  {
    if i + 1 < |b| { assert b[i..][2..] == b[i + 2..]; }
  }

  /** What the loops of versions 2 and 3 add up when the data starts at an odd address:
      the first byte as a high byte, the rest in words. */
  function Rotated(b: seq<Byte>): nat {
    if |b| == 0 then 0 else Word(0, b[0]) + WordSum(b[1..])
  }

  lemma RotatedSwaps(b: seq<Byte>)
    ensures Cong(256 * Rotated(b), WordSum(b))
  {
    if |b| > 0 {
      WordSumShift(b);
      RotatedArith(b[0], WordSum(b[1..]), WordSum(b));
    }
  }

  lemma RotatedArith(x: Byte, v: nat, w: nat)
    requires Cong(w, x + 256 * v)
    ensures Cong(256 * (Word(0, x) + v), w)
  {
    hide Cong;
    assert 256 * (Word(0, x) + v) == 65536 * x + 256 * v;
    CongSym(w, x + 256 * v);
    CongWrap(x, 256 * v);
    CongTrans(65536 * x + 256 * v, x + 256 * v, w);
  }

  /** The words of b as read from an even or odd start address. */
  function Seen(b: seq<Byte>, odd: bool): nat {
    if odd then Rotated(b) else WordSum(b)
  }

  /** Any accumulator congruent to what was seen is finished by two folds and, at an odd address, a swap. */
  lemma SeenFinish(b: seq<Byte>, odd: bool, acc: nat)
    requires acc < 0x1_0000_0000 && Cong(acc, Seen(b, odd))
    ensures (if odd then Swap(Fold(Fold(acc))) else Fold(Fold(acc))) == Sum16(b)
  {
    FoldTwice(acc);
    CanonCong(acc, Seen(b, odd));
    if odd {
      SwapCanon(Rotated(b));
      RotatedSwaps(b);
      CanonCong(256 * Rotated(b), WordSum(b));
    }
  }

  lemma SeenBound(b: seq<Byte>, odd: bool)
    requires |b| <= 0x20000
    ensures Seen(b, odd) < 0x1_0000_0000
  {
    if odd && |b| > 0 { WordSumBound(b[1..]); } else { WordSumBound(b); }
  }

  /** The end of versions 2 and 3: the dangling byte goes into the low byte of t (zero so far), then
      two folds and, at an odd address, a swap. */
  method FinishSum(data: seq<Byte>, i: nat, t0: nat, sum0: nat, odd: bool) returns (r: nat)
    requires i <= |data| && |data| - i <= 1
    requires t0 + sum0 + WordSum(data[i..]) < 0x1_0000_0000
    requires Cong(t0 + sum0 + WordSum(data[i..]), Seen(data, odd))
    ensures r == Sum16(data)
  {
    hide Fold, Swap, Sum16, Cong, Add32, Seen;
    var t: nat := t0;
    if |data| - i > 0 {
      WordSumStep(data, i);
      t := t + data[i];
    }
    Add32Exact(sum0, t);
    var sum := Add32(sum0, t);
    SeenFinish(data, odd, sum);
    sum := Fold(sum);
    sum := Fold(sum);
    if odd { sum := Swap(sum); }
    r := sum;
  }

  /** lwip_standard_chksum, version 2; odd says whether the data starts at an odd address. */
  method Chksum2(data: seq<Byte>, odd: bool) returns (r: nat)
    requires |data| <= 0x20000
    ensures r == Sum16(data)
  {
    SeenBound(data, odd);
    SeenStart(data, odd);
    hide Fold, Swap, Sum16, Cong, Add32, WordSum, Seen;
    var t: nat, sum: nat, i := 0, 0, 0;
    if odd && |data| > 0 {
      t := Word(0, data[0]);
      i := 1;
    }
    while |data| - i > 1
      invariant 0 <= i <= |data|
      invariant t + sum + WordSum(data[i..]) == Seen(data, odd)
    {
      WordSumStep(data, i);
      Add32Exact(sum, Word(data[i], data[i + 1]));
      sum := Add32(sum, Word(data[i], data[i + 1]));
      i := i + 2;
    }
    CongRefl(Seen(data, odd));
    r := FinishSum(data, i, t, sum, odd);
  }

  lemma SeenStart(b: seq<Byte>, odd: bool)
    ensures WordSum([]) == 0
    ensures var i := if odd && |b| > 0 then 1 else 0;
            Seen(b, odd) == (if i == 1 then Word(0, b[0]) else 0) + WordSum(b[i..])
  {
    assert b[0..] == b;
  }

  lemma CongRefl(a: nat)
    ensures Cong(a, a)
  {
  }

  // ---------- version 3 ----------

  /** The 32-bit word at position i as a little-endian host reads it. */
  function Long(b: seq<Byte>, i: nat): nat
    requires i + 4 <= |b|
  {
    Word(b[i], b[i + 1]) + 0x1_0000 * Word(b[i + 2], b[i + 3])
  }

  /** 32-bit addition with the carry added back. */
  function AddCarry(s: nat, w: nat): nat {
    var t := Add32(s, w);
    if t < s then Add32(t, 1) else t
  }

  lemma AddCarryCong(s: nat, w: nat)
    requires s < 0x1_0000_0000 && w < 0x1_0000_0000
    ensures AddCarry(s, w) < 0x1_0000_0000 && Cong(AddCarry(s, w), s + w)
  {
    if s + w < 0x1_0000_0000 {
      assert AddCarry(s, w) == s + w;
      CongRefl(s + w);
    } else {
      assert AddCarry(s, w) == s + w - 65535 * 65537;
      hide Cong;
      CongMultiple(AddCarry(s, w), 65537);
    }
  }

  lemma CongMultiple(x: nat, k: nat)
    requires x > 0
    ensures Cong(x, x + 65535 * k)
  {
  }

  lemma LongStep(b: seq<Byte>, i: nat, t: nat, s: nat, total: nat)
    requires i + 4 <= |b| && s < 0x1_0000_0000 && Cong(t + s + WordSum(b[i..]), total)
    ensures AddCarry(s, Long(b, i)) < 0x1_0000_0000
    ensures Cong(t + AddCarry(s, Long(b, i)) + WordSum(b[i + 4..]), total)
  {
    hide Cong, WordSum, AddCarry;
    WordSumStep(b, i);
    WordSumStep(b, i + 2);
    assert t + s + WordSum(b[i..]) ==
           t + s + (Word(b[i], b[i + 1]) + (Word(b[i + 2], b[i + 3]) + WordSum(b[i + 4..])));
    LongStepArith(Word(b[i], b[i + 1]), Word(b[i + 2], b[i + 3]), t, s, WordSum(b[i + 4..]), total);
  }

  lemma LongStepArith(l: nat, h: nat, t: nat, s: nat, w: nat, total: nat)
    requires l < 0x1_0000 && h < 0x1_0000 && s < 0x1_0000_0000 && Cong(t + s + (l + (h + w)), total)
    ensures var a := AddCarry(s, l + 0x1_0000 * h);
            a < 0x1_0000_0000 && Cong(t + a + w, total)
  {
    var a, rest := AddCarry(s, l + 0x1_0000 * h), l + s + t + w;
    AddCarryCong(s, l + 0x1_0000 * h);
    hide AddCarry, Cong;
    CongAdd(a, s + (l + 0x1_0000 * h), t + w);
    CongWrap(h, rest);
    assert t + a + w == a + (t + w) && s + (l + 0x1_0000 * h) + (t + w) == 0x1_0000 * h + rest;
    CongTrans(t + a + w, 0x1_0000 * h + rest, h + rest);
    CongTrans(t + a + w, h + rest, total);
  }

  /** The loop of version 3 that takes 8 bytes at a time. */
  method EightAtATime(data: seq<Byte>, start: nat, t: nat, sum0: nat, ghost total: nat) returns (sum: nat, i: nat)
    requires start <= |data| && sum0 < 0x1_0000_0000 && Cong(t + sum0 + WordSum(data[start..]), total)
    ensures start <= i <= |data| && |data| - i <= 7 && sum < 0x1_0000_0000
    ensures Cong(t + sum + WordSum(data[i..]), total)
  {
    hide Cong, WordSum, AddCarry, Long;
    sum, i := sum0, start;
    while |data| - i > 7
      invariant start <= i <= |data| && sum < 0x1_0000_0000
      invariant Cong(t + sum + WordSum(data[i..]), total)
    {
      LongStep(data, i, t, sum, total);
      var tmp := AddCarry(sum, Long(data, i));
      LongStep(data, i + 4, t, tmp, total);
      sum := AddCarry(tmp, Long(data, i + 4));
      i := i + 8;
    }
  }

  /** The loop of version 3 over the up to three words that remain. */
  method LastWords(data: seq<Byte>, start: nat, t: nat, sum0: nat, ghost total: nat) returns (sum: nat, i: nat)
    requires start <= |data| && |data| - start <= 7 && sum0 <= 0x1_fffe
    requires Cong(t + sum0 + WordSum(data[start..]), total)
    ensures start <= i <= |data| && |data| - i <= 1 && sum <= 0xf_ffff
    ensures Cong(t + sum + WordSum(data[i..]), total)
  {
    hide Cong, WordSum, Add32, Word;
    sum, i := sum0, start;
    while |data| - i > 1
      invariant start <= i <= |data|
      invariant sum <= 0x1_fffe + 0xffff * (7 - (|data| - i))
      invariant Cong(t + sum + WordSum(data[i..]), total)
    {
      var w := Word(data[i], data[i + 1]);
      WordSumStep(data, i);
      WordBound(data[i], data[i + 1]);
      Add32Exact(sum, w);
      assert t + (sum + w) + WordSum(data[i + 2..]) == t + sum + WordSum(data[i..]);
      sum := Add32(sum, w);
      i := i + 2;
    }
  }

  lemma WordBound(x: Byte, y: Byte)
    ensures Word(x, y) <= 0xffff
  {
  }

  /** lwip_standard_chksum, version 3, for data starting at address addr. */
  method Chksum3(data: seq<Byte>, addr: nat) returns (r: nat)
    ensures r == Sum16(data)
  {
    var odd := addr % 2 == 1;
    ghost var total := Seen(data, odd);
    SeenStart(data, odd);
    CongRefl(total);
    hide Fold, Swap, Sum16, Cong, Add32, WordSum, Seen;
    var t: nat, sum: nat, i: nat := 0, 0, 0;
    if odd && |data| > 0 {
      t := Word(0, data[0]);
      i := 1;
    }
    if (addr + i) % 4 != 0 && |data| - i > 1 {
      WordSumStep(data, i);
      Add32Exact(sum, Word(data[i], data[i + 1]));
      sum := Add32(sum, Word(data[i], data[i + 1]));
      i := i + 2;
    }
    assert t <= 0xff00 && t + sum + WordSum(data[i..]) == total;
    sum, i := EightAtATime(data, i, t, sum, total);
    assert sum + (t + WordSum(data[i..])) == t + sum + WordSum(data[i..]);
    FoldStep(t + WordSum(data[i..]), sum, total);
    sum := Fold(sum);
    assert sum + (t + WordSum(data[i..])) == t + sum + WordSum(data[i..]);
    sum, i := LastWords(data, i, t, sum, total);
    WordSumBound(data[i..]);
    r := FinishSum(data, i, t, sum, odd);
  }

  lemma FoldStep(rest: nat, sum: nat, total: nat)
    requires sum < 0x1_0000_0000 && Cong(sum + rest, total)
    ensures Fold(sum) <= 0x1_fffe && Cong(Fold(sum) + rest, total)
  {
    FoldCong(sum);
    CongAdd(Fold(sum), sum, rest);
    CongTrans(Fold(sum) + rest, sum + rest, total);
  }

  // ---------- buffer chains ----------

  /** A buffer of a chain: its bytes and whether they start at an odd address. */
  datatype Pbuf = Pbuf(payload: seq<Byte>, odd: bool)

  function Payload(p: seq<Pbuf>): seq<Byte> {
    if p == [] then [] else Payload(p[..|p| - 1]) + p[|p| - 1].payload
  }

  /** len is a u16_t */
  ghost predicate ChainOk(p: seq<Pbuf>) {
    forall i :: 0 <= i < |p| ==> |p[i].payload| <= 0xffff
  }

  /** acc stands for x, byte-swapped when an odd number of bytes has gone by. */
  ghost predicate Holds(acc: nat, swapped: bool, x: nat) {
    acc <= 65535 && Cong(acc, if swapped then 256 * x else x)
  }

  /** Adding one buffer, before the swap for its own odd length. */
  lemma AddBuffer(acc: nat, swapped: bool, base: nat, done: seq<Byte>, next: seq<Byte>)
    requires Holds(acc, swapped, base + WordSum(done)) && swapped == (|done| % 2 == 1)
    ensures Holds(Fold(acc + Sum16(next)), swapped, base + WordSum(done + next))
  {
    hide Cong, WordSum, Fold, Canon;
    CanonIsCong(WordSum(next));
    if swapped {
      WordSumConcatOdd(done, next);
      AddSwapped(acc, base + WordSum(done), Sum16(next), WordSum(next), base, WordSum(done), WordSum(done + next));
    } else {
      WordSumConcat(done, next);
      AddPlain(acc, base + WordSum(done), Sum16(next), WordSum(next));
      assert base + WordSum(done + next) == base + WordSum(done) + WordSum(next);
    }
  }

  lemma AddPlain(acc: nat, y: nat, s: nat, w: nat)
    requires acc <= 65535 && s <= 65535 && Cong(acc, y) && Cong(s, w)
    ensures Fold(acc + s) <= 65535 && Cong(Fold(acc + s), y + w)
  {
    FoldBound(acc + s);
    hide Fold, Cong;
    FoldCong(acc + s);
    CongSum(acc, y, s, w);
    CongTrans(Fold(acc + s), acc + s, y + w);
  }

  lemma AddSwapped(acc: nat, x: nat, s: nat, w: nat, base: nat, d: nat, e: nat)
    requires acc <= 65535 && s <= 65535 && Cong(acc, 256 * x) && Cong(s, w)
    requires x == base + d && Cong(e, d + 256 * w)
    ensures Fold(acc + s) <= 65535 && Cong(Fold(acc + s), 256 * (base + e))
  {
    AddPlain(acc, 256 * x, s, w);
    hide Fold, Cong;
    CongAdd(e, d + 256 * w, base);
    assert e + base == base + e && d + 256 * w + base == x + 256 * w;
    AddBufferOdd(x, w, base + e);
    CongTrans(Fold(acc + s), 256 * x + w, 256 * (base + e));
  }

  lemma FoldBound(x: nat)
    requires x <= 0x1_fffe
    ensures Fold(x) <= 65535
  {
  }

  lemma CongSum(a: nat, b: nat, c: nat, d: nat)
    requires Cong(a, b) && Cong(c, d)
    ensures Cong(a + c, b + d)
  {
    CongAdd(a, b, c);
    CongAdd(c, d, b);
    hide Cong;
    assert c + b == b + c && d + b == b + d;
    CongTrans(a + c, b + c, b + d);
  }

  lemma AddBufferOdd(x: nat, w: nat, y: nat)
    requires Cong(y, x + 256 * w)
    ensures Cong(256 * x + w, 256 * y)
  {
    CongWrap(w, 256 * x);
    CongScale(y, x + 256 * w);
    hide Cong;
    assert 256 * (x + 256 * w) == 65536 * w + 256 * x && w + 256 * x == 256 * x + w;
    CongTrans(256 * y, 65536 * w + 256 * x, w + 256 * x);
    CongSym(256 * y, w + 256 * x);
  }

  /** Swapping the accumulator together with the flag keeps what it stands for. */
  lemma SwapBoth(acc: nat, swapped: bool, x: nat)
    requires Holds(acc, swapped, x)
    ensures Holds(Swap(acc), !swapped, x)
  {
    SwapCong(acc);
    hide Cong, Swap;
    CongScale(acc, if swapped then 256 * x else x);
    if swapped {
      CongWrap(x, 0);
      CongTrans(256 * acc, 256 * (256 * x), x);
      CongTrans(Swap(acc), 256 * acc, x);
    } else {
      CongTrans(Swap(acc), 256 * acc, 256 * x);
    }
  }

  /** The loop over the chain shared by inet_cksum_pseudo_base and inet_chksum_pbuf:
      whatever the split into buffers, the result is the sum over the concatenation. */
  method ChainSum(p: seq<Pbuf>, base: nat) returns (acc: nat)
    requires ChainOk(p) && base <= 65535
    ensures acc <= 65535 && Cong(acc, base + WordSum(Payload(p)))
  {
    CongRefl(base);
    hide Cong, WordSum, Swap, Fold, Sum16;
    acc := base;
    var swapped := false;
    WordSumEmpty();
    for k := 0 to |p|
      invariant swapped == (|Payload(p[..k])| % 2 == 1)
      invariant Holds(acc, swapped, base + WordSum(Payload(p[..k])))
    {
      ghost var done, next := Payload(p[..k]), p[k].payload;
      assert p[..k + 1][..k] == p[..k];
      var c := Chksum2(p[k].payload, p[k].odd);
      AddBuffer(acc, swapped, base, done, next);
      acc := Fold(acc + c);
      if |p[k].payload| % 2 != 0 {
        SwapBoth(acc, swapped, base + WordSum(done + next));
        swapped := !swapped;
        acc := Swap(acc);
      }
    }
    assert p[..|p|] == p;
    if swapped {
      SwapBoth(acc, swapped, base + WordSum(Payload(p)));
      acc := Swap(acc);
    }
  }

  /** The bitwise complement of a 16-bit value. */
  function Invert(x: nat): int {
    65535 - x
  }

  /** inet_chksum */
  method InetChksum(data: seq<Byte>, odd: bool) returns (r: int)
    requires |data| <= 0xffff
    ensures r == Invert(Sum16(data))
  {
    var c := Chksum2(data, odd);
    r := Invert(c);
  }

  /** inet_chksum_pbuf: the checksum of a chain is the checksum of its bytes in a row. */
  method InetChksumPbuf(p: seq<Pbuf>) returns (r: int)
    requires ChainOk(p)
    ensures r == Invert(Sum16(Payload(p)))
  {
    var acc := ChainSum(p, 0);
    CanonIsCong(acc);
    CanonCong(acc, WordSum(Payload(p)));
    r := Invert(acc);
  }

  // ---------- pseudo headers ----------

  /** The pseudo header of section 3.1 of RFC 793 for IPv4 addresses, and of section 8.1 of
      RFC 2460 for IPv6 addresses, in network byte order. */
  function PseudoHeader(src: seq<Byte>, dst: seq<Byte>, proto: Byte, len: U16): seq<Byte> {
    var hi: Byte, lo: Byte := len / 256, len % 256;
    src + dst + if |src| == 4 then [0, proto, hi, lo] else [0, 0, hi, lo, 0, 0, 0, proto]
  }

  lemma PseudoHeaderSum(src: seq<Byte>, dst: seq<Byte>, proto: Byte, len: U16, data: seq<Byte>)
    requires |src| == |dst| && (|src| == 4 || |src| == 16)
    ensures WordSum(PseudoHeader(src, dst, proto, len) + data) ==
            WordSum(src) + WordSum(dst) + Swap(proto) + Swap(len) + WordSum(data)
  {
    var hi: Byte, lo: Byte := len / 256, len % 256;
    var tail: seq<Byte> := if |src| == 4 then [0, proto, hi, lo] else [0, 0, hi, lo, 0, 0, 0, proto];
    TailSum4(proto, hi, lo);
    TailSum8(proto, hi, lo);
    assert Swap(proto) == Word(0, proto) && Swap(len) == Word(hi, lo);
    hide WordSum, Swap, Word;
    WordSumConcat(src + dst + tail, data);
    WordSumConcat(src + dst, tail);
    WordSumConcat(src, dst);
  }

  lemma TailSum4(p: Byte, h: Byte, l: Byte)
    ensures WordSum([0, p, h, l]) == Word(0, p) + Word(h, l)
  {
    WordSumConcat([0, p], [h, l]);
    assert [0, p, h, l] == [0, p] + [h, l];
    WordSumTwo(0, p);
    WordSumTwo(h, l);
  }

  lemma TailSum8(p: Byte, h: Byte, l: Byte)
    ensures WordSum([0, 0, h, l, 0, 0, 0, p]) == Word(0, p) + Word(h, l)
  {
    WordSumConcat([0, 0, h, l], [0, 0, 0, p]);
    assert [0, 0, h, l, 0, 0, 0, p] == [0, 0, h, l] + [0, 0, 0, p];
    TailSum4(0, h, l);
    TailSum4(0, 0, p);
  }

  lemma WordSumTwo(x: Byte, y: Byte)
    ensures WordSum([x, y]) == Word(x, y)
  {
  }

  /** The loop over both addresses, 32 bits of each at a time (one round for IPv4, four for IPv6);
      adding the two halves of an address word is Fold. */
  method AddressSum(src: seq<Byte>, dst: seq<Byte>) returns (acc: nat)
    requires |src| == |dst| && (|src| == 4 || |src| == 16)
    ensures acc == Canon(WordSum(src) + WordSum(dst))
  {
    acc := 0;
    var i := 0;
    assert src[0..] == src && dst[0..] == dst;
    WordSumEmpty();
    hide WordSum, Long, Fold, Canon;
    while i < |src|
      invariant 0 <= i <= |src| && (i == 0 || i == 4 || i == 8 || i == 12 || i == 16)
      invariant acc <= 65535 * i
      invariant acc + WordSum(src[i..]) + WordSum(dst[i..]) == WordSum(src) + WordSum(dst)
    {
      var s, d := Long(src, i), Long(dst, i);
      AddressPart(src, i);
      AddressPart(dst, i);
      acc := acc + Fold(s) + Fold(d);
      i := i + 4;
    }
    assert src[i..] == [] == dst[i..];
    FoldTwice(acc);
    acc := Fold(acc);
    acc := Fold(acc);
  }

  lemma AddressPart(b: seq<Byte>, i: nat)
    requires i + 4 <= |b|
    ensures Fold(Long(b, i)) + WordSum(b[i + 4..]) == WordSum(b[i..])
    ensures Fold(Long(b, i)) <= 2 * 65535
  {
    hide WordSum, Word, Fold;
    WordBound(b[i], b[i + 1]);
    WordBound(b[i + 2], b[i + 3]);
    WordSumStep(b, i);
    WordSumStep(b, i + 2);
    FoldLong(Word(b[i], b[i + 1]), Word(b[i + 2], b[i + 3]));
  }

  lemma FoldLong(l: nat, h: nat)
    requires l < 0x1_0000
    ensures Fold(l + 0x1_0000 * h) == l + h
  {
  }

  /** The end of inet_cksum_pseudo_base and inet_cksum_pseudo_partial_base. */
  method FinishPseudo(acc0: nat, proto: Byte, protoLen: U16, ghost total: nat) returns (r: int)
    requires acc0 <= 65535 && Cong(acc0, total)
    ensures r == Invert(Canon(total + Swap(proto) + Swap(protoLen)))
  {
    var a, b := Swap(proto), Swap(protoLen);
    assert a <= 65535 && b <= 65535;
    hide Swap, Fold, Canon, Cong;
    var acc := acc0 + a + b;
    FoldTwice(acc);
    CongAdd(acc0, total, a + b);
    assert acc == acc0 + (a + b) && total + a + b == total + (a + b);
    CanonCong(acc, total + a + b);
    acc := Fold(acc);
    acc := Fold(acc);
    r := Invert(acc);
  }

  /** inet_chksum_pseudo and ip6_chksum_pseudo: the checksum of the pseudo header followed by the payload. */
  method ChksumPseudo(p: seq<Pbuf>, proto: Byte, protoLen: U16, src: seq<Byte>, dst: seq<Byte>) returns (r: int)
    requires ChainOk(p) && |src| == |dst| && (|src| == 4 || |src| == 16)
    ensures r == Invert(Sum16(PseudoHeader(src, dst, proto, protoLen) + Payload(p)))
  {
    var acc := AddressSum(src, dst);
    ghost var addrs := WordSum(src) + WordSum(dst);
    CanonIsCong(addrs);
    PseudoHeaderSum(src, dst, proto, protoLen, Payload(p));
    hide WordSum, Cong, Canon, Swap, PseudoHeader;
    var sum := ChainSum(p, acc);
    CongAdd(acc, addrs, WordSum(Payload(p)));
    CongTrans(sum, acc + WordSum(Payload(p)), addrs + WordSum(Payload(p)));
    r := FinishPseudo(sum, proto, protoLen, addrs + WordSum(Payload(p)));
  }

  // ---------- the partial form ----------

  /** inet_cksum_pseudo_partial_base with the address part: only the first chksumLen bytes of the chain count,
      although the swapping follows the full length of each buffer. */
  method ChksumPseudoPartial(p: seq<Pbuf>, proto: Byte, protoLen: U16, chksumLen: U16, src: seq<Byte>, dst: seq<Byte>)
    returns (r: int)
    requires ChainOk(p) && |src| == |dst| && (|src| == 4 || |src| == 16)
    ensures var covered := Payload(p)[..Min(chksumLen, |Payload(p)|)];
            r == Invert(Sum16(PseudoHeader(src, dst, proto, protoLen) + covered))
  {
    var acc := AddressSum(src, dst);
    ghost var addrs := WordSum(src) + WordSum(dst);
    ghost var covered := Payload(p)[..Min(chksumLen, |Payload(p)|)];
    CanonIsCong(addrs);
    PseudoHeaderSum(src, dst, proto, protoLen, covered);
    hide WordSum, Cong, Canon, Swap, PseudoHeader;
    var sum := PartialChainSum(p, acc, chksumLen);
    CongAdd(acc, addrs, WordSum(covered));
    CongTrans(sum, acc + WordSum(covered), addrs + WordSum(covered));
    r := FinishPseudo(sum, proto, protoLen, addrs + WordSum(covered));
  }

  /** The loop of inet_cksum_pseudo_partial_base. */
  method PartialChainSum(p: seq<Pbuf>, base: nat, chksumLen: U16) returns (acc: nat)
    requires ChainOk(p) && base <= 65535
    ensures acc <= 65535 && Cong(acc, base + WordSum(Payload(p)[..Min(chksumLen, |Payload(p)|)]))
  {
    acc := base;
    var left: nat, swapped, k: nat := chksumLen, false, 0;
    PartialStart(p, base, chksumLen);
    hide Cong, WordSum, Swap, Fold, Sum16, PartialInv;
    while k < |p| && left > 0
      invariant k <= |p| && left <= chksumLen
      invariant PartialInv(p, k, base, chksumLen, left, swapped, acc)
    {
      var chklen := Min(|p[k].payload|, left);
      var c := Chksum2(p[k].payload[..chklen], p[k].odd);
      PartialStep(p, k, base, chksumLen, left, swapped, acc);
      acc := Fold(acc + c);
      left := left - chklen;
      if |p[k].payload| % 2 != 0 {
        swapped := !swapped;
        acc := Swap(acc);
      }
      k := k + 1;
    }
    PartialDone(p, k, base, chksumLen, left, swapped, acc);
    if swapped { acc := Swap(acc); }
  }

  /** What is covered after the first k buffers. */
  function Covered(p: seq<Pbuf>, k: nat, len: nat): seq<Byte>
    requires k <= |p|
  {
    Payload(p[..k])[..Min(len, |Payload(p[..k])|)]
  }

  ghost predicate PartialInv(p: seq<Pbuf>, k: nat, base: nat, len: nat, left: nat, swapped: bool, acc: nat)
    requires k <= |p|
  {
    && left == len - |Covered(p, k, len)|
    && (left > 0 ==> swapped == (|Payload(p[..k])| % 2 == 1))
    && Holds(acc, swapped, base + WordSum(Covered(p, k, len)))
  }

  lemma PartialStart(p: seq<Pbuf>, base: nat, len: nat)
    requires base <= 65535
    ensures PartialInv(p, 0, base, len, len, false, base)
  {
    assert Covered(p, 0, len) == [];
  }

  lemma PartialStep(p: seq<Pbuf>, k: nat, base: nat, len: nat, left: nat, swapped: bool, acc: nat)
    requires k < |p| && left > 0 && PartialInv(p, k, base, len, left, swapped, acc)
    ensures var chklen := Min(|p[k].payload|, left);
            var odd := |p[k].payload| % 2 != 0;
            var sum := Fold(acc + Sum16(p[k].payload[..chklen]));
            PartialInv(p, k + 1, base, len, left - chklen, if odd then !swapped else swapped,
                       if odd then Swap(sum) else sum)
  {
    var done, next := Covered(p, k, len), p[k].payload[..Min(|p[k].payload|, left)];
    hide Cong, WordSum, Swap, Fold, Sum16, Holds, Covered, Payload;
    CoveredStep(p, k, len, left);
    Parity(|Payload(p[..k])|, |p[k].payload|);
    PartialSum(acc, swapped, base, done, next, |p[k].payload| % 2 != 0);
  }

  lemma PartialSum(acc: nat, swapped: bool, base: nat, done: seq<Byte>, next: seq<Byte>, odd: bool)
    requires Holds(acc, swapped, base + WordSum(done)) && (swapped <==> |done| % 2 == 1)
    ensures var sum := Fold(acc + Sum16(next));
            Holds(if odd then Swap(sum) else sum, if odd then !swapped else swapped, base + WordSum(done + next))
  {
    hide Cong, WordSum, Swap, Fold, Sum16, Holds;
    AddBuffer(acc, swapped, base, done, next);
    if odd { SwapBoth(Fold(acc + Sum16(next)), swapped, base + WordSum(done + next)); }
  }

  lemma Parity(a: nat, b: nat)
    ensures ((a + b) % 2 == 1) == if b % 2 != 0 then a % 2 != 1 else a % 2 == 1
  {
  }

  lemma CoveredStep(p: seq<Pbuf>, k: nat, len: nat, left: nat)
    requires k < |p| && 0 < left == len - |Covered(p, k, len)|
    ensures Covered(p, k, len) == Payload(p[..k])
    ensures Covered(p, k + 1, len) == Covered(p, k, len) + p[k].payload[..Min(|p[k].payload|, left)]
    ensures |Payload(p[..k + 1])| == |Payload(p[..k])| + |p[k].payload|
  {
    PayloadStep(p, k, Payload(p[..k]), left);
  }

  lemma PartialDone(p: seq<Pbuf>, k: nat, base: nat, len: nat, left: nat, swapped: bool, acc: nat)
    requires k <= |p| && (k == |p| || left == 0) && PartialInv(p, k, base, len, left, swapped, acc)
    ensures var r := if swapped then Swap(acc) else acc;
            r <= 65535 && Cong(r, base + WordSum(Payload(p)[..Min(len, |Payload(p)|)]))
  {
    var done := Covered(p, k, len);
    CoveredIs(p, k, done, len);
    hide Cong, WordSum, Swap;
    if swapped { SwapBoth(acc, swapped, base + WordSum(done)); }
  }

  lemma CoveredIs(p: seq<Pbuf>, k: nat, done: seq<Byte>, len: nat)
    requires k <= |p| && done == Covered(p, k, len)
    requires k == |p| || |done| == len
    ensures done == Payload(p)[..Min(len, |Payload(p)|)]
  {
    PayloadPrefix(p, k);
    if k == |p| { assert p[..k] == p; }
  }

  lemma PayloadStep(p: seq<Pbuf>, k: nat, done: seq<Byte>, left: nat)
    requires k < |p| && done == Payload(p[..k])
    ensures var next := p[k].payload[..Min(|p[k].payload|, left)];
            && Payload(p[..k + 1]) == done + p[k].payload
            && done + next == Payload(p[..k + 1])[..Min(|done| + left, |Payload(p[..k + 1])|)]
  {
    assert p[..k + 1][..k] == p[..k];
  }

  lemma {:induction false} PayloadPrefix(p: seq<Pbuf>, k: nat)
    requires k <= |p|
    ensures Payload(p[..k]) <= Payload(p)
  {
    if k < |p| {
      PayloadPrefix(p[..|p| - 1], k);
      assert p[..|p| - 1][..k] == p[..k];
    } else {
      assert p[..k] == p;
    }
  }

  // ---------- what the checksum is for ----------

  /** A receiver summing data whose checksum field (two bytes at an even offset) holds the
      inverted sum computed with that field zero gets 0 from inet_chksum. */
  lemma FilledInVerifies(before: seq<Byte>, after: seq<Byte>, lo: Byte, hi: Byte)
    requires |before| % 2 == 0
    requires Word(lo, hi) == Invert(Sum16(before + [0, 0] + after))
    ensures Invert(Sum16(before + [lo, hi] + after)) == 0
  {
    var rest := WordSum(before) + WordSum(after);
    FieldSum(before, after, lo, hi);
    FieldSum(before, after, 0, 0);
    CanonIsCong(rest);
    hide WordSum, Canon, Cong;
    assert Canon(65535) == 65535 by { CanonIsCong(65535); }
    CongAdd(Canon(rest), rest, Word(lo, hi));
    assert Canon(rest) + Word(lo, hi) == 65535;
    CanonCong(65535, rest + Word(lo, hi));
  }

  lemma FieldSum(before: seq<Byte>, after: seq<Byte>, lo: Byte, hi: Byte)
    requires |before| % 2 == 0
    ensures WordSum(before + [lo, hi] + after) == WordSum(before) + WordSum(after) + Word(lo, hi)
  {
    WordSumTwo(lo, hi);
    hide WordSum;
    WordSumConcat(before + [lo, hi], after);
    WordSumConcat(before, [lo, hi]);
  }
}
