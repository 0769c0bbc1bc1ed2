/**
 lwip/core/dns.c: host names in DNS messages (sections 3.1, 4.1.2 and 4.1.4 of RFC 1035).
 dns_send writes a name as length-prefixed labels, dns_compare_name checks the copy that comes back
 in the question section, and dns_skip_name steps over names.
 */
module DnsNames {
  import opened Basics

  const DOT: Byte := 46

  /** The end of the label that starts at i. */
  function LabelEnd(name: seq<Byte>, i: nat): (j: nat)
    requires i <= |name|
    ensures i <= j <= |name| && (j < |name| ==> name[j] == DOT)
    decreases |name| - i
  {
    if i == |name| || name[i] == DOT then i else LabelEnd(name, i + 1)
  }

  /** All labels from i on have at most limit bytes. */
  predicate Short(name: seq<Byte>, i: nat, limit: nat)
    requires i <= |name|
    decreases |name| - i
  {
    var j := LabelEnd(name, i);
    j - i <= limit && (j < |name| ==> Short(name, j + 1, limit))
  }

  lemma {:induction false} InsideLabel(name: seq<Byte>, i: nat, m: nat)
    requires i <= |name| && i <= m < LabelEnd(name, i)
    ensures name[m] != DOT && LabelEnd(name, m) == LabelEnd(name, i)
    decreases m - i
  {
    if i < m { InsideLabel(name, i + 1, m); }
  }

  /** Byte k of the encoding: a length where a label starts, a final 0, else the character before. */
  function CodeAt(name: seq<Byte>, k: nat): Byte
    requires k <= |name| + 1
  {
    if k == |name| + 1 then 0
    else if k == 0 || name[k - 1] == DOT then AsU8(LabelEnd(name, k) - k)
    else name[k - 1]
  }

  lemma LabelCode(name: seq<Byte>, i: nat, k: nat)
    requires i <= |name| && (i == 0 || name[i - 1] == DOT) && i <= k <= LabelEnd(name, i)
    ensures CodeAt(name, k) == if k == i then AsU8(LabelEnd(name, i) - i) else name[k - 1]
  {
    if i < k { InsideLabel(name, i, k - 1); }
  }

  lemma LastCode(name: seq<Byte>)
    ensures CodeAt(name, |name| + 1) == 0
  {
  }

  /** Labels behind their lengths, and a final 0: section 3.1 of RFC 1035. */
  function Encode(name: seq<Byte>): seq<Byte> {
    seq(|name| + 2, k requires 0 <= k <= |name| + 1 => CodeAt(name, k))
  }

  // ---------- dns_send ----------

  /** How many bytes dns_send advances over, with its u8_t label length. */
  function Advanced(name: seq<Byte>, i: nat): nat
    requires i <= |name|
    decreases |name| - i
  {
    var j := LabelEnd(name, i);
    AsU8(j - i) + 1 + (if j < |name| then Advanced(name, j + 1) else 1)
  }

  /** The space of strlen + 2 bytes allocated for a name is filled exactly if and only if no label has 256 bytes or
      more. */
  lemma {:induction false} ExactSpace(name: seq<Byte>, i: nat)
    requires i <= |name|
    ensures Advanced(name, i) <= |name| - i + 2
    ensures Advanced(name, i) == |name| - i + 2 <==> Short(name, i, 0xff)
    decreases |name| - i
  {
    var j := LabelEnd(name, i);
    assert AsU8(j - i) <= j - i && (AsU8(j - i) == j - i <==> j - i <= 0xff);
    hide AsU8;
    if j < |name| { ExactSpace(name, j + 1); }
  }

  lemma AdvancedStep(name: seq<Byte>, i: nat)
    requires i <= |name|
    ensures var j := LabelEnd(name, i);
            && Advanced(name, i) == AsU8(j - i) + 1 + (if j < |name| then Advanced(name, j + 1) else 1)
            && (Short(name, i, 0xff) ==> AsU8(j - i) == j - i && (j < |name| ==> Short(name, j + 1, 0xff)))
  {
  }

  /** pbuf_put_at and pbuf_take_at: a length byte and a label. */
  method PutLabel(p: array<Byte>, at: nat, n: Byte, text: seq<Byte>)
    requires at + 1 + |text| <= p.Length
    modifies p
    ensures p[at] == n && forall k :: at < k <= at + |text| ==> p[k] == text[k - at - 1]
    ensures forall k :: 0 <= k < at || at + |text| < k < p.Length ==> p[k] == old(p[k])
  {
    p[at] := n;
    forall k | 0 <= k < |text| { p[at + 1 + k] := text[k]; }
  }

  /** The part of dns_send that finds the end of a label. */
  method FindLabelEnd(name: seq<Byte>, i: nat) returns (j: nat)
    requires i <= |name|
    ensures j == LabelEnd(name, i)
  {
    j := i;
    while j < |name| && name[j] != DOT
      invariant i <= j <= |name| && LabelEnd(name, i) == LabelEnd(name, j)
    {
      j := j + 1;
    }
  }

  /** One turn of the loop of dns_send: the label that starts at host is written at offset at. */
  method WriteLabel(name: seq<Byte>, p: array<Byte>, at: nat, host: nat) returns (at': nat, j: nat)
    requires host <= |name| && (host == 0 || name[host - 1] == DOT) && at + |name| - host + 1 <= p.Length
    modifies p
    ensures j == LabelEnd(name, host) && at' == at + AsU8(j - host) + 1 <= at + j - host + 1
    ensures forall k :: host <= k <= j ==> p[at + (k - host)] == CodeAt(name, k)
    ensures forall k :: 0 <= k < at || at + (j - host) < k < p.Length ==> p[k] == old(p[k])
  {
    j := FindLabelEnd(name, host);
    var n := AsU8(j - host);
    forall k | host <= k <= j ensures CodeAt(name, k) == if k == host then n else name[k - 1] {
      LabelCode(name, host, k);
    }
    assert n <= j - host;
    hide AsU8, CodeAt, LabelEnd;
    PutLabel(p, at, n, name[host..j]);
    at' := at + n + 1;
  }

  /** The loop of dns_send: the name goes into p at offset start; the result is the offset behind it.  Its exit
      for offsets above 0xffff is never taken, because the whole buffer is no longer than that. */
  method WriteName(name: seq<Byte>, p: array<Byte>, start: nat) returns (end: nat)
    requires start + |name| + 2 <= p.Length <= 0xffff
    modifies p
    ensures end == start + Advanced(name, 0)
    ensures Short(name, 0, 0xff) ==> end == start + |name| + 2 && p[start..end] == Encode(name)
    ensures forall k :: 0 <= k < start || start + |name| + 2 <= k < p.Length ==> p[k] == old(p[k])
  {
    hide AsU8, CodeAt, LabelEnd, Advanced, Short;
    ExactSpace(name, 0);
    ghost var short := Short(name, 0, 0xff);
    var host, at := 0, start;
    while host <= |name|
      invariant host <= |name| + 1 && start <= at <= start + host && (0 < host <= |name| ==> name[host - 1] == DOT)
      invariant at + (if host <= |name| then Advanced(name, host) else 1) == start + Advanced(name, 0)
      invariant short ==> at == start + host && (host <= |name| ==> Short(name, host, 0xff))
      invariant short ==> forall k :: 0 <= k < host ==> p[start + k] == CodeAt(name, k)
      invariant forall k :: 0 <= k < start || start + |name| + 2 <= k < p.Length ==> p[k] == old(p[k])
    {
      AdvancedStep(name, host);
      var j;
      at, j := WriteLabel(name, p, at, host);
      host := j + 1;
    }
    p[at] := 0;
    LastCode(name);
    return at + 1;
  }

  // ---------- dns_compare_name ----------

  function Lower(b: Byte): Byte {
    if 65 <= b <= 90 then b + 32 else b
  }

  /** Letters are the same regardless of case, and nothing else is. */
  lemma LowerExact(a: Byte, b: Byte)
    ensures Lower(a) == Lower(b) <==> a == b || (65 <= a <= 90 && b == a + 32) || (65 <= b <= 90 && a == b + 32)
  {
  }

  /** The memory behind the pointer to a name, for as far as it is ever read. */
  function At(query: seq<Byte>, k: nat): Byte {
    if k < |query| then query[k] else 0
  }

  /** n characters of the packet agree with the query string, ignoring case. */
  predicate SameText(query: seq<Byte>, q: nat, p: seq<Byte>, at: nat, n: nat) {
    at + n <= |p| && forall m :: at <= m < at + n ==> Lower(At(query, q + (m - at))) == Lower(p[m])
  }

  /** The offset behind the name at off if it agrees with the query from q on, else 0xffff. */
  function CompareAt(query: seq<Byte>, q: nat, p: seq<Byte>, off: nat): (r: nat)
    requires |p| <= 0xffff
    ensures r == 0xffff || off + 1 < r <= |p|
    decreases |p| - off
  {
    if off >= |p| then 0xffff
    else
      var n := p[off];
      if n >= 0xc0 || !SameText(query, q, p, off + 1, n) || off + 1 + n >= |p| then 0xffff
      else if p[off + 1 + n] == 0 then off + n + 2
      else CompareAt(query, q + n + 1, p, off + 1 + n)
  }

  lemma SameTextIs(query: seq<Byte>, q: nat, p: seq<Byte>, at: nat, n: nat)
    requires at + n <= |p|
    ensures SameText(query, q, p, at, n) <==> forall k :: q <= k < q + n ==> Lower(At(query, k)) == Lower(p[at + k - q])
  {
    if forall k :: q <= k < q + n ==> Lower(At(query, k)) == Lower(p[at + k - q]) {
      forall m | at <= m < at + n ensures Lower(At(query, q + (m - at))) == Lower(p[m]) {
        var k := q + (m - at);
        assert p[at + k - q] == p[m];
      }
    }
    if SameText(query, q, p, at, n) {
      forall k | q <= k < q + n ensures Lower(At(query, k)) == Lower(p[at + k - q]) {
        var m := at + k - q;
        assert p[m] == p[at + k - q];
      }
    }
  }

  method MatchLabel(query: seq<Byte>, q: nat, p: seq<Byte>, at: nat, n: nat) returns (same: bool)
    requires at <= |p|
    ensures same == SameText(query, q, p, at, n)
  {
    var k := 0;
    while k < n
      invariant k <= n && SameText(query, q, p, at, k)
    {
      if at + k >= |p| || Lower(At(query, q + k)) != Lower(p[at + k]) { return false; }
      k := k + 1;
    }
    return true;
  }

  /** dns_compare_name; query is the memory behind the pointer to the name. */
  method CompareName(query: seq<Byte>, p: seq<Byte>, start: nat) returns (r: nat)
    requires |p| <= 0xffff
    ensures r == CompareAt(query, 0, p, start)
  {
    var q: nat, off: nat := 0, start;
    hide SameText;
    while true
      invariant start <= off && CompareAt(query, q, p, off) == CompareAt(query, 0, p, start)
      decreases |p| - off
    {
      if off >= |p| { return 0xffff; }
      var n: nat := p[off];
      if n >= 0xc0 { return 0xffff; }
      var same := MatchLabel(query, q, p, off + 1, n);
      if !same || off + 1 + n >= |p| { return 0xffff; }
      q, off := q + n + 1, off + 1 + n;
      if p[off] == 0 { break; }
    }
    return off + 1;
  }

  // ---------- dns_skip_name ----------

  /** The offset behind the name at off, which may end in a compression pointer, or 0xffff. */
  function SkipAt(p: seq<Byte>, off: nat): (r: nat)
    requires |p| <= 0xffff
    ensures r == 0xffff || off + 1 < r <= |p| + 1
    decreases |p| - off
  {
    if off >= |p| then 0xffff
    else
      var n := p[off];
      if n >= 0xc0 then (if off + 1 == 0xffff then 0xffff else off + 2)
      else if off + 1 + n >= |p| then 0xffff
      else if p[off + 1 + n] == 0 then off + n + 2
      else SkipAt(p, off + 1 + n)
  }

  /** dns_skip_name: it ends, with 0xffff or an offset behind the one it was given. */
  method SkipName(p: seq<Byte>, start: nat) returns (r: nat)
    requires |p| <= 0xffff && start <= 0xffff
    ensures r == SkipAt(p, start)
    ensures r == 0xffff || start < r
  {
    var off := start;
    while true
      invariant start <= off && SkipAt(p, off) == SkipAt(p, start)
      decreases |p| - off
    {
      if off >= |p| { return 0xffff; }
      var n: nat := p[off];
      off := off + 1;
      if n >= 0xc0 {
        return if off == 0xffff then 0xffff else off + 1;
      }
      if off + n >= |p| { return 0xffff; }
      off := off + n;
      if p[off] == 0 { break; }
    }
    return off + 1;
  }

  // ---------- the echo of a query ----------

  /** p holds the encoding of the name at start. */
  ghost predicate Echo(name: seq<Byte>, p: seq<Byte>, start: nat) {
    start + |name| + 2 <= |p| && forall k :: 0 <= k <= |name| + 1 ==> p[start + k] == CodeAt(name, k)
  }

  /** Labels from i on shorter than 192 bytes, and none but the one at i empty. */
  predicate Plain(name: seq<Byte>, i: nat)
    requires i <= |name|
    decreases |name| - i
  {
    var j := LabelEnd(name, i);
    j - i < 0xc0 && (j < |name| ==> j + 1 < LabelEnd(name, j + 1) && Plain(name, j + 1))
  }

  /** Ignoring case, the characters of the name from i to j, but not its dots, are those of the query string. */
  ghost predicate Agrees(query: seq<Byte>, name: seq<Byte>, i: nat, j: nat) {
    forall k :: i <= k < j && k < |name| && name[k] != DOT ==> Lower(At(query, k)) == Lower(name[k])
  }

  lemma EchoLabel(query: seq<Byte>, name: seq<Byte>, i: nat, p: seq<Byte>, start: nat)
    requires i <= |name| && (i == 0 || name[i - 1] == DOT) && Echo(name, p, start)
    ensures var j := LabelEnd(name, i);
            && p[start + i] == AsU8(j - i)
            && (SameText(query, i, p, start + i + 1, j - i) <==> Agrees(query, name, i, j))
            && p[start + j + 1] == (if j == |name| then 0 else AsU8(LabelEnd(name, j + 1) - (j + 1)))
  {
    var j := LabelEnd(name, i);
    assert p[start + i] == CodeAt(name, i);
    assert p[start + (j + 1)] == CodeAt(name, j + 1);
    hide LabelEnd, SameText, Agrees, Echo, Lower, At, AsU8;
    EchoText(query, name, i, p, start);
  }

  lemma EchoText(query: seq<Byte>, name: seq<Byte>, i: nat, p: seq<Byte>, start: nat)
    requires i <= |name| && (i == 0 || name[i - 1] == DOT) && Echo(name, p, start)
    ensures SameText(query, i, p, start + i + 1, LabelEnd(name, i) - i) <==> Agrees(query, name, i, LabelEnd(name, i))
  {
    hide LabelEnd, CodeAt, SameText, AsU8, Lower, At;
    var j := LabelEnd(name, i);
    forall k | i <= k < j ensures p[start + i + 1 + k - i] == name[k] && name[k] != DOT {
      LabelCode(name, i, k + 1);
      InsideLabel(name, i, k);
      assert p[start + (k + 1)] == CodeAt(name, k + 1);
    }
    SameTextIs(query, i, p, start + i + 1, j - i);
  }

  lemma EchoFits(name: seq<Byte>, p: seq<Byte>, start: nat)
    requires Echo(name, p, start)
    ensures start + |name| + 2 <= |p|
  {
  }

  lemma OneLabel(query: seq<Byte>, q: nat, p: seq<Byte>, off: nat, n: nat)
    requires |p| <= 0xffff && off + 1 + n < |p| && p[off] == n
    ensures CompareAt(query, q, p, off) ==
              if n >= 0xc0 || !SameText(query, q, p, off + 1, n) then 0xffff
              else if p[off + 1 + n] == 0 then off + n + 2 else CompareAt(query, q + n + 1, p, off + 1 + n)
    ensures SkipAt(p, off) ==
              if n >= 0xc0 then off + 2
              else if p[off + 1 + n] == 0 then off + n + 2 else SkipAt(p, off + 1 + n)
  {
    hide SameText;
  }

  /** One label of the echo. */
  lemma EchoStep(query: seq<Byte>, name: seq<Byte>, i: nat, p: seq<Byte>, start: nat)
    requires i <= |name| && (i == 0 || name[i - 1] == DOT) && Echo(name, p, start) && Short(name, i, 0xff)
    requires |p| <= 0xffff
    ensures var j := LabelEnd(name, i);
            var last := j == |name| || LabelEnd(name, j + 1) == j + 1;
            && CompareAt(query, i, p, start + i) ==
                 (if j - i >= 0xc0 || !Agrees(query, name, i, j) then 0xffff
                  else if last then start + j + 2 else CompareAt(query, j + 1, p, start + j + 1))
            && SkipAt(p, start + i) ==
                 (if j - i >= 0xc0 then start + i + 2
                  else if last then start + j + 2 else SkipAt(p, start + j + 1))
  {
    hide AsU8, CodeAt, SameText, LabelEnd, CompareAt, SkipAt, Short, Echo, Advanced, Agrees;
    var j := LabelEnd(name, i);
    AdvancedStep(name, i);
    if j < |name| { AdvancedStep(name, j + 1); }
    EchoLabel(query, name, i, p, start);
    EchoFits(name, p, start);
    OneLabel(query, i, p, start + i, j - i);
  }

  lemma AgreesSplit(query: seq<Byte>, name: seq<Byte>, i: nat)
    requires i <= |name|
    ensures var j := LabelEnd(name, i);
            Agrees(query, name, i, |name|) <==>
              Agrees(query, name, i, j) && (j < |name| ==> Agrees(query, name, j + 1, |name|))
  {
  }

  /**
   A name in a packet is recognised up to its exact end if and only if its labels are plain and all its characters
   but the dots are those of the query string, ignoring case.
   */
  lemma {:induction false} NameAccepted(query: seq<Byte>, name: seq<Byte>, i: nat, p: seq<Byte>, start: nat)
    requires i <= |name| && (i == 0 || name[i - 1] == DOT) && Echo(name, p, start) && Short(name, i, 0xff)
    requires start + |name| + 2 < 0xffff && |p| <= 0xffff
    ensures CompareAt(query, i, p, start + i) == start + |name| + 2 <==>
              Plain(name, i) && Agrees(query, name, i, |name|)
    decreases |name| - i
  {
    hide Echo, CompareAt, SkipAt, LabelEnd, Agrees;
    EchoStep(query, name, i, p, start);
    AgreesSplit(query, name, i);
    var j := LabelEnd(name, i);
    if j < |name| { NameAccepted(query, name, j + 1, p, start); }
  }

  /** The echo of a query is recognised up to its exact end if and only if its labels are plain. */
  lemma EchoAccepted(query: seq<Byte>, name: seq<Byte>, i: nat, p: seq<Byte>, start: nat)
    requires i <= |name| && (i == 0 || name[i - 1] == DOT) && Echo(name, p, start) && Short(name, i, 0xff)
    requires start + |name| + 2 < 0xffff && |p| <= 0xffff && name <= query
    ensures CompareAt(query, i, p, start + i) == start + |name| + 2 <==> Plain(name, i)
  {
    hide CompareAt, Short, Plain, Echo;
    NameAccepted(query, name, i, p, start);
  }

  lemma {:induction false} EchoSkipped(name: seq<Byte>, i: nat, p: seq<Byte>, start: nat)
    requires i <= |name| && (i == 0 || name[i - 1] == DOT) && Echo(name, p, start) && Short(name, i, 0xff)
    requires start + |name| + 2 < 0xffff && |p| <= 0xffff
    ensures SkipAt(p, start + i) == start + |name| + 2 <==> Plain(name, i)
    decreases |name| - i
  {
    hide Echo, CompareAt, SkipAt, LabelEnd;
    EchoStep(name, name, i, p, start);
    var j := LabelEnd(name, i);
    if j < |name| { EchoSkipped(name, j + 1, p, start); }
  }

  /** All labels from i on have 1 to 63 bytes: section 2.3.4 of RFC 1035. */
  predicate Ordinary(name: seq<Byte>, i: nat)
    requires i <= |name|
    decreases |name| - i
  {
    var j := LabelEnd(name, i);
    1 <= j - i <= 63 && (j < |name| ==> Ordinary(name, j + 1))
  }

  lemma {:induction false} OrdinaryIsPlain(name: seq<Byte>, i: nat)
    requires i <= |name| && Ordinary(name, i)
    ensures Plain(name, i) && Short(name, i, 0xff) && i < LabelEnd(name, i)
    decreases |name| - i
  {
    var j := LabelEnd(name, i);
    if j < |name| { OrdinaryIsPlain(name, j + 1); }
  }

  /** For every ordinary name, what dns_send writes is accepted and skipped, both to the same end. */
  lemma OrdinaryEcho(query: seq<Byte>, name: seq<Byte>, p: seq<Byte>, start: nat)
    requires Ordinary(name, 0) && name <= query && start + |name| + 2 <= |p| < 0xffff
    requires p[start..start + |name| + 2] == Encode(name)
    ensures CompareAt(query, 0, p, start) == SkipAt(p, start) == start + |name| + 2
  {
    hide CodeAt, CompareAt, SkipAt, LabelEnd, Ordinary, Short, Plain;
    OrdinaryIsPlain(name, 0);
    forall k | 0 <= k <= |name| + 1 ensures p[start + k] == CodeAt(name, k) {
      assert p[start..start + |name| + 2][k] == Encode(name)[k];
    }
    EchoAccepted(query, name, 0, p, start);
    EchoSkipped(name, 0, p, start);
  }

  // ---------- any name in a packet ----------

  /** The labels of the name at off start at these offsets; the last one is that of the final 0 or of a compression
      pointer, and the name ends before r. */
  ghost predicate NameEnds(p: seq<Byte>, off: nat, starts: seq<nat>, r: nat) {
    var n := |starts| - 1;
    && 0 <= n && starts[0] == off && (forall i :: 0 <= i <= n ==> starts[i] < |p|)
    && (forall i :: 0 <= i < n ==> p[starts[i]] < 0xc0 && starts[i + 1] == starts[i] + 1 + p[starts[i]])
    && (forall i :: 0 < i < n ==> p[starts[i]] != 0)
    && (p[starts[n]] >= 0xc0 || (0 < n && p[starts[n]] == 0))
    && r == starts[n] + (if p[starts[n]] == 0 then 1 else 2) < 0xffff
  }

  /** dns_skip_name steps over labels to the final 0 or pointer ... */
  lemma {:induction false} SkipFinds(p: seq<Byte>, off: nat) returns (starts: seq<nat>)
    requires |p| < 0xffff && SkipAt(p, off) != 0xffff
    ensures NameEnds(p, off, starts, SkipAt(p, off))
    decreases |p| - off
  {
    var n: nat := p[off];
    if n >= 0xc0 {
      starts := [off];
    } else if p[off + 1 + n] == 0 {
      starts := [off, off + 1 + n];
    } else {
      var rest := SkipFinds(p, off + 1 + n);
      starts := [off] + rest;
    }
  }

  /** ... wherever that is. */
  lemma {:induction false} SkipReaches(p: seq<Byte>, off: nat, starts: seq<nat>, r: nat)
    requires |p| <= 0xffff && NameEnds(p, off, starts, r)
    ensures SkipAt(p, off) == r
    decreases |starts|
  {
    if |starts| > 2 || (|starts| == 2 && p[starts[1]] >= 0xc0) {
      assert starts[1] == off + 1 + p[off];
      SkipReaches(p, starts[1], starts[1..], r);
    }
  }

  /** dns_compare_name accepts only names that dns_skip_name ends at the same place. */
  lemma {:induction false} CompareSkips(query: seq<Byte>, q: nat, p: seq<Byte>, off: nat)
    requires |p| <= 0xffff
    ensures CompareAt(query, q, p, off) == 0xffff || CompareAt(query, q, p, off) == SkipAt(p, off)
    decreases |p| - off
  {
    hide SameText;
    if off < |p| && p[off] < 0xc0 && off + 1 + p[off] < |p| && p[off + 1 + p[off]] != 0 {
      CompareSkips(query, q + p[off] + 1, p, off + 1 + p[off]);
    }
  }
}
