/**
 port/luat_luac_report.c: the statistics of a group of data entries, and merging groups.
 size_t counters are unbounded here.
 */
module DupCount {
  import opened Basics

  /** struct luac_data: its bytes (len of them) and its mark. */
  datatype Item = Item(bytes: seq<Byte>, mark: nat)

  /** The different contents of at least two bytes; shorter ones hold no text. */
  function Contents(d: seq<Item>): set<seq<Byte>> {
    set i | 0 <= i < |d| && 2 <= |d[i].bytes| :: d[i].bytes
  }

  /** How many entries have at least two bytes. */
  function Long(d: seq<Item>): nat {
    if d == [] then 0 else Long(d[..|d| - 1]) + (if 2 <= |d[|d| - 1].bytes| then 1 else 0)
  }

  function Total(d: seq<Item>): nat {
    if d == [] then 0 else Total(d[..|d| - 1]) + |d[|d| - 1].bytes|
  }

  /** m is the larger of floor and the greatest length. */
  ghost predicate IsMax(d: seq<Item>, floor: nat, m: nat) {
    && floor <= m && (forall i :: 0 <= i < |d| ==> |d[i].bytes| <= m)
    && (m == floor || exists i :: 0 <= i < |d| && |d[i].bytes| == m)
  }

  /** No content of at least two bytes occurs twice. */
  ghost predicate NoDuplicates(d: seq<Item>) {
    forall i, j :: 0 <= i < j < |d| && 2 <= |d[i].bytes| ==> d[i].bytes != d[j].bytes
  }

  lemma ContentsAppend(d: seq<Item>, x: Item)
    ensures Contents(d + [x]) == Contents(d) + (if 2 <= |x.bytes| then {x.bytes} else {})
  {
    forall b | b in Contents(d) ensures b in Contents(d + [x]) {
      var i :| 0 <= i < |d| && 2 <= |d[i].bytes| && d[i].bytes == b;
      assert (d + [x])[i] == d[i];
    }
    assert (d + [x])[|d|] == x;
  }

  /** The contents of a merged group are those of its parts. */
  lemma {:induction false} ContentsConcat(a: seq<Item>, b: seq<Item>)
    ensures Contents(a + b) == Contents(a) + Contents(b)
  {
    hide Contents;
    if b == [] {
      assert a + b == a;
      NoContents();
    } else {
      var front, x := b[..|b| - 1], b[|b| - 1];
      assert a + b == (a + front) + [x] && b == front + [x];
      ContentsConcat(a, front);
      ContentsAppend(a + front, x);
      ContentsAppend(front, x);
    }
  }

  lemma NoContents()
    ensures Contents([]) == {}
  {
  }

  /** Counting entries instead of contents gives the same exactly if nothing occurs twice. */
  lemma {:induction false} CountsAgree(d: seq<Item>)
    ensures |Contents(d)| <= Long(d) && (|Contents(d)| == Long(d) <==> NoDuplicates(d))
  {
    if d == [] {
      NoContents();
    } else {
      var front, x := d[..|d| - 1], d[|d| - 1];
      assert d == front + [x];
      CountsAgree(front);
      ContentsAppend(front, x);
      DuplicateLast(front, x);
    }
  }

  lemma DuplicateLast(d: seq<Item>, x: Item)
    ensures NoDuplicates(d + [x]) <==> NoDuplicates(d) && (2 <= |x.bytes| ==> x.bytes !in Contents(d))
  {
    var e := d + [x];
    if NoDuplicates(e) {
      forall i, j | 0 <= i < j < |d| && 2 <= |d[i].bytes| ensures d[i].bytes != d[j].bytes {
        assert e[i] == d[i] && e[j] == d[j];
      }
      forall i | 0 <= i < |d| && 2 <= |d[i].bytes| ensures d[i].bytes != x.bytes {
        assert e[i] == d[i] && e[|d|] == x;
      }
    }
  }

  class Group {
    var data: seq<Item>
    var maxLen: nat
    var totalLen: nat
    var uniCount: nat
    var empties: nat

    constructor ()
      ensures data == [] && maxLen == 0 && totalLen == 0 && uniCount == 0 && empties == 0
    {
      data, maxLen, totalLen, uniCount, empties := [], 0, 0, 0, 0;
    }

    /** Is the content of entry i among the entries before it? */
    method SeenBefore(i: nat) returns (seen: bool)
      requires i < |data| && 2 <= |data[i].bytes|
      ensures seen == (data[i].bytes in Contents(data[..i]))
    {
      var j := 0;
      while j < i
        invariant j <= i && forall m :: 0 <= m < j ==> data[m].bytes != data[i].bytes
      {
        if |data[i].bytes| == |data[j].bytes| && data[i].bytes == data[j].bytes {
          assert data[..i][j] == data[j];
          return true;
        }
        j := j + 1;
      }
      return false;
    }

    /**
     do_data_group_report.  If the first entry has mark 0, uniCount is the number of different contents
     of at least two bytes; otherwise repeated ones are counted again.
     */
    method Report()
      modifies this`maxLen, this`totalLen, this`uniCount, this`empties
      ensures uniCount == if data != [] && data[0].mark == 0 then |Contents(data)| else Long(data)
      ensures totalLen == old(totalLen) + Total(data) && IsMax(data, old(maxLen), maxLen)
      ensures empties == old(empties) + |data| - Long(data)
    {
      hide Contents, IsMax, Long, Total;
      Nothing(data, maxLen);
      var hits := 0;
      for i := 0 to |data|
        invariant hits == if data != [] && data[0].mark == 0 then |Contents(data[..i])| else Long(data[..i])
        invariant totalLen == old(totalLen) + Total(data[..i]) && IsMax(data[..i], old(maxLen), maxLen)
        invariant empties == old(empties) + i - Long(data[..i])
      {
        var x := data[i];
        OneMore(data, i, old(maxLen), maxLen);
        if |x.bytes| > maxLen { maxLen := |x.bytes|; }
        totalLen := totalLen + |x.bytes|;
        if |x.bytes| < 2 {
          empties := empties + 1;
          continue;
        }
        hits := hits + 1;
        if i > 0 && data[0].mark == 0 {
          var seen := SeenBefore(i);
          if seen { hits := hits - 1; }
        }
      }
      assert data[..|data|] == data;
      uniCount := hits;
    }

    /** luac_data_group_add */
    method Add(src: Group)
      requires src != this
      modifies this`data
      ensures data == old(data) + src.data && Contents(data) == old(Contents(data)) + Contents(src.data)
    {
      ContentsConcat(data, src.data);
      for i := 0 to |src.data|
        invariant data == old(data) + src.data[..i]
      {
        data := data + [src.data[i]];
      }
      assert src.data[..|src.data|] == src.data;
    }
  }

  lemma Nothing(d: seq<Item>, floor: nat)
    ensures d[..|d|] == d && Contents(d[..0]) == {} && Long(d[..0]) == 0 && Total(d[..0]) == 0
    ensures IsMax(d[..0], floor, floor)
  {
  }

  lemma OneMore(d: seq<Item>, i: nat, floor: nat, m: nat)
    requires i < |d| && IsMax(d[..i], floor, m)
    ensures var x := d[i].bytes;
            && |Contents(d[..i + 1])| == |Contents(d[..i])| + (if 2 <= |x| && x !in Contents(d[..i]) then 1 else 0)
            && Long(d[..i + 1]) == Long(d[..i]) + (if 2 <= |x| then 1 else 0)
            && Total(d[..i + 1]) == Total(d[..i]) + |x|
            && IsMax(d[..i + 1], floor, if |x| > m then |x| else m)
            && (i == 0 ==> x !in Contents(d[..i]))
  {
    hide Contents, IsMax;
    assert d[..i + 1] == d[..i] + [d[i]] && d[..i + 1][..i] == d[..i];
    ContentsAppend(d[..i], d[i]);
    MaxAppend(d[..i], floor, m, d[i]);
    var c := Contents(d[..i]);
    assert d[i].bytes in c ==> c + {d[i].bytes} == c;
    if i == 0 {
      NoContents();
      assert d[..i] == [];
    }
  }

  lemma MaxAppend(d: seq<Item>, floor: nat, m: nat, x: Item)
    requires IsMax(d, floor, m)
    ensures IsMax(d + [x], floor, if |x.bytes| > m then |x.bytes| else m)
  {
    var e := d + [x];
    assert e[|d|] == x;
    if m != floor {
      var i :| 0 <= i < |d| && |d[i].bytes| == m;
      assert e[i] == d[i];
    }
  }

  /** All contents of some groups. */
  ghost function Union(groups: seq<Group>): set<seq<Byte>>
    reads groups
  {
    if groups == [] then {} else Union(groups[..|groups| - 1]) + Contents(groups[|groups| - 1].data)
  }

  /** The report on the sum of some groups counts the union of their contents, if its first entry has mark 0. */
  method Summary(groups: seq<Group>) returns (g: Group)
    ensures fresh(g) && Contents(g.data) == Union(groups)
    ensures g.data != [] && g.data[0].mark == 0 ==> g.uniCount == |Union(groups)|
    ensures g.totalLen == Total(g.data) && IsMax(g.data, 0, g.maxLen)
  {
    hide Contents;
    NoContents();
    g := new Group();
    for i := 0 to |groups|
      invariant fresh(g) && g !in groups && Contents(g.data) == Union(groups[..i]) && g.totalLen == 0 && g.maxLen == 0
    {
      assert groups[..i + 1][..i] == groups[..i];
      g.Add(groups[i]);
    }
    assert groups[..|groups|] == groups;
    g.Report();
  }
}
