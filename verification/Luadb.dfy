/**
 port/luat_luadb2.c: a luadb image, a header followed by one record per file, grown by appending.
 luat_heap_realloc is the environment: it may fail, and the new bytes are arbitrary.
 */
module Luadb {
  import opened Basics
  import opened ByteOrder

  datatype File = File(name: seq<Byte>, data: seq<Byte>)

  const MAGIC: seq<Byte> := [0x01, 0x04, 0x5A, 0xA5, 0x5A, 0xA5]
  const VERSION: seq<Byte> := [0x02, 0x02, 0x02, 0x00]
  const HEAD_SIZE: seq<Byte> := [0x03, 0x04, 0x00, 0x00, 0x00, 0x18]
  const CRC: seq<Byte> := [0xFE, 0x02, 0x00, 0x00]
  const COUNT_AT: nat := 0x12

  // ---------- the image ----------

  function Header(count: Byte): (h: seq<Byte>)
    ensures |h| == 24 && h[COUNT_AT] == count
  {
    MAGIC + VERSION + HEAD_SIZE + [0x04, 0x02, count, 0x00] + CRC
  }

  function Record(f: File): (r: seq<Byte>)
    ensures |r| == 18 + |f.name| + |f.data|
  {
    MAGIC + ([0x02, AsU8(|f.name|)] + f.name) + ([0x03, 0x04] + LeBytes(|f.data|, 4)) + CRC + f.data
  }

  function Records(files: seq<File>): seq<Byte> {
    if files == [] then [] else Records(files[..|files| - 1]) + Record(files[|files| - 1])
  }

  function Image(files: seq<File>): seq<Byte> {
    Header(AsU8(|files|)) + Records(files)
  }

  // ---------- reading it ----------

  /** The first record of an image, and what follows. */
  function ReadRecord(s: seq<Byte>): Option<(File, seq<Byte>)> {
    if |s| < 8 || s[..6] != MAGIC || s[6] != 0x02 then None
    else
      var name := s[7];
      var t := s[8..];
      if |t| < name + 10 || t[name..name + 2] != [0x03, 0x04] || t[name + 6..name + 10] != CRC then None
      else
        var len := FromLe(t[name + 2..name + 6]);
        if |t| < name + 10 + len then None
        else Some((File(t[..name], t[name + 10..name + 10 + len]), t[name + 10 + len..]))
  }

  function ReadRecords(s: seq<Byte>, n: nat): Option<seq<File>> {
    if n == 0 then (if s == [] then Some([]) else None)
    else
      var r := ReadRecord(s);
      if r.None? then None
      else
        var rest := ReadRecords(r.value.1, n - 1);
        if rest.None? then None else Some([r.value.0] + rest.value)
  }

  /** An image is a header, as many records as it says, and nothing else. */
  function ReadImage(s: seq<Byte>): Option<seq<File>> {
    if |s| < 24 || s[..24] != Header(s[COUNT_AT]) then None else ReadRecords(s[24..], s[COUNT_AT])
  }

  predicate FileOk(f: File) {
    |f.name| < 0x100 && |f.data| < 0x1_0000_0000
  }

  /** The fields of a record from the name on. */
  lemma Fields(name: seq<Byte>, tag: seq<Byte>, size: seq<Byte>, crc: seq<Byte>, data: seq<Byte>, rest: seq<Byte>)
    requires |tag| == 2 && |size| == 4 && |crc| == 4
    ensures var t, n := name + (tag + size) + crc + data + rest, |name|;
            && |t| == n + 10 + |data| + |rest| && t[..n] == name && t[n..n + 2] == tag && t[n + 2..n + 6] == size
            && t[n + 6..n + 10] == crc && t[n + 10..n + 10 + |data|] == data && t[n + 10 + |data|..] == rest
  {
    var t, n := name + (tag + size) + crc + data + rest, |name|;
    var a, m := name + (tag + size) + crc, tag + size;
    Slice(a, data, rest);
    Slice(name, m, crc);
    Slice([], tag, size);
    assert [] + tag + size == m;
    Within(t, a, 0, n);
    Within(t, a, n + 6, n + 10);
    Within(t, a, n, n + 2);
    Within(t, a, n + 2, n + 6);
    Inside(a, m, n, 0, 2);
    Inside(a, m, n, 2, 6);
  }

  lemma Within(t: seq<Byte>, a: seq<Byte>, i: nat, j: nat)
    requires |a| <= |t| && t[..|a|] == a && i <= j <= |a|
    ensures t[i..j] == a[i..j]
  {
    assert t[..|a|][i..j] == t[i..j];
  }

  lemma Inside(a: seq<Byte>, m: seq<Byte>, n: nat, i: nat, j: nat)
    requires n + |m| <= |a| && a[n..n + |m|] == m && i <= j <= |m|
    ensures a[n + i..n + j] == m[i..j]
  {
    forall k | 0 <= k < j - i ensures a[n + i..n + j][k] == m[i..j][k] {
      assert m[i + k] == a[n..n + |m|][i + k];
    }
  }

  lemma Slice(a: seq<Byte>, b: seq<Byte>, c: seq<Byte>)
    ensures var s := a + b + c;
            s[..|a|] == a && s[|a|..|a| + |b|] == b && s[|a| + |b|..] == c
  {
  }

  lemma RecordRead(f: File, rest: seq<Byte>)
    requires FileOk(f)
    ensures ReadRecord(Record(f) + rest) == Some((f, rest))
  {
    hide FromLe, LeBytes;
    var s := Record(f) + rest;
    var n := |f.name|;
    assert s[..6] == MAGIC;
    assert s[6] == 0x02 && s[7] == n;
    var t := s[8..];
    assert t == f.name + ([0x03, 0x04] + LeBytes(|f.data|, 4)) + CRC + f.data + rest;
    Fields(f.name, [0x03, 0x04], LeBytes(|f.data|, 4), CRC, f.data, rest);
    LeRoundTrip4(|f.data|);
  }

  lemma {:induction false} RecordsFront(files: seq<File>)
    requires files != []
    ensures Records(files) == Record(files[0]) + Records(files[1..])
  {
    hide Record;
    var n := |files| - 1;
    if n > 0 {
      assert files[..n][1..] == files[1..][..n - 1];
      RecordsFront(files[..n]);
    } else {
      assert files[..0] == [] && files[1..] == [];
    }
  }

  lemma {:induction false} RecordsRead(files: seq<File>)
    requires forall i :: 0 <= i < |files| ==> FileOk(files[i])
    ensures ReadRecords(Records(files), |files|) == Some(files)
  {
    hide Record, ReadRecord, Records, FileOk;
    if files == [] {
      NoRecords();
    } else {
      RecordsFront(files);
      RecordRead(files[0], Records(files[1..]));
      RecordsRead(files[1..]);
      assert [files[0]] + files[1..] == files;
    }
  }

  lemma NoRecords()
    ensures Records([]) == []
  {
  }

  /** What is read has names and data of the lengths the fields can hold, and as many files as asked for. */
  lemma {:induction false} ReadBounds(s: seq<Byte>, n: nat)
    ensures var r := ReadRecords(s, n);
            r.Some? ==> |r.value| == n && forall i :: 0 <= i < n ==> FileOk(r.value[i])
    decreases n
  {
    hide ReadRecord, FileOk;
    if n > 0 && ReadRecord(s).Some? {
      ReadBounds(ReadRecord(s).value.1, n - 1);
      OneBound(s);
    }
  }

  lemma OneBound(s: seq<Byte>)
    requires ReadRecord(s).Some?
    ensures FileOk(ReadRecord(s).value.0)
  {
    hide FromLe;
    var t := s[8..];
    FromLeBound(t[s[7] + 2..s[7] + 6]);
  }

  lemma FromLeBound(s: seq<Byte>)
    requires |s| == 4
    ensures FromLe(s) < 0x1_0000_0000
  {
    BelowPow256(s);
    assert Pow256(4) == 0x1_0000_0000;
  }

  /** Decoding an image gives back its files if and only if their number, names and sizes fit the fields for them. */
  lemma ImageRoundTrip(files: seq<File>)
    ensures ReadImage(Image(files)) == Some(files) <==>
              |files| < 0x100 && forall i :: 0 <= i < |files| ==> FileOk(files[i])
    ensures Image(files)[COUNT_AT] == |files| % 0x100
  {
    hide Header, Records, FileOk, ReadRecords;
    var h, r := Header(AsU8(|files|)), Records(files);
    assert (h + r)[..24] == h && (h + r)[24..] == r;
    ReadBounds(r, AsU8(|files|));
    if |files| < 0x100 && forall i :: 0 <= i < |files| ==> FileOk(files[i]) { RecordsRead(files); }
  }

  // ---------- building it ----------

  class Database {
    var data: array?<Byte>       // dataptr
    var offset: nat
    ghost var files: seq<File>

    ghost predicate Valid()
      reads this, data
    {
      data != null ==> 24 <= offset <= data.Length && data[..offset] == Image(files)
    }

    constructor ()
      ensures Valid() && data == null
    {
      data, offset, files := null, 0, [];
    }

    /** luat_luadb2_init; fill is what luat_heap_malloc leaves in the new block. */
    method Init(fill: nat -> Byte)
      requires Valid()
      modifies this
      ensures Valid() && data != null
      ensures old(data) != null ==> data == old(data) && offset == old(offset) && files == old(files)
      ensures old(data) == null ==> fresh(data) && files == [] && offset == 24
    {
      if data != null { return; }
      var tmp := new Byte[1024](fill);
      WriteHeader(tmp);
      data, offset, files := tmp, 24, [];
      EmptyImage();
    }

    /** luat_luadb2_write: 0, -1 before init, -2 without memory. */
    method Write(name: seq<Byte>, content: seq<Byte>, memory: bool, fill: nat -> Byte) returns (r: int)
      requires Valid() && |name| <= 494
      modifies this, data
      ensures Valid()
      ensures r == if old(data) == null then -1 else if memory then 0 else -2
      ensures r == 0 ==> fresh(data) && files == old(files) + [File(name, content)]
      ensures r == 0 ==> offset == old(offset) + 18 + |name| + |content|
      ensures r == 0 ==> forall i :: 0 <= i < old(offset) && i != COUNT_AT ==> data[i] == old(data[i])
      ensures r != 0 ==> data == old(data) && offset == old(offset) && files == old(files)
    {
      hide Image, Record, Next;
      if data == null { return -1; }
      if !memory { return -2; }
      var tmp := Realloc(data, offset + |content| + 512, fill);
      assert tmp[..offset] == Image(files);
      var at := WriteRecord(tmp, offset, name, content);
      data, offset := tmp, at;
      AppendImage(files, File(name, content), data[..offset]);
      data[COUNT_AT] := Next(data[COUNT_AT]);
      files := files + [File(name, content)];
      return 0;
    }
  }

  lemma EmptyImage()
    ensures Image([]) == Header(0)
  {
  }

  /** ++ on an u8_t. */
  function Next(b: Byte): Byte {
    if b == 0xff then 0 else b + 1
  }

  lemma HeaderNext(b: Byte)
    ensures Header(b)[COUNT_AT := Next(b)] == Header(Next(b))
  {
  }

  lemma NextCount(n: nat)
    ensures Next(AsU8(n)) == AsU8(n + 1)
  {
  }

  /** Counting up turns an image followed by a record into the image with one file more. */
  lemma AppendImage(files: seq<File>, f: File, s: seq<Byte>)
    requires s == Image(files) + Record(f)
    ensures COUNT_AT < |s| && s[COUNT_AT := Next(s[COUNT_AT])] == Image(files + [f])
  {
    hide Header, Record, AsU8, Next, Records;
    var h := Header(AsU8(|files|));
    HeaderNext(AsU8(|files|));
    NextCount(|files|);
    RecordsLast(files, f);
    assert s == h + (Records(files) + Record(f));
  }

  lemma RecordsLast(files: seq<File>, f: File)
    ensures Records(files + [f]) == Records(files) + Record(f)
  {
    hide Record;
    assert (files + [f])[..|files|] == files;
  }

  method WriteHeader(a: array<Byte>)
    requires 24 <= a.Length
    modifies a
    ensures a[..24] == Header(0)
  {
    var at := Put(a, 0, MAGIC);
    at := Put(a, at, VERSION);
    at := Put(a, at, HEAD_SIZE);
    at := Put(a, at, [0x04, 0x02, 0x00, 0x00]);
    at := Put(a, at, CRC);
  }

  /** A record fits into the room that luat_luadb2_write allocates for it if and only if the name has at most 494
      bytes. */
  lemma RecordFits(name: seq<Byte>, content: seq<Byte>)
    ensures |Record(File(name, content))| <= |content| + 512 <==> |name| <= 494
  {
    hide Record;
  }

  /** A file record at offset start; the room of 512 bytes is just enough for names of 494 bytes. */
  method WriteRecord(a: array<Byte>, start: nat, name: seq<Byte>, content: seq<Byte>) returns (at: nat)
    requires start + |content| + 512 <= a.Length && |name| <= 494
    modifies a
    ensures at == start + 18 + |name| + |content| && at <= a.Length
    ensures a[..at] == old(a[..start]) + Record(File(name, content))
  {
    hide LeBytes, AsU8, Record;
    RecordParts(a[..start], File(name, content));
    var nameTlv, lenTlv := [0x02, AsU8(|name|)] + name, [0x03, 0x04] + LeBytes(|content|, 4);
    assert |MAGIC| == 6 && |CRC| == 4;
    hide MAGIC, CRC;
    at := Put(a, start, MAGIC);
    at := Put(a, at, nameTlv);
    at := Put(a, at, lenTlv);
    at := Put(a, at, CRC);
    at := Put(a, at, content);
  }

  lemma RecordParts(base: seq<Byte>, f: File)
    ensures base + MAGIC + ([0x02, AsU8(|f.name|)] + f.name) + ([0x03, 0x04] + LeBytes(|f.data|, 4)) + CRC + f.data
              == base + Record(f)
  {
  }

  /** memcpy into a at offset at. */
  method Put(a: array<Byte>, at: nat, s: seq<Byte>) returns (end: nat)
    requires at + |s| <= a.Length
    modifies a
    ensures end == at + |s| && a[..end] == old(a[..at]) + s
  {
    forall i | 0 <= i < |s| { a[at + i] := s[i]; }
    end := at + |s|;
  }

  /** luat_heap_realloc: a block of the given size that starts like the old one. */
  method Realloc(a: array<Byte>, size: nat, fill: nat -> Byte) returns (b: array<Byte>)
    ensures fresh(b) && b.Length == size
    ensures forall i :: 0 <= i < size && i < a.Length ==> b[i] == a[i]
  {
    b := new Byte[size](i requires 0 <= i < size reads a => if i < a.Length then a[i] else fill(i));
  }

  /** The files whose write got memory. */
  function Kept(files: seq<File>, memory: seq<bool>): seq<File>
    requires |files| == |memory|
  {
    if files == [] then []
    else
      var n := |files| - 1;
      Kept(files[..n], memory[..n]) + (if memory[n] then [files[n]] else [])
  }

  /** Init and any sequence of writes, with memory or without: the image of exactly the files written, in order. */
  method Build(files: seq<File>, memory: seq<bool>, fill: nat -> Byte) returns (image: seq<Byte>)
    requires |files| == |memory| && forall i :: 0 <= i < |files| ==> |files[i].name| <= 494
    ensures image == Image(Kept(files, memory))
  {
    hide Image;
    var d := new Database();
    d.Init(fill);
    for k := 0 to |files|
      invariant d.Valid() && d.data != null && d.files == Kept(files[..k], memory[..k]) && fresh(d) && fresh(d.data)
    {
      assert files[..k + 1][..k] == files[..k] && memory[..k + 1][..k] == memory[..k];
      var r := d.Write(files[k].name, files[k].data, memory[k], fill);
    }
    assert files[..|files|] == files && memory[..|files|] == memory;
    image := d.data[..d.offset];
  }
}
