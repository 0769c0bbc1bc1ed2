/** Integers stored with the least significant byte first. */
module ByteOrder {
  import opened Basics

  function LeBytes(n: nat, k: nat): (s: seq<Byte>)
    ensures |s| == k
  {
    if k == 0 then [] else [n % 0x100] + LeBytes(n / 0x100, k - 1)
  }

  function FromLe(s: seq<Byte>): nat {
    if s == [] then 0 else s[0] as int + 0x100 * FromLe(s[1..])
  }

  function Pow256(k: nat): nat {
    if k == 0 then 1 else 0x100 * Pow256(k - 1)
  }

  lemma {:induction false} LeRoundTrip(n: nat, k: nat)
    requires n < Pow256(k)
    ensures FromLe(LeBytes(n, k)) == n
  {
    if k > 0 { LeRoundTrip(n / 0x100, k - 1); }
  }

  lemma {:induction false} BelowPow256(s: seq<Byte>)
    ensures FromLe(s) < Pow256(|s|)
  {
    if s != [] { BelowPow256(s[1..]); }
  }

  lemma LeRoundTrip4(n: nat)
    requires n < 0x1_0000_0000
    ensures FromLe(LeBytes(n, 4)) == n
  {
    assert Pow256(4) == 0x1_0000_0000;
    LeRoundTrip(n, 4);
  }
}
