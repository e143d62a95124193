/** The packed 12-bit allocation table of a FAT12 volume. */
module Fat12 {
  import opened Bytes

  const END_OF_CHAIN := 0xFFF
  const BAD_CLUSTER := 0xFF7

  type entry = x: int | 0 <= x < 0x1000

  /** Number of entries whose bits lie at least partly in n bytes. */
  function Slots(n: nat): nat { 2 * ((n + 2) / 3) }

  /** Byte k of the table holding entries es: two entries share three bytes. */
  function PackedByte(es: seq<entry>, k: nat): (b: byte)
    requires 2 * (k / 3) + 1 < |es|
  {
    var lo, hi := es[2 * (k / 3)], es[2 * (k / 3) + 1];
    if k % 3 == 0 then lo % 256
    else if k % 3 == 1 then lo / 256 + hi % 16 * 16
    else hi / 16
  }

  /** The n-byte table holding entries es. */
  function Pack(es: seq<entry>, n: nat): (fat: seq<byte>)
    requires |es| == Slots(n)
    ensures |fat| == n
    ensures forall k :: 0 <= k < n ==> 2 * (k / 3) + 1 < |es| && fat[k] == PackedByte(es, k)
  {
    seq(n, k requires 0 <= k < n => PackedByte(es, k))
  }

  lemma EmptyTable(fat: seq<byte>)
    requires forall i :: 0 <= i < |fat| ==> fat[i] == 0
    ensures fat == Pack(seq(Slots(|fat|), _ => 0), |fat|)
  {
  }

  /** How a reader finds entry i: the 16-bit word at 3i/2, low or high 12 bits. */
  function Get(fat: seq<byte>, i: nat): (v: nat)
    requires i * 3 / 2 + 1 < |fat|
  {
    var w := ReadLe16(fat, i * 3 / 2);
    if i % 2 == 0 then w % 0x1000 else w / 16
  }

  /** The three bytes of a pair of entries hold both of them. */
  lemma PairBytes(lo: entry, hi: entry)
    ensures (lo % 256 + 256 * (lo / 256 + hi % 16 * 16)) % 0x1000 == lo
    ensures (lo / 256 + hi % 16 * 16 + 256 * (hi / 16)) / 16 == hi
  {
    assert lo % 256 + 256 * (lo / 256 + hi % 16 * 16) == lo + 0x1000 * (hi % 16);
    assert lo / 256 + hi % 16 * 16 + 256 * (hi / 16) == lo / 256 + 16 * hi;
  }

  /** A reader sees the plain array of entries in the packed table. */
  lemma GetPack(es: seq<entry>, n: nat, i: nat)
    requires |es| == Slots(n) && i * 3 / 2 + 1 < n
    ensures i < |es| && Get(Pack(es, n), i) == es[i]
  {
    var off, h := i * 3 / 2, i / 2;
    var fat := Pack(es, n);
    assert fat[off] == PackedByte(es, off) && fat[off + 1] == PackedByte(es, off + 1);
    PairBytes(es[2 * h], es[2 * h + 1]);
    if i % 2 == 0 {
      assert off == 3 * h && off / 3 == h && (off + 1) / 3 == h;
    } else {
      assert off == 3 * h + 1 && off / 3 == h && (off + 1) / 3 == h;
    }
  }

  /** Bytes left by setting entry i to v in place. */
  function SetBytes(fat: seq<byte>, i: nat, v: nat): (fat': seq<byte>)
    requires i * 3 / 2 + 1 < |fat|
    ensures |fat'| == |fat|
  {
    var off := i * 3 / 2;
    if i % 2 == 0 then
      fat[off := v % 256][off + 1 := fat[off + 1] / 16 * 16 + v / 256 % 16]
    else
      fat[off := fat[off] % 16 + v % 16 * 16][off + 1 := v / 16 % 256]
  }

  /** The packed table refines the plain array: a read-modify-write of shared
      bytes is exactly one array update (of the low 12 bits of v). */
  lemma SetRefinesUpdate(es: seq<entry>, n: nat, i: nat, v: nat)
    requires |es| == Slots(n) && i * 3 / 2 + 1 < n
    ensures i < |es| && SetBytes(Pack(es, n), i, v) == Pack(es[i := v % 0x1000], n)
  {
    var es' := es[i := v % 0x1000];
    var a, b := SetBytes(Pack(es, n), i, v), Pack(es', n);
    forall k | 0 <= k < n
      ensures a[k] == b[k]
    {
      SetByteAt(es, n, i, v, k);
    }
  }

  lemma LowBits(v: nat)
    ensures v % 0x1000 % 256 == v % 256 && v % 0x1000 / 256 == v / 256 % 16
    ensures v % 0x1000 % 16 == v % 16 && v % 0x1000 / 16 == v / 16 % 256
  {
    var q, r := v / 0x1000, v % 0x1000;
    assert v == 256 * (16 * q + r / 256) + r % 256;
    assert v / 256 == 16 * q + r / 256;
    assert v == 16 * (256 * q + r / 16) + r % 16;
    assert v / 16 == 256 * q + r / 16;
  }

  /** What becomes of byte k, which was was. */
  function NewByte(was: byte, i: nat, v: nat, k: nat): byte {
    if i % 2 == 0 then
      if k == i * 3 / 2 then v % 256 else if k == i * 3 / 2 + 1 then was / 16 * 16 + v / 256 % 16 else was
    else
      if k == i * 3 / 2 then was % 16 + v % 16 * 16 else if k == i * 3 / 2 + 1 then v / 16 % 256 else was
  }

  lemma ByteSet(fat: seq<byte>, i: nat, v: nat, k: nat)
    requires i * 3 / 2 + 1 < |fat| && k < |fat|
    ensures SetBytes(fat, i, v)[k] == NewByte(fat[k], i, v, k)
  {
  }

  lemma OtherGroup(es: seq<entry>, i: nat, v: nat, k: nat)
    requires k / 3 != i / 2 && 2 * (k / 3) + 1 < |es| && i < |es|
    ensures PackedByte(es[i := v % 0x1000], k) == NewByte(PackedByte(es, k), i, v, k)
  {
    assert k != i * 3 / 2 && k != i * 3 / 2 + 1 && 2 * (k / 3) != i && 2 * (k / 3) + 1 != i;
  }

  lemma SetByteAt(es: seq<entry>, n: nat, i: nat, v: nat, k: nat)
    requires |es| == Slots(n) && i * 3 / 2 + 1 < n && k < n
    ensures i < |es| && SetBytes(Pack(es, n), i, v)[k] == Pack(es[i := v % 0x1000], n)[k]
  {
    var fat, es' := Pack(es, n), es[i := v % 0x1000];
    assert Pack(es', n)[k] == PackedByte(es', k) && fat[k] == PackedByte(es, k);
    hide Pack, PackedByte, NewByte, SetBytes;
    ByteSet(fat, i, v, k);
    if k / 3 != i / 2 {
      OtherGroup(es, i, v, k);
    } else {
      SetInGroup(es, i, v, k);
    }
  }

  /** The three bytes of the group that entry i shares with its neighbour. */
  lemma SetInGroup(es: seq<entry>, i: nat, v: nat, k: nat)
    requires k / 3 == i / 2 && 2 * (k / 3) + 1 < |es|
    ensures i < |es|
    ensures PackedByte(es[i := v % 0x1000], k) == NewByte(PackedByte(es, k), i, v, k)
  {
    var h := i / 2;
    LowBits(v);
    if i % 2 == 0 {
      assert i == 2 * h && i * 3 / 2 == 3 * h;
    } else {
      assert i == 2 * h + 1 && i * 3 / 2 == 3 * h + 1;
    }
  }

  /** In-place write of table entry i. */
  method Set(fat: array<byte>, i: nat, v: nat, ghost es: seq<entry>) returns (ghost es': seq<entry>)
    requires i * 3 / 2 + 1 < fat.Length && |es| == Slots(fat.Length)
    requires fat[..] == Pack(es, fat.Length)
    modifies fat
    ensures i < |es| && es' == es[i := v % 0x1000]
    ensures fat[..] == Pack(es', fat.Length)
  {
    var off := i * 3 / 2;
    if i % 2 == 0 {
      fat[off] := v % 256;
      fat[off + 1] := fat[off + 1] / 16 * 16 + v / 256 % 16;
    } else {
      fat[off] := fat[off] % 16 + v % 16 * 16;
      fat[off + 1] := v / 16 % 256;
    }
    SetRefinesUpdate(es, fat.Length, i, v);
    es' := es[i := v % 0x1000];
    assert fat[..] == SetBytes(old(fat[..]), i, v);
  }

  /** Links of a file occupying n consecutive clusters from first. */
  function Links(first: nat, n: nat): (r: seq<entry>)
    requires first + n <= 0x1000
    ensures |r| == n
  {
    seq(n, i requires 0 <= i < n => if i == n - 1 then END_OF_CHAIN else first + i + 1)
  }

  /** es with the chain of n clusters from first written over it. */
  function WithChain(es: seq<entry>, first: nat, n: nat): (r: seq<entry>)
    requires first + n <= |es| && first + n <= 0x1000
    ensures |r| == |es|
  {
    es[..first] + Links(first, n) + es[first + n..]
  }

  /** Links a run of n clusters starting at first. */
  method Chain(fat: array<byte>, first: nat, n: nat, ghost es: seq<entry>) returns (ghost es': seq<entry>)
    requires n > 0 && (first + n - 1) * 3 / 2 + 1 < fat.Length && first + n <= 0x1000
    requires |es| == Slots(fat.Length) && fat[..] == Pack(es, fat.Length)
    modifies fat
    ensures first + n <= |es| && es' == WithChain(es, first, n)
    ensures fat[..] == Pack(es', fat.Length)
  {
    es' := es;
    var i := 0;
    while i < n
      invariant 0 <= i <= n && first + n <= |es| == |es'|
      invariant forall k :: 0 <= k < |es| ==>
        es'[k] == if first <= k < first + i then Links(first, n)[k - first] else es[k]
      invariant fat[..] == Pack(es', fat.Length)
    {
      var next := U16(first + i + 1);
      if i == n - 1 {
        next := END_OF_CHAIN;
      }
      es' := Set(fat, first + i, next, es');
      i := i + 1;
    }
    assert es' == WithChain(es, first, n);
  }
}
