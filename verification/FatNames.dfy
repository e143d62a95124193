/** Directory entries of a FAT volume: 8.3 names and the long-name entry. */
module FatNames {
  import opened Bytes

  const SPACE: byte := 32
  const DOT: byte := 46

  const ATTR_DIR: byte := 0x10
  const ATTR_LFN: byte := 0x0F
  const ATTR_FILE: byte := 0x20

  /** 2000-01-01, so that images are reproducible. */
  const FAT_DATE := (2000 - 1980) * 0x200 + 1 * 0x20 + 1

  function Spaces(n: nat): (r: seq<byte>)
    ensures |r| == n
    ensures forall i :: 0 <= i < n ==> r[i] == SPACE
  {
    seq(n, _ => SPACE)
  }

  /** An 8.3 name in its 11-byte form. */
  function ShortName(base: seq<byte>, ext: seq<byte>): (r: seq<byte>)
    requires |base| <= 8 && |ext| <= 3
    ensures |r| == 11
    ensures base != [] ==> r[0] == base[0]
  {
    base + Spaces(8 - |base|) + (ext + Spaces(3 - |ext|))
  }

  function TrimRight(s: seq<byte>): (r: seq<byte>)
  {
    if s != [] && s[|s| - 1] == SPACE then TrimRight(s[..|s| - 1]) else s
  }

  /** The name a reader shows for an 11-byte short name. */
  function ShownName(name: seq<byte>): (r: seq<byte>)
    requires |name| == 11
  {
    var base, ext := TrimRight(name[..8]), TrimRight(name[8..]);
    if ext == [] then base else base + [DOT] + ext
  }

  predicate NoTrailingSpace(s: seq<byte>) {
    s == [] || s[|s| - 1] != SPACE
  }

  lemma {:induction false} TrimPadding(s: seq<byte>, n: nat)
    requires NoTrailingSpace(s)
    ensures TrimRight(s + Spaces(n)) == s
  {
    if n == 0 {
      assert s + Spaces(0) == s;
    } else {
      TrimPadding(s, n - 1);
      assert (s + Spaces(n))[..|s| + n - 1] == s + Spaces(n - 1);
    }
  }

  /** Padding an 8.3 name and trimming it again gives the name back. */
  lemma ShownShortName(base: seq<byte>, ext: seq<byte>)
    requires |base| <= 8 && |ext| <= 3 && NoTrailingSpace(base) && NoTrailingSpace(ext)
    ensures ShownName(ShortName(base, ext)) == if ext == [] then base else base + [DOT] + ext
  {
    var name := ShortName(base, ext);
    TrimPadding(base, 8 - |base|);
    TrimPadding(ext, 3 - |ext|);
    assert name[..8] == base + Spaces(8 - |base|);
    assert name[8..] == ext + Spaces(3 - |ext|);
  }

  /** A 32-byte directory entry. */
  function DirEntry(name: seq<byte>, attr: byte, first: nat, size: nat): (e: seq<byte>)
    requires |name| == 11 && first < 0x1_0000 && size < 0x1_0000_0000
    ensures |e| == 32
  {
    name + [attr] + Zeros(4) + Le16(FAT_DATE) + Le16(FAT_DATE) + Zeros(4) + Le16(FAT_DATE) + Le16(first) + Le32(size)
  }

  lemma DirEntryFields(name: seq<byte>, attr: byte, first: nat, size: nat)
    requires |name| == 11 && first < 0x1_0000 && size < 0x1_0000_0000
    ensures var e := DirEntry(name, attr, first, size);
            && e[..11] == name && e[11] == attr && ReadLe16(e, 26) == first && ReadLe32(e, 28) == size
            && e[12..26] == [0, 0, 0, 0, 0x21, 0x28, 0x21, 0x28, 0, 0, 0, 0, 0x21, 0x28]
  {
    var e := DirEntry(name, attr, first, size);
    assert Le16(FAT_DATE) == [0x21, 0x28];
    assert e[26..28] == Le16(first);
    assert e[28..32] == Le32(size);
    ReadSlice(e, 26, Le16(first));
    ReadSlice(e, 28, Le32(size));
  }

  // ---- long names ----

  /** The checksum of a short name: rotate right and add, modulo 256. */
  function Checksum(short: seq<byte>): (sum: byte)
  {
    if short == [] then 0
    else
      var sum := Checksum(short[..|short| - 1]);
      (sum % 2 * 128 + sum / 2 + short[|short| - 1]) % 256
  }

  /** Starting from zero, each character is added to the sum so far, turned right by one bit: to
      the byte that, turned left, is that sum. */
  lemma ChecksumLaw(s: seq<byte>, c: byte) returns (turned: byte)
    ensures Checksum([]) == 0
    ensures turned % 128 * 2 + turned / 128 == Checksum(s)
    ensures Checksum(s + [c]) == (turned + c) % 256
  {
    var sum := Checksum(s);
    turned := sum % 2 * 128 + sum / 2;
    assert (s + [c])[..|s|] == s;
  }

  method ComputeChecksum(short: seq<byte>) returns (sum: byte)
    ensures sum == Checksum(short)
  {
    sum := 0;
    for i := 0 to |short|
      invariant sum == Checksum(short[..i])
    {
      assert short[..i + 1][..i] == short[..i];
      sum := (sum % 2 * 128 + sum / 2 + short[i]) % 256;
    }
    assert short[..|short|] == short;
  }

  type unit = x: int | 0 <= x < 0x1_0000

  /** The 13 character slots of a long-name entry: name, terminator, filler. */
  function SlotUnit(long: seq<unit>, k: nat): (u: unit) {
    if k < |long| then long[k] else if k == |long| then 0 else 0xFFFF
  }

  /** Offset of character slot k in the entry. */
  function SlotOffset(k: nat): (at: nat)
    requires k < 13
    ensures at + 2 <= 32
  {
    if k < 5 then 1 + 2 * k else if k < 11 then 14 + 2 * (k - 5) else 28 + 2 * (k - 11)
  }

  /** The long-name entry e stands for the name long of a file with checksum sum. */
  ghost predicate IsLfnEntry(e: seq<byte>, long: seq<unit>, sum: byte) {
    && |e| == 32 && e[0] == 0x41 && e[11] == ATTR_LFN && e[12] == 0 && e[13] == sum && e[26] == 0 && e[27] == 0
    && forall k :: 0 <= k < 13 ==> ReadLe16(e, SlotOffset(k)) == SlotUnit(long, k)
  }

  /** The character slot that byte p of the entry belongs to. */
  function SlotAt(p: nat): (k: nat)
    requires 1 <= p < 11 || 14 <= p < 26 || 28 <= p < 32
    ensures k < 13 && (p == SlotOffset(k) || p == SlotOffset(k) + 1)
  {
    if p < 11 then (p - 1) / 2 else if p < 26 then 5 + (p - 14) / 2 else 11 + (p - 28) / 2
  }

  function LfnByte(long: seq<unit>, sum: byte, p: nat): (b: byte)
    requires p < 32
  {
    if p == 0 then 0x41
    else if p == 11 then ATTR_LFN
    else if p == 13 then sum
    else if p == 12 || p == 26 || p == 27 then 0
    else
      var u := SlotUnit(long, SlotAt(p));
      if p == SlotOffset(SlotAt(p)) then u % 256 else u / 256
  }

  /** The entry, byte by byte. */
  function LfnEntry(long: seq<unit>, sum: byte): (e: seq<byte>)
    ensures |e| == 32
    ensures forall p :: 0 <= p < 32 ==> e[p] == LfnByte(long, sum, p)
  {
    seq(32, p requires 0 <= p < 32 => LfnByte(long, sum, p))
  }

  /** The byte table puts every slot, the attribute and the checksum in place. */
  lemma LfnEntryCorrect(long: seq<unit>, sum: byte)
    ensures IsLfnEntry(LfnEntry(long, sum), long, sum)
  {
    var e := LfnEntry(long, sum);
    forall k | 0 <= k < 13
      ensures ReadLe16(e, SlotOffset(k)) == SlotUnit(long, k)
    {
      assert SlotAt(SlotOffset(k)) == k && SlotAt(SlotOffset(k) + 1) == k;
    }
  }

  lemma SameSlot(a: seq<byte>, b: seq<byte>, long: seq<unit>, sum: byte, k: nat)
    requires IsLfnEntry(a, long, sum) && IsLfnEntry(b, long, sum) && k < 13
    ensures a[SlotOffset(k)] == b[SlotOffset(k)] && a[SlotOffset(k) + 1] == b[SlotOffset(k) + 1]
  {
    assert ReadLe16(a, SlotOffset(k)) == ReadLe16(b, SlotOffset(k));
  }

  /** The name stands in the slots at 1, 14 and 28, five, six and two of them, ended by a zero
      and filled up with 0xFFFF. */
  lemma LfnSlots(e: seq<byte>, long: seq<unit>, sum: byte, k: nat)
    requires IsLfnEntry(e, long, sum) && k < 13
    ensures ReadLe16(e, 2 * k + if k < 5 then 1 else if k < 11 then 4 else 6) ==
      if k < |long| then long[k] else if k == |long| then 0 else 0xFFFF
  {
    assert SlotOffset(k) == 2 * k + if k < 5 then 1 else if k < 11 then 4 else 6;
  }

  /** IsLfnEntry leaves no byte of the entry open. */
  lemma LfnEntryUnique(a: seq<byte>, b: seq<byte>, long: seq<unit>, sum: byte)
    requires IsLfnEntry(a, long, sum) && IsLfnEntry(b, long, sum)
    ensures a == b
  {
    forall k | 0 <= k < 13
      ensures a[SlotOffset(k)] == b[SlotOffset(k)] && a[SlotOffset(k) + 1] == b[SlotOffset(k) + 1]
    {
      SameSlot(a, b, long, sum, k);
    }
    forall p | 0 <= p < 32
      ensures a[p] == b[p]
    {
      if 1 <= p < 11 || 14 <= p < 26 || 28 <= p {
        var k := SlotAt(p);
      }
    }
  }

  /** Builds the entry slot group by slot group, as three runs at 1, 14 and 28. */
  method BuildLfnEntry(long: seq<unit>, short: seq<byte>) returns (e: array<byte>)
    ensures fresh(e) && e[..] == LfnEntry(long, Checksum(short))
  {
    var sum := ComputeChecksum(short);
    var chars := seq(13, k requires 0 <= k => SlotUnit(long, k));
    e := new byte[32](_ => 0);
    e[0] := 0x41;
    e[11] := ATTR_LFN;
    e[13] := sum;
    var slots := [(1, 5), (14, 6), (28, 2)];
    var k := 0;
    for s := 0 to 3
      invariant k == if s == 0 then 0 else if s == 1 then 5 else if s == 2 then 11 else 13
      invariant SlotsDone(e[..], long, k) && FrameKept(e[..], sum)
    {
      var (start, count) := slots[s];
      var i := 0;
      while i < count
        invariant 0 <= i <= count && k == (if s == 0 then 0 else if s == 1 then 5 else 11) + i
        invariant SlotsDone(e[..], long, k) && FrameKept(e[..], sum)
      {
        ghost var before := e[..];
        e[start + 2 * i] := chars[k] % 256;
        e[start + 2 * i + 1] := chars[k] / 256;
        SlotWritten(before, e[..], long, k);
        k := k + 1;
        i := i + 1;
      }
    }
    LfnEntryCorrect(long, sum);
    LfnEntryUnique(e[..], LfnEntry(long, sum), long, sum);
  }

  ghost predicate SlotsDone(e: seq<byte>, long: seq<unit>, n: nat) {
    |e| == 32 && n <= 13 && forall k :: 0 <= k < n ==> ReadLe16(e, SlotOffset(k)) == SlotUnit(long, k)
  }

  ghost predicate FrameKept(e: seq<byte>, sum: byte) {
    |e| == 32 && e[0] == 0x41 && e[11] == ATTR_LFN && e[12] == 0 && e[13] == sum && e[26] == 0 && e[27] == 0
  }

  lemma SlotWritten(before: seq<byte>, after: seq<byte>, long: seq<unit>, n: nat)
    requires SlotsDone(before, long, n) && n < 13
    requires after == before[SlotOffset(n) := SlotUnit(long, n) % 256][SlotOffset(n) + 1 := SlotUnit(long, n) / 256]
    ensures SlotsDone(after, long, n + 1)
  {
    forall k | 0 <= k < n + 1
      ensures ReadLe16(after, SlotOffset(k)) == SlotUnit(long, k)
    {
      if k < n {
        assert SlotOffset(k) + 2 <= SlotOffset(n);
        assert ReadLe16(before, SlotOffset(k)) == SlotUnit(long, k);
      }
    }
  }

  /** Characters a reader takes from n slots at offset at, up to a terminator or filler. */
  function ReadUnits(e: seq<byte>, at: nat, n: nat): (us: seq<unit>)
    requires at + 2 * n <= |e|
    decreases n
  {
    if n == 0 then []
    else
      var u := ReadLe16(e, at);
      if u == 0 || u == 0xFFFF then [] else [u] + ReadUnits(e, at + 2, n - 1)
  }

  function ReadLong(e: seq<byte>): (long: seq<unit>)
    requires |e| == 32
  {
    ReadUnits(e, 1, 5) + ReadUnits(e, 14, 6) + ReadUnits(e, 28, 2)
  }

  predicate PlainUnits(long: seq<unit>) {
    forall i :: 0 <= i < |long| ==> long[i] != 0 && long[i] != 0xFFFF
  }

  function Upto(n: nat, bound: nat): nat { if n < bound then n else bound }

  lemma SlotHolds(e: seq<byte>, long: seq<unit>, sum: byte, k: nat)
    requires IsLfnEntry(e, long, sum) && k < 13
    ensures |e| == 32
    ensures ReadLe16(e, SlotOffset(k)) == if k < |long| then long[k] else if k == |long| then 0 else 0xFFFF
  {
    assert ReadLe16(e, SlotOffset(k)) == SlotUnit(long, k);
  }

  lemma RunOffset(k: nat, n: nat)
    requires n > 0 && (k + n <= 5 || (5 <= k && k + n <= 11) || (11 <= k && k + n <= 13))
    ensures SlotOffset(k) + 2 * n <= 32 && (n > 1 ==> SlotOffset(k + 1) == SlotOffset(k) + 2)
  {
  }

  lemma UptoCons<T>(long: seq<T>, k: nat, n: nat)
    requires k < |long| && n > 0
    ensures long[k..Upto(k + n, |long|)] == [long[k]] + long[Upto(k + 1, |long|)..Upto(k + n, |long|)]
  {
  }

  lemma SlotsStep(e: seq<byte>, at: nat, n: nat)
    requires n > 0 && at + 2 * n <= |e|
    ensures ReadUnits(e, at, n) ==
            if ReadLe16(e, at) == 0 || ReadLe16(e, at) == 0xFFFF then [] else [ReadLe16(e, at)] + ReadUnits(e, at + 2, n - 1)
    ensures ReadUnits(e, at + 2, 0) == []
  {
  }

  /** Slots k to k + n - 1, which lie in one run, read back that part of the name. */
  lemma {:induction false} SlotsRead(e: seq<byte>, long: seq<unit>, sum: byte, k: nat, n: nat)
    requires IsLfnEntry(e, long, sum) && PlainUnits(long) && n > 0
    requires k + n <= 5 || (5 <= k && k + n <= 11) || (11 <= k && k + n <= 13)
    ensures ReadUnits(e, SlotOffset(k), n) == long[Upto(k, |long|)..Upto(k + n, |long|)]
    decreases n
  {
    RunOffset(k, n);
    hide IsLfnEntry, ReadLe16, ReadUnits, SlotOffset;
    SlotHolds(e, long, sum, k);
    SlotsStep(e, SlotOffset(k), n);
    if k < |long| {
      UptoCons(long, k, n);
      if n > 1 {
        SlotsRead(e, long, sum, k + 1, n - 1);
      }
    }
  }

  /** Every long name of at most 13 ordinary characters reads back. */
  lemma LongNameRoundTrip(e: seq<byte>, long: seq<unit>, sum: byte)
    requires |long| <= 13 && PlainUnits(long) && IsLfnEntry(e, long, sum)
    ensures ReadLong(e) == long
  {
    SlotsRead(e, long, sum, 0, 5);
    SlotsRead(e, long, sum, 5, 6);
    SlotsRead(e, long, sum, 11, 2);
    assert SlotOffset(0) == 1 && SlotOffset(5) == 14 && SlotOffset(11) == 28;
    hide ReadUnits, IsLfnEntry, PlainUnits, SlotOffset;
    UptoJoin(long);
  }

  lemma UptoJoin<T>(long: seq<T>)
    requires |long| <= 13
    ensures long[Upto(0, |long|)..Upto(5, |long|)] + long[Upto(5, |long|)..Upto(11, |long|)]
            + long[Upto(11, |long|)..Upto(13, |long|)] == long
  {
  }
}
