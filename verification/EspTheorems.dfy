/** What an independent reader finds in the EFI System Partition image, alone or
    followed by any other bytes: exactly the two files it was built from. */
module EspTheorems {
  import opened Bytes
  import opened Wrappers
  import opened FatNames
  import opened EspImage
  import opened FatReader
  import Fat12

  /** img starts with the partition image built from efi and script. */
  ghost predicate Carries(img: seq<byte>, efi: seq<byte>, script: seq<byte>) {
    Accepts(efi, script) && EspBytes(efi, script) <= img
  }

  ghost predicate Written(w: Write, efi: seq<byte>, script: seq<byte>)
    requires Accepts(efi, script)
  {
    NothingTruncates(efi, script);
    var g := GeometryOf(efi, script);
    || w in VolumeFields(g.TotalSectors()) || w in TableFields(g.FatSectors())
    || w in TableWrites(g) || w in DirWrites(g, |efi|, |script|) || w in FileWrites(g, efi, script)
  }

  lemma WrittenIn(efi: seq<byte>, script: seq<byte>, w: Write)
    requires Accepts(efi, script) && Written(w, efi, script)
    ensures w in EspWrites(efi, script)
  {
    hide VolumeFields, TableFields, TableWrites, DirWrites, FileWrites, ChainLen;
  }

  /** Every write of the builder is still there in the finished image. */
  lemma SliceAt(img: seq<byte>, efi: seq<byte>, script: seq<byte>, w: Write)
    requires Carries(img, efi, script) && Written(w, efi, script)
    ensures w.End() <= |img| && img[w.at..w.End()] == w.data
  {
    RegionsDisjoint(efi, script);
    WrittenIn(efi, script, w);
    hide Written, EspWrites, EspLength, Accepts, Spans, Zeros, Apply;
    ReadBackOf(EspWrites(efi, script), Zeros(EspLength(efi, script)), w);
    SliceOfPrefix(EspBytes(efi, script), img, w.at, w.End());
  }

  function VolumeOf(g: Geometry): Volume {
    Volume(512, 4, 1, 2, 512, g.TotalSectors(), g.FatSectors())
  }

  lemma VolumeRead(img: seq<byte>, efi: seq<byte>, script: seq<byte>)
    requires Carries(img, efi, script)
    ensures ReadVolume(img) == Some(VolumeOf(GeometryOf(efi, script)))
  {
    NothingTruncates(efi, script);
    var g := GeometryOf(efi, script);
    var vs, ts := VolumeFields(g.TotalSectors()), TableFields(g.FatSectors());
    forall i | 2 <= i < 8
      ensures vs[i].End() <= |img| && img[vs[i].at..vs[i].End()] == vs[i].data
    {
      SliceAt(img, efi, script, vs[i]);
    }
    FieldsRead(img, g.TotalSectors());
    SliceAt(img, efi, script, ts[0]);
    ReadSlice(img, 22, Le16(g.FatSectors()));
    SliceAt(img, efi, script, ts[7]);
    SliceAt(img, efi, script, ts[8]);
    assert img[510] == img[510..512][0] && img[511] == img[510..512][1];
  }

  /** n bytes fill c clusters of 2048 bytes; an empty file has one. */
  ghost predicate Fills(n: nat, c: nat) { c >= 1 && n <= c * 2048 && (c == 1 || (c - 1) * 2048 < n) }

  /** Accepted is every script that is not empty with every binary, as long as the files and the two
      directories take at most 4084 clusters; the image has a boot sector, two tables just large
      enough for 12 bits a cluster and the two reserved entries, 32 sectors of root directory, and
      the clusters. */
  lemma AcceptsExactly(efi: seq<byte>, script: seq<byte>, a: nat, b: nat, f: nat)
    requires Fills(|efi|, a) && Fills(|script|, b) && (f - 1) * 512 < ((a + b + 4) * 3 + 1) / 2 <= f * 512
    ensures Accepts(efi, script) <==> |script| > 0 && a + b + 2 <= 4084
    ensures EspLength(efi, script) == (1 + 2 * f + 32 + 4 * (a + b + 2)) * 512
  {
    assert ChainLen(|efi|) == a && ChainLen(|script|) == b;
    hide ChainLen;
    assert GeometryOf(efi, script).FatSectors() == f;
  }

  lemma FieldAt(img: seq<byte>, efi: seq<byte>, script: seq<byte>, w: Write, at: nat, data: seq<byte>)
    requires Carries(img, efi, script) && Written(w, efi, script) && w.at == at && w.data == data
    ensures at + |data| <= |img| && img[at..at + |data|] == data
  {
    hide Written, Carries;
    SliceAt(img, efi, script, w);
  }

  lemma NumberBytes()
    ensures Le16(512) == [0x00, 0x02] && Le16(1) == [1, 0] && Le16(32) == [32, 0] && Le16(64) == [64, 0]
    ensures Le32(0x1A2B3C4D) == [0x4D, 0x3C, 0x2B, 0x1A]
  {
  }

  lemma JumpAndSectors(img: seq<byte>, efi: seq<byte>, script: seq<byte>)
    requires Carries(img, efi, script)
    ensures |img| >= 14 && img[0..3] == [0xEB, 0x3C, 0x90]
    ensures img[3..11] == Ascii("IPXEBOOT") && img[11..13] == [0x00, 0x02] && img[13..14] == [4]
  {
    NothingTruncates(efi, script);
    var ws := VolumeFields(GeometryOf(efi, script).TotalSectors());
    NumberBytes();
    assert |Ascii("IPXEBOOT")| == 8;
    hide Le16, Le32, Ascii, Carries;
    FieldAt(img, efi, script, ws[0], 0, [0xEB, 0x3C, 0x90]);
    FieldAt(img, efi, script, ws[1], 3, Ascii("IPXEBOOT"));
    FieldAt(img, efi, script, ws[2], 11, [0x00, 0x02]);
    FieldAt(img, efi, script, ws[3], 13, [4]);
  }

  lemma VolumeCounts(img: seq<byte>, efi: seq<byte>, script: seq<byte>)
    requires Carries(img, efi, script)
    ensures |img| >= 22 && img[14..16] == [1, 0]
    ensures img[16..17] == [2] && img[17..19] == [0x00, 0x02] && img[21..22] == [0xF8]
  {
    NothingTruncates(efi, script);
    var ws := VolumeFields(GeometryOf(efi, script).TotalSectors());
    NumberBytes();
    hide Le16, Le32, Ascii, Carries;
    FieldAt(img, efi, script, ws[4], 14, [1, 0]);
    FieldAt(img, efi, script, ws[5], 16, [2]);
    FieldAt(img, efi, script, ws[6], 17, [0x00, 0x02]);
    FieldAt(img, efi, script, ws[8], 21, [0xF8]);
  }

  lemma DiskShape(img: seq<byte>, efi: seq<byte>, script: seq<byte>)
    requires Carries(img, efi, script)
    ensures |img| >= 39 && img[24..26] == [32, 0]
    ensures img[26..28] == [64, 0] && img[36..37] == [0x80] && img[38..39] == [0x29]
  {
    NothingTruncates(efi, script);
    var ws := TableFields(GeometryOf(efi, script).FatSectors());
    NumberBytes();
    hide Le16, Le32, Ascii, Carries;
    FieldAt(img, efi, script, ws[1], 24, [32, 0]);
    FieldAt(img, efi, script, ws[2], 26, [64, 0]);
    FieldAt(img, efi, script, ws[3], 36, [0x80]);
    FieldAt(img, efi, script, ws[4], 38, [0x29]);
  }

  lemma VolumeNames(img: seq<byte>, efi: seq<byte>, script: seq<byte>)
    requires Carries(img, efi, script)
    ensures |img| >= 512 && img[39..43] == [0x4D, 0x3C, 0x2B, 0x1A]
    ensures img[43..54] == Ascii("IPXEBOOT   ") && img[54..62] == Ascii("FAT12   ") && img[510..512] == [0x55, 0xAA]
  {
    NothingTruncates(efi, script);
    var ws := TableFields(GeometryOf(efi, script).FatSectors());
    NumberBytes();
    assert |Ascii("IPXEBOOT   ")| == 11 && |Ascii("FAT12   ")| == 8;
    hide Le16, Le32, Ascii, Carries;
    FieldAt(img, efi, script, ws[5], 39, [0x4D, 0x3C, 0x2B, 0x1A]);
    FieldAt(img, efi, script, ws[6], 43, Ascii("IPXEBOOT   "));
    FieldAt(img, efi, script, ws[7], 54, Ascii("FAT12   "));
    FieldAt(img, efi, script, ws[8], 510, [0x55, 0xAA]);
  }

  /** The bytes of the boot sector that are the same in every image, spelled out. */
  lemma BootSectorBytes(img: seq<byte>, efi: seq<byte>, script: seq<byte>)
    requires Carries(img, efi, script)
    ensures |img| >= 512
    ensures img[0..3] == [0xEB, 0x3C, 0x90] && img[3..11] == Ascii("IPXEBOOT") && img[11..13] == [0x00, 0x02]
    ensures img[13..14] == [4] && img[14..16] == [1, 0] && img[16..17] == [2] && img[17..19] == [0x00, 0x02]
    ensures img[21..22] == [0xF8] && img[24..26] == [32, 0] && img[26..28] == [64, 0] && img[36..37] == [0x80]
    ensures img[38..39] == [0x29] && img[39..43] == [0x4D, 0x3C, 0x2B, 0x1A]
    ensures img[43..54] == Ascii("IPXEBOOT   ") && img[54..62] == Ascii("FAT12   ") && img[510..512] == [0x55, 0xAA]
  {
    hide Carries, Ascii;
    JumpAndSectors(img, efi, script);
    VolumeCounts(img, efi, script);
    DiskShape(img, efi, script);
    VolumeNames(img, efi, script);
  }

  lemma FieldsRead(img: seq<byte>, total: nat)
    requires total < 0x1_0000 && |img| >= 512
    requires var vs := VolumeFields(total);
      forall i :: 2 <= i < 8 ==> vs[i].End() <= |img| && img[vs[i].at..vs[i].End()] == vs[i].data
    ensures ReadLe16(img, 11) == 512 && img[13] == 4 && ReadLe16(img, 14) == 1 && img[16] == 2
    ensures ReadLe16(img, 17) == 512 && ReadLe16(img, 19) == total
  {
    var vs := VolumeFields(total);
    assert img[vs[2].at..vs[2].End()] == Le16(512);
    ReadSlice(img, 11, Le16(512));
    assert img[vs[3].at..vs[3].End()] == [4];
    assert img[13] == img[13..14][0];
    assert img[vs[4].at..vs[4].End()] == Le16(1);
    ReadSlice(img, 14, Le16(1));
    assert img[vs[5].at..vs[5].End()] == [2];
    assert img[16] == img[16..17][0];
    assert img[vs[6].at..vs[6].End()] == Le16(512);
    ReadSlice(img, 17, Le16(512));
    assert img[vs[7].at..vs[7].End()] == Le16(total);
    ReadSlice(img, 19, Le16(total));
  }

  // ---- allocation table ----

  ghost predicate HasTable(img: seq<byte>, g: Geometry) {
    && g.Valid() && SECTOR + g.FatSectors() * SECTOR <= |img|
    && img[SECTOR..SECTOR + g.FatSectors() * SECTOR] == Table(g)
  }

  lemma CarriesTable(img: seq<byte>, efi: seq<byte>, script: seq<byte>)
    requires Carries(img, efi, script)
    ensures HasTable(img, GeometryOf(efi, script))
  {
    var g := GeometryOf(efi, script);
    SliceAt(img, efi, script, TableWrites(g)[0]);
  }

  /** Each table entry a reader sees is the entry of the plain array. */
  lemma NextIs(img: seq<byte>, g: Geometry, c: nat)
    requires HasTable(img, g) && c < g.Clusters() + 2
    ensures c < |TableEntries(g)| && Next(img, VolumeOf(g), c) == Some(TableEntries(g)[c])
  {
    hide TableEntries, Fat12.Pack;
    var n, off := g.FatSectors() * SECTOR, c * 3 / 2;
    Fat12.GetPack(TableEntries(g), n, c);
    var fat := img[SECTOR..];
    assert fat[off] == img[SECTOR..SECTOR + n][off] && fat[off + 1] == img[SECTOR..SECTOR + n][off + 1];
  }

  /** c, c + 1, ..., c + n - 1. */
  function Run(c: nat, n: nat): (r: seq<nat>)
    ensures |r| == n && forall i :: 0 <= i < n ==> r[i] == c + i
  {
    seq(n, i requires 0 <= i => c + i)
  }

  /** The clusters of the directories and of files of m and n clusters, in order,
      are clusters 2 to 3 + m + n: none is shared and none is left over. */
  ghost predicate Partition(m: nat, n: nat) {
    Run(EFI_DIR, 1) + Run(BOOT_DIR, 1) + Run(EFI_FIRST, m) + Run(EFI_FIRST + m, n) == Run(2, 2 + m + n)
  }

  lemma RunsCover(m: nat, n: nat)
    ensures Partition(m, n)
  {
  }

  /** Following the table from cs[0] visits cs and then meets the end mark. */
  ghost predicate IsChain(img: seq<byte>, v: Volume, cs: seq<nat>) {
    && cs != []
    && (forall i :: 0 <= i < |cs| - 1 ==> Next(img, v, cs[i]) == Some(cs[i + 1]))
    && Next(img, v, cs[|cs| - 1]) == Some(Fat12.END_OF_CHAIN)
  }

  /** One link of a run. */
  lemma RunLink(img: seq<byte>, g: Geometry, first: nat, n: nat, i: nat)
    requires HasTable(img, g) && i < n && first + n <= g.Clusters() + 2 <= |TableEntries(g)|
    requires TableEntries(g)[first..first + n] == Fat12.Links(first, n)
    ensures Next(img, VolumeOf(g), first + i) == Some(if i == n - 1 then Fat12.END_OF_CHAIN else first + i + 1)
  {
    NextIs(img, g, first + i);
    hide TableEntries, Next, HasTable;
    var es := TableEntries(g);
    assert es[first + i] == es[first..first + n][i];
  }

  lemma RunIsChain(img: seq<byte>, g: Geometry, first: nat, n: nat)
    requires HasTable(img, g) && n > 0 && first + n <= g.Clusters() + 2 <= |TableEntries(g)|
    requires TableEntries(g)[first..first + n] == Fat12.Links(first, n)
    ensures IsChain(img, VolumeOf(g), Run(first, n))
  {
    hide TableEntries, Next, HasTable, VolumeOf;
    var cs := Run(first, n);
    forall i | 0 <= i < n
      ensures Next(img, VolumeOf(g), cs[i]) == Some(if i == n - 1 then Fat12.END_OF_CHAIN else cs[i] + 1)
    {
      RunLink(img, g, first, n, i);
    }
  }

  lemma TableRuns(g: Geometry)
    requires g.Valid()
    ensures var es := TableEntries(g);
      && g.Clusters() + 2 <= |es|
      && es[EFI_DIR..EFI_DIR + 1] == Fat12.Links(EFI_DIR, 1)
      && es[BOOT_DIR..BOOT_DIR + 1] == Fat12.Links(BOOT_DIR, 1)
      && es[EFI_FIRST..EFI_FIRST + g.efiClusters] == Fat12.Links(EFI_FIRST, g.efiClusters)
      && es[g.ScriptFirst()..g.ScriptFirst() + g.scriptClusters] == Fat12.Links(g.ScriptFirst(), g.scriptClusters)
  {
  }

  lemma TableChains(img: seq<byte>, g: Geometry)
    requires HasTable(img, g)
    ensures var v := VolumeOf(g);
      && IsChain(img, v, Run(EFI_DIR, 1)) && IsChain(img, v, Run(BOOT_DIR, 1))
      && IsChain(img, v, Run(EFI_FIRST, g.efiClusters))
      && IsChain(img, v, Run(g.ScriptFirst(), g.scriptClusters))
  {
    TableRuns(g);
    hide HasTable, TableEntries, IsChain;
    RunIsChain(img, g, EFI_DIR, 1);
    RunIsChain(img, g, BOOT_DIR, 1);
    RunIsChain(img, g, EFI_FIRST, g.efiClusters);
    RunIsChain(img, g, g.ScriptFirst(), g.scriptClusters);
  }

  ghost predicate PartitionedByChains(img: seq<byte>, g: Geometry) {
    var v := VolumeOf(g);
    && IsChain(img, v, Run(EFI_DIR, 1)) && IsChain(img, v, Run(BOOT_DIR, 1))
    && IsChain(img, v, Run(EFI_FIRST, g.efiClusters)) && IsChain(img, v, Run(g.ScriptFirst(), g.scriptClusters))
    && Partition(g.efiClusters, g.scriptClusters)
  }

  lemma PartitionOf(img: seq<byte>, g: Geometry)
    requires HasTable(img, g)
    ensures PartitionedByChains(img, g)
  {
    TableChains(img, g);
    hide IsChain, HasTable, Partition;
    RunsCover(g.efiClusters, g.scriptClusters);
  }

  /** The two directories and the two files are chains of consecutive clusters
      that together are clusters 2 to clusters + 1, each exactly once. */
  lemma ChainsPartition(img: seq<byte>, efi: seq<byte>, script: seq<byte>)
    requires Carries(img, efi, script)
    ensures PartitionedByChains(img, GeometryOf(efi, script))
  {
    CarriesTable(img, efi, script);
    PartitionOf(img, GeometryOf(efi, script));
  }

  // ---- files ----

  /** The reader's view of a data area of 2048-byte clusters starting at base. */
  ghost predicate DataArea(v: Volume, base: nat) {
    v.ClusterBytes() == CLUSTER && v.DataStart() == base
  }

  lemma ReadStep(img: seq<byte>, v: Volume, base: nat, c: nat, need: int, next: nat, rest: seq<byte>)
    requires DataArea(v, base) && 2 <= c < 0xFF8 && need > 0 && base + (c - 1) * CLUSTER <= |img|
    requires Next(img, v, c) == Some(next) && ReadClusters(img, v, next, need - CLUSTER) == Some(rest)
    ensures ReadClusters(img, v, c, need) == Some(img[base + (c - 2) * CLUSTER..base + (c - 1) * CLUSTER] + rest)
  {
    hide Next;
  }

  lemma ReadEnd(img: seq<byte>, v: Volume, need: int)
    ensures ReadClusters(img, v, Fat12.END_OF_CHAIN, need) == Some([])
  {
  }

  lemma {:induction false} ReadRun(img: seq<byte>, v: Volume, base: nat, first: nat, n: nat, i: nat, need: int)
    requires DataArea(v, base) && 2 <= first && first + n < 0xFF8 && i < n
    requires IsChain(img, v, Run(first, n)) && base + (first - 2 + n) * CLUSTER <= |img|
    requires (n - i - 1) * CLUSTER < need <= (n - i) * CLUSTER
    ensures ReadClusters(img, v, first + i, need)
            == Some(img[base + (first + i - 2) * CLUSTER..base + (first + n - 2) * CLUSTER])
    decreases n - i
  {
    var cs := Run(first, n);
    var lo, hi := base + (first + i - 2) * CLUSTER, base + (first + n - 2) * CLUSTER;
    hide ReadClusters, DataArea, Next;
    if i < n - 1 {
      assert Next(img, v, cs[i]) == Some(cs[i + 1]);
      ReadRun(img, v, base, first, n, i + 1, need - CLUSTER);
      hide IsChain, Run;
      ReadStep(img, v, base, first + i, need, first + i + 1, img[lo + CLUSTER..hi]);
      assert img[lo..lo + CLUSTER] + img[lo + CLUSTER..hi] == img[lo..hi];
    } else {
      assert Next(img, v, first + i) == Some(Fat12.END_OF_CHAIN);
      ReadEnd(img, v, need - CLUSTER);
      hide IsChain, Run;
      ReadStep(img, v, base, first + i, need, Fat12.END_OF_CHAIN, []);
      assert img[lo..lo + CLUSTER] + [] == img[lo..hi];
    }
  }

  /** Content stored at the start of its chain reads back, for every length. */
  lemma ReadStored(img: seq<byte>, v: Volume, base: nat, first: nat, n: nat, data: seq<byte>)
    requires DataArea(v, base) && 2 <= first && first + n < 0xFF8
    requires IsChain(img, v, Run(first, n)) && n == ChainLen(|data|)
    requires base + (first + n - 2) * CLUSTER <= |img|
    requires var at := base + (first - 2) * CLUSTER; img[at..at + |data|] == data
    ensures ReadChain(img, v, first, |data|) == Some(data)
  {
    if data != [] {
      ReadRun(img, v, base, first, n, 0, |data|);
      hide ReadClusters, DataArea, IsChain;
      var at := base + (first - 2) * CLUSTER;
      assert img[at..at + n * CLUSTER][..|data|] == img[at..at + |data|];
    }
  }

  // ---- directories ----

  lemma {:induction false} NameSumSnoc(s: seq<byte>, c: byte, acc: byte)
    ensures NameSum(s + [c], acc) == (TurnRight(NameSum(s, acc)) + c) % 256
    decreases |s|
  {
    if s == [] {
      assert s + [c] == [c] && [c][1..] == [];
    } else {
      NameSumSnoc(s[1..], c, (TurnRight(acc) + s[0]) % 256);
      assert (s + [c])[0] == s[0] && (s + [c])[1..] == s[1..] + [c];
    }
  }

  lemma ChecksumSnoc(s: seq<byte>, c: byte)
    ensures Checksum(s + [c]) == (TurnRight(Checksum(s)) + c) % 256
  {
    assert (s + [c])[..|s|] == s;
  }

  /** The reader's sum over a name is the builder's. */
  lemma {:induction false} SameSum(s: seq<byte>)
    ensures NameSum(s, 0) == Checksum(s)
  {
    if s != [] {
      var p, c := s[..|s| - 1], s[|s| - 1];
      SameSum(p);
      NameSumSnoc(p, c, 0);
      ChecksumSnoc(p, c);
      hide Checksum, NameSum, TurnRight;
      assert s == p + [c];
    }
  }

  /** The attributes of all entries: a long name, files and directories. */
  lemma AttributeBytes(scriptFirst: nat, scriptSize: nat, efiSize: nat)
    requires scriptFirst < 0x1_0000 && scriptSize < 0x1_0000_0000 && efiSize < 0x1_0000_0000
    ensures var d := RootDir(scriptFirst, scriptSize); d[11] == 0x0F && d[43] == 0x20 && d[75] == 0x10
    ensures EfiDir()[11] == 0x10 && EfiDir()[43] == 0x10 && EfiDir()[75] == 0x10
    ensures var d := BootDir(efiSize); d[11] == 0x10 && d[43] == 0x10 && d[75] == 0x20
  {
    LfnEntryCorrect(AUTOEXEC, Checksum(SCRIPT_SHORT));
    hide Checksum, LfnEntry, Ascii;
  }

  lemma NameSumStep(c: byte, s: seq<byte>, acc: byte)
    ensures NameSum([c] + s, acc) == NameSum(s, (TurnRight(acc) + c) % 256)
  {
    assert ([c] + s)[1..] == s;
  }

  lemma SumFromEighth(rest: seq<byte>)
    ensures NameSum([73] + ([80] + ([88] + rest)), 11) == NameSum(rest, 0x33)
  {
    hide NameSum;
    NameSumStep(73, [80] + ([88] + rest), 11);
    NameSumStep(80, [88] + rest, 206);
    NameSumStep(88, rest, 183);
  }

  lemma SumFromFourth(rest: seq<byte>)
    ensures NameSum([69] + ([88] + ([69] + ([67] + rest))), 118) == NameSum(rest, 11)
  {
    hide NameSum;
    NameSumStep(69, [88] + ([69] + ([67] + rest)), 118);
    NameSumStep(88, [69] + ([67] + rest), 128);
    NameSumStep(69, [67] + rest, 152);
    NameSumStep(67, rest, 145);
  }

  lemma SumFromStart(rest: seq<byte>)
    ensures NameSum([65] + ([85] + ([84] + ([79] + rest))), 0) == NameSum(rest, 118)
  {
    hide NameSum;
    NameSumStep(65, [85] + ([84] + ([79] + rest)), 0);
    NameSumStep(85, [84] + ([79] + rest), 65);
    NameSumStep(84, [79] + rest, 245);
    NameSumStep(79, rest, 78);
  }

  lemma ScriptShort()
    ensures SCRIPT_SHORT == [65] + ([85] + ([84] + ([79] + ([69] + ([88] + ([69] + ([67] + ([73] + ([80] + ([88] + []))))))))))
  {
    assert Ascii("AUTOEXEC") == [65, 85, 84, 79, 69, 88, 69, 67] && Ascii("IPX") == [73, 80, 88];
    assert Spaces(0) == [];
    hide Ascii, Spaces;
    assert SCRIPT_SHORT == [65, 85, 84, 79, 69, 88, 69, 67] + [73, 80, 88];
  }

  lemma ScriptSumIs()
    ensures Checksum(SCRIPT_SHORT) == 0x33
  {
    ScriptShort();
    SameSum(SCRIPT_SHORT);
    assert NameSum([], 0x33) == 0x33;
    hide Checksum, NameSum, ShortName;
    var c: seq<byte> := [73] + ([80] + ([88] + []));
    var b: seq<byte> := [69] + ([88] + ([69] + ([67] + c)));
    SumFromStart(b);
    SumFromFourth(c);
    SumFromEighth([]);
  }

  /** The sum that the long name of the script carries in the root directory. */
  lemma ScriptSum(scriptFirst: nat, scriptSize: nat)
    requires scriptFirst < 0x1_0000 && scriptSize < 0x1_0000_0000
    ensures RootDir(scriptFirst, scriptSize)[13] == 0x33
  {
    ScriptSumIs();
    LfnEntryCorrect(AUTOEXEC, Checksum(SCRIPT_SHORT));
    hide Checksum, DirEntry, LfnEntry;
  }

  /** One short entry: either it is the one sought, or the scan goes on without a long name. */
  lemma ShortStep(dir: seq<byte>, i: nat, name: seq<unit>, long: seq<unit>, sum: byte,
                  short: seq<byte>, attr: byte, first: nat, size: nat)
    requires |short| == 11 && short[0] != 0 && attr != ATTR_LFN && first < 0x1_0000 && size < 0x1_0000_0000
    requires i + 32 <= |dir| && dir[i..i + 32] == DirEntry(short, attr, first, size)
    requires long == [] || Checksum(short) == sum
    ensures LookupFrom(dir, i, name, long, sum) ==
            if ShownName(short) == name || long == name then Entry(first, size, attr / 16 % 2 == 1)
            else LookupFrom(dir, i + 32, name, [], sum)
  {
    DirEntryFields(short, attr, first, size);
    SameSum(short);
    hide DirEntry, Checksum, NameSum, ShownName;
    assert dir[i] == dir[i..i + 32][0] == dir[i..i + 32][..11][0];
  }

  lemma LongStep(dir: seq<byte>, i: nat, name: seq<unit>, long: seq<unit>, sum: byte)
    requires |long| <= 13 && PlainUnits(long)
    requires i + 32 <= |dir| && dir[i..i + 32] == LfnEntry(long, sum)
    ensures LookupFrom(dir, i, name, [], 0) == LookupFrom(dir, i + 32, name, long, sum)
  {
    LfnEntryCorrect(long, sum);
    LongNameRoundTrip(LfnEntry(long, sum), long, sum);
    hide LfnEntry, ReadLong;
    assert dir[i] == dir[i..i + 32][0];
  }

  lemma Rows(dir: seq<byte>, a: seq<byte>, b: seq<byte>, c: seq<byte>)
    requires |a| == |b| == |c| == 32 && 96 <= |dir| && dir[..96] == a + b + c
    ensures dir[0..32] == a && dir[32..64] == b && dir[64..96] == c
  {
    assert dir[0..32] == dir[..96][0..32] && dir[32..64] == dir[..96][32..64] && dir[64..96] == dir[..96][64..96];
  }

  const EFI_NAME: seq<byte> := Ascii("EFI")
  const BOOT_NAME: seq<byte> := Ascii("BOOT")
  const BOOTX64_NAME: seq<byte> := Ascii("BOOTX64.EFI")
  const SCRIPT_SHOWN: seq<byte> := Ascii("AUTOEXEC.IPX")

  lemma PlainName(base: string)
    requires 0 < |base| <= 8 && Ascii(base)[0] != 0 && Ascii(base)[|base| - 1] != SPACE
    ensures ShownName(ShortName(Ascii(base), [])) == Ascii(base) && ShortName(Ascii(base), [])[0] != 0
  {
    ShownShortName(Ascii(base), []);
  }

  lemma AsciiDotted(base: string, ext: string)
    ensures Ascii(base + "." + ext) == Ascii(base) + [DOT] + Ascii(ext)
  {
    AsciiConcat(base, ".");
    AsciiConcat(base + ".", ext);
    assert Ascii(".") == [DOT];
  }

  lemma DottedName(base: string, ext: string)
    requires 0 < |base| <= 8 && Ascii(base)[0] != 0 && Ascii(base)[|base| - 1] != SPACE
    requires 0 < |ext| <= 3 && Ascii(ext)[|ext| - 1] != SPACE
    ensures ShownName(ShortName(Ascii(base), Ascii(ext))) == Ascii(base + "." + ext)
    ensures ShortName(Ascii(base), Ascii(ext))[0] != 0
  {
    ShownShortName(Ascii(base), Ascii(ext));
    AsciiDotted(base, ext);
    hide *;
  }

  lemma NamesShown()
    ensures ShownName(SCRIPT_SHORT) == SCRIPT_SHOWN
    ensures ShownName(ShortName(Ascii("EFI"), [])) == EFI_NAME
    ensures ShownName(ShortName(Ascii("BOOT"), [])) == BOOT_NAME
    ensures ShownName(ShortName(Ascii("BOOTX64"), Ascii("EFI"))) == BOOTX64_NAME
    ensures ShownName(DOT_NAME) == [DOT] && ShownName(DOTDOT_NAME) == [DOT, DOT]
    ensures SCRIPT_SHORT[0] != 0 && ShortName(Ascii("EFI"), [])[0] != 0 && ShortName(Ascii("BOOT"), [])[0] != 0
    ensures ShortName(Ascii("BOOTX64"), Ascii("EFI"))[0] != 0 && DOT_NAME[0] != 0 && DOTDOT_NAME[0] != 0
  {
    hide ShownName, ShortName;
    assert Ascii(".") == [DOT] && Ascii("..") == [DOT, DOT];
    PlainName(".");
    PlainName("..");
    PlainName("EFI");
    PlainName("BOOT");
    DottedName("AUTOEXEC", "IPX");
    assert "AUTOEXEC" + "." + "IPX" == "AUTOEXEC.IPX";
    DottedName("BOOTX64", "EFI");
    assert "BOOTX64" + "." + "EFI" == "BOOTX64.EFI";
  }

  /** A directory entry as a value. */
  datatype Item = Item(short: seq<byte>, attr: byte, first: nat, size: nat) {
    ghost predicate Valid() {
      |short| == 11 && short[0] != 0 && attr != ATTR_LFN && first < 0x1_0000 && size < 0x1_0000_0000
    }

    function Bytes(): (r: seq<byte>)
      requires Valid()
      ensures |r| == 32
    {
      DirEntry(short, attr, first, size)
    }

    function Shown(): seq<byte>
      requires Valid()
    {
      ShownName(short)
    }

    function Found(): Found { Entry(first, size, attr / 16 % 2 == 1) }
  }

  lemma EndOfDir(dir: seq<byte>, i: nat, name: seq<unit>, sum: byte)
    requires i < |dir| && dir[i] == 0
    ensures LookupFrom(dir, i, name, [], sum) == Missing
  {
  }

  /** A directory of three short entries lists exactly those. */
  lemma ShortListing(dir: seq<byte>, name: seq<unit>, a: Item, b: Item, c: Item)
    requires a.Valid() && b.Valid() && c.Valid() && name != []
    requires 96 < |dir| && dir[..96] == a.Bytes() + b.Bytes() + c.Bytes() && dir[96] == 0
    ensures Lookup(dir, name) ==
            if a.Shown() == name then a.Found()
            else if b.Shown() == name then b.Found()
            else if c.Shown() == name then c.Found()
            else Missing
  {
    hide LookupFrom, DirEntry, ShownName, Checksum;
    Rows(dir, a.Bytes(), b.Bytes(), c.Bytes());
    ShortStep(dir, 0, name, [], 0, a.short, a.attr, a.first, a.size);
    ShortStep(dir, 32, name, [], 0, b.short, b.attr, b.first, b.size);
    ShortStep(dir, 64, name, [], 0, c.short, c.attr, c.first, c.size);
    EndOfDir(dir, 96, name, 0);
  }

  /** A long-named entry followed by one short entry. */
  lemma LongListing(dir: seq<byte>, name: seq<unit>, long: seq<unit>, a: Item, b: Item)
    requires 0 < |long| <= 13 && PlainUnits(long) && a.Valid() && b.Valid() && name != []
    requires 96 < |dir| && dir[96] == 0
    requires dir[..96] == LfnEntry(long, Checksum(a.short)) + a.Bytes() + b.Bytes()
    ensures Lookup(dir, name) ==
            if a.Shown() == name || long == name then a.Found()
            else if b.Shown() == name then b.Found()
            else Missing
  {
    hide LookupFrom, DirEntry, LfnEntry, ShownName, Checksum;
    var sum := Checksum(a.short);
    Rows(dir, LfnEntry(long, sum), a.Bytes(), b.Bytes());
    LongStep(dir, 0, name, long, sum);
    ShortStep(dir, 32, name, long, sum, a.short, a.attr, a.first, a.size);
    ShortStep(dir, 64, name, [], sum, b.short, b.attr, b.first, b.size);
    EndOfDir(dir, 96, name, sum);
  }

  /** The root lists the script, under both its names, and /EFI, and nothing else. */
  lemma RootListing(dir: seq<byte>, scriptFirst: nat, scriptSize: nat, name: seq<unit>)
    requires scriptFirst < 0x1_0000 && scriptSize < 0x1_0000_0000
    requires 96 < |dir| && dir[..96] == RootDir(scriptFirst, scriptSize) && dir[96] == 0 && name != []
    ensures Lookup(dir, name) ==
            if name == SCRIPT_SHOWN || name == AUTOEXEC then Entry(scriptFirst, scriptSize, false)
            else if name == EFI_NAME then Entry(EFI_DIR, 0, true)
            else Missing
  {
    NamesShown();
    hide LookupFrom, DirEntry, LfnEntry, Checksum, ShownName, ShortName;
    var script := Item(SCRIPT_SHORT, ATTR_FILE, scriptFirst, scriptSize);
    var efi := Item(ShortName(Ascii("EFI"), []), ATTR_DIR, EFI_DIR, 0);
    LongListing(dir, name, AUTOEXEC, script, efi);
  }

  /** /EFI lists itself, its parent and BOOT. */
  lemma EfiListing(dir: seq<byte>, name: seq<unit>)
    requires 96 < |dir| && dir[..96] == EfiDir() && dir[96] == 0 && name != []
    ensures Lookup(dir, name) ==
            if name == [DOT] then Entry(EFI_DIR, 0, true)
            else if name == [DOT, DOT] then Entry(0, 0, true)
            else if name == BOOT_NAME then Entry(BOOT_DIR, 0, true)
            else Missing
  {
    NamesShown();
    hide LookupFrom, DirEntry, Checksum, ShownName, ShortName;
    ShortListing(dir, name, Item(DOT_NAME, ATTR_DIR, EFI_DIR, 0), Item(DOTDOT_NAME, ATTR_DIR, 0, 0),
                 Item(ShortName(Ascii("BOOT"), []), ATTR_DIR, BOOT_DIR, 0));
  }

  /** /EFI/BOOT lists itself, its parent and BOOTX64.EFI. */
  lemma BootListing(dir: seq<byte>, efiSize: nat, name: seq<unit>)
    requires efiSize < 0x1_0000_0000
    requires 96 < |dir| && dir[..96] == BootDir(efiSize) && dir[96] == 0 && name != []
    ensures Lookup(dir, name) ==
            if name == [DOT] then Entry(BOOT_DIR, 0, true)
            else if name == [DOT, DOT] then Entry(EFI_DIR, 0, true)
            else if name == BOOTX64_NAME then Entry(EFI_FIRST, efiSize, false)
            else Missing
  {
    NamesShown();
    hide LookupFrom, DirEntry, Checksum, ShownName, ShortName;
    ShortListing(dir, name, Item(DOT_NAME, ATTR_DIR, BOOT_DIR, 0), Item(DOTDOT_NAME, ATTR_DIR, EFI_DIR, 0),
                 Item(ShortName(Ascii("BOOTX64"), Ascii("EFI")), ATTR_FILE, EFI_FIRST, efiSize));
  }

  // ---- the whole image ----

  /** All bytes outside the regions are zero. */
  lemma UnwrittenZero(efi: seq<byte>, script: seq<byte>, p: nat)
    requires Accepts(efi, script) && p < EspLength(efi, script)
    requires forall w :: w in EspWrites(efi, script) ==> p < w.at || w.End() <= p
    ensures EspBytes(efi, script)[p] == 0
  {
    RegionsDisjoint(efi, script);
    hide EspWrites, EspLength, Accepts, Apply;
    Untouched(EspWrites(efi, script), Zeros(EspLength(efi, script)), p);
  }

  lemma GapZero(efi: seq<byte>, script: seq<byte>, j: nat, p: nat)
    requires Accepts(efi, script) && p < EspLength(efi, script)
    requires var ws := EspWrites(efi, script);
      j + 1 < |ws| && ws[j].End() <= p < ws[j + 1].at
    ensures EspBytes(efi, script)[p] == 0
  {
    RegionsDisjoint(efi, script);
    hide EspWrites, EspLength, Accepts, Apply, Spans;
    GapUntouched(EspWrites(efi, script), Zeros(EspLength(efi, script)), j, p);
  }

  /** The byte after the entries of each directory is zero, which ends the directory. */
  lemma DirectoriesEnd(efi: seq<byte>, script: seq<byte>)
    requires Accepts(efi, script)
    ensures var g, esp := GeometryOf(efi, script), EspBytes(efi, script);
      && g.ClusterAt(EFI_FIRST) <= |esp|
      && esp[g.RootStart() * SECTOR + 96] == 0
      && esp[g.ClusterAt(EFI_DIR) + 96] == 0
      && esp[g.ClusterAt(BOOT_DIR) + 96] == 0
  {
    DirIndices(efi, script);
    var g := GeometryOf(efi, script);
    hide EspWrites, EspBytes, RootDir, EfiDir, BootDir, ChainLen;
    GapZero(efi, script, 20, g.RootStart() * SECTOR + 96);
    GapZero(efi, script, 21, g.ClusterAt(EFI_DIR) + 96);
    GapZero(efi, script, 22, g.ClusterAt(BOOT_DIR) + 96);
  }

  lemma DirIndices(efi: seq<byte>, script: seq<byte>)
    requires Accepts(efi, script)
    ensures |efi| < 0x1_0000_0000 && |script| < 0x1_0000_0000
    ensures var g, ws := GeometryOf(efi, script), EspWrites(efi, script);
      && |ws| == 25 && ws[20] == DirWrites(g, |efi|, |script|)[0] && ws[21] == DirWrites(g, |efi|, |script|)[1]
      && ws[22] == DirWrites(g, |efi|, |script|)[2] && ws[23] == FileWrites(g, efi, script)[0]
  {
    NothingTruncates(efi, script);
    hide Table, ChainLen, RootDir, EfiDir, BootDir;
  }

  /** What the finished image holds, as seen from its geometry. */
  ghost predicate HasContent(img: seq<byte>, g: Geometry, efi: seq<byte>, script: seq<byte>) {
    && HasTable(img, g) && g.efiClusters == ChainLen(|efi|) && g.scriptClusters == ChainLen(|script|)
    && |efi| < 0x1_0000_0000 && |script| < 0x1_0000_0000
    && g.TotalSectors() * SECTOR <= |img|
    && HasDir(img, g.RootStart() * SECTOR, RootDir(g.ScriptFirst(), |script|))
    && HasDir(img, g.ClusterAt(EFI_DIR), EfiDir())
    && HasDir(img, g.ClusterAt(BOOT_DIR), BootDir(|efi|))
    && img[g.ClusterAt(EFI_FIRST)..g.ClusterAt(EFI_FIRST) + |efi|] == efi
    && img[g.ClusterAt(g.ScriptFirst())..g.ClusterAt(g.ScriptFirst()) + |script|] == script
  }

  ghost predicate HasDir(img: seq<byte>, at: nat, dir: seq<byte>) {
    |dir| == 96 && at + 96 < |img| && img[at..at + 96] == dir && img[at + 96] == 0
  }

  lemma DirCarried(img: seq<byte>, efi: seq<byte>, script: seq<byte>, w: Write)
    requires Carries(img, efi, script) && Written(w, efi, script) && |w.data| == 96
    requires w.at + 96 < |EspBytes(efi, script)| && EspBytes(efi, script)[w.at + 96] == 0
    ensures HasDir(img, w.at, w.data)
  {
    hide Written, EspBytes, Accepts;
    SliceAt(img, efi, script, w);
  }

  lemma CarriesDirs(img: seq<byte>, efi: seq<byte>, script: seq<byte>)
    requires Carries(img, efi, script)
    ensures |script| < 0x1_0000_0000 && |efi| < 0x1_0000_0000
    ensures var g := GeometryOf(efi, script);
      && HasDir(img, g.RootStart() * SECTOR, RootDir(g.ScriptFirst(), |script|))
      && HasDir(img, g.ClusterAt(EFI_DIR), EfiDir()) && HasDir(img, g.ClusterAt(BOOT_DIR), BootDir(|efi|))
  {
    NothingTruncates(efi, script);
    DirectoriesEnd(efi, script);
    var ds := DirWrites(GeometryOf(efi, script), |efi|, |script|);
    hide RootDir, EfiDir, BootDir, EspBytes, ChainLen, HasDir, VolumeFields, TableFields, TableWrites, FileWrites;
    DirCarried(img, efi, script, ds[0]);
    DirCarried(img, efi, script, ds[1]);
    DirCarried(img, efi, script, ds[2]);
  }

  lemma CarriesFiles(img: seq<byte>, efi: seq<byte>, script: seq<byte>)
    requires Carries(img, efi, script)
    ensures var g := GeometryOf(efi, script); var e, s := g.ClusterAt(EFI_FIRST), g.ClusterAt(g.ScriptFirst());
      e + |efi| <= |img| && img[e..e + |efi|] == efi && s + |script| <= |img| && img[s..s + |script|] == script
  {
    NothingTruncates(efi, script);
    var fs := FileWrites(GeometryOf(efi, script), efi, script);
    hide EspBytes, ChainLen, VolumeFields, TableFields, TableWrites, DirWrites;
    SliceAt(img, efi, script, fs[0]);
    SliceAt(img, efi, script, fs[1]);
  }

  lemma CarriesContent(img: seq<byte>, efi: seq<byte>, script: seq<byte>)
    requires Carries(img, efi, script)
    ensures HasContent(img, GeometryOf(efi, script), efi, script)
  {
    CarriesTable(img, efi, script);
    CarriesDirs(img, efi, script);
    CarriesFiles(img, efi, script);
    hide HasTable, HasDir, RootDir, EfiDir, BootDir, ChainLen;
  }

  lemma AreaOf(g: Geometry)
    ensures VolumeOf(g).RootStart() == g.RootStart() * SECTOR
    ensures DataArea(VolumeOf(g), g.DataStart() * SECTOR)
  {
  }

  /** A directory of one cluster reads as that cluster. */
  lemma ReadDir(img: seq<byte>, g: Geometry, c: nat, dir: seq<byte>)
    requires HasTable(img, g) && g.TotalSectors() * SECTOR <= |img| && (c == EFI_DIR || c == BOOT_DIR)
    requires HasDir(img, g.ClusterAt(c), dir)
    ensures var r := ReadChain(img, VolumeOf(g), c, CLUSTER);
      r.Some? && |r.value| == CLUSTER && r.value[..96] == dir && r.value[96] == 0
  {
    TableChains(img, g);
    AreaOf(g);
    var at := g.ClusterAt(c);
    hide IsChain, HasTable, DataArea;
    ReadStored(img, VolumeOf(g), g.DataStart() * SECTOR, c, 1, img[at..at + CLUSTER]);
    assert img[at..at + CLUSTER][..96] == img[at..at + 96];
  }

  ghost function RootOf(img: seq<byte>, g: Geometry): (dir: seq<byte>)
    requires g.TotalSectors() * SECTOR <= |img|
  {
    img[g.RootStart() * SECTOR..g.DataStart() * SECTOR]
  }

  lemma RootHolds(img: seq<byte>, g: Geometry, dir: seq<byte>)
    requires g.TotalSectors() * SECTOR <= |img| && HasDir(img, g.RootStart() * SECTOR, dir)
    ensures var root := RootOf(img, g); 96 < |root| && root[..96] == dir && root[96] == 0
  {
    var root, at := RootOf(img, g), g.RootStart() * SECTOR;
    assert root[..96] == img[at..at + 96];
  }

  lemma WalkFile(img: seq<byte>, v: Volume, dir: seq<byte>, name: seq<unit>, first: nat, data: seq<byte>)
    requires Lookup(dir, name) == Entry(first, |data|, false) && ReadChain(img, v, first, |data|) == Some(data)
    ensures Walk(img, v, dir, [name]) == Some(data)
  {
    hide Lookup, ReadChain;
  }

  lemma WalkDown(img: seq<byte>, v: Volume, dir: seq<byte>, path: seq<seq<unit>>, first: nat, sub: seq<byte>)
    requires |path| > 1 && Lookup(dir, path[0]) == Entry(first, 0, true)
    requires ReadChain(img, v, first, DIR_BYTES) == Some(sub)
    ensures Walk(img, v, dir, path) == Walk(img, v, sub, path[1..])
  {
    hide Lookup, ReadChain;
  }

  /** The script is found in the root directory under its long name. */
  lemma ScriptRead(img: seq<byte>, g: Geometry, efi: seq<byte>, script: seq<byte>)
    requires HasContent(img, g, efi, script)
    ensures Walk(img, VolumeOf(g), RootOf(img, g), [AUTOEXEC]) == Some(script)
  {
    RootHolds(img, g, RootDir(g.ScriptFirst(), |script|));
    AreaOf(g);
    TableChains(img, g);
    hide HasTable, HasDir, IsChain, DataArea, RootDir, EfiDir, BootDir, Lookup, ReadChain, RootOf, Walk, ChainLen;
    RootListing(RootOf(img, g), g.ScriptFirst(), |script|, AUTOEXEC);
    ReadStored(img, VolumeOf(g), g.DataStart() * SECTOR, g.ScriptFirst(), g.scriptClusters, script);
    WalkFile(img, VolumeOf(g), RootOf(img, g), AUTOEXEC, g.ScriptFirst(), script);
  }

  const BOOT_PATH: seq<seq<unit>> := [EFI_NAME, BOOT_NAME, BOOTX64_NAME]

  lemma NamesDiffer()
    ensures EFI_NAME != SCRIPT_SHOWN && EFI_NAME != AUTOEXEC && EFI_NAME != []
    ensures BOOT_NAME != [DOT] && BOOT_NAME != [DOT, DOT] && BOOT_NAME != []
    ensures BOOTX64_NAME != [DOT] && BOOTX64_NAME != [DOT, DOT] && BOOTX64_NAME != []
  {
    assert |EFI_NAME| == 3 && |SCRIPT_SHOWN| == 12 && |AUTOEXEC| == 13 && |BOOT_NAME| == 4 && |BOOTX64_NAME| == 11;
  }

  /** The EFI binary is found through the two subdirectories. */
  lemma EfiRead(img: seq<byte>, g: Geometry, efi: seq<byte>, script: seq<byte>)
    requires HasContent(img, g, efi, script)
    ensures Walk(img, VolumeOf(g), RootOf(img, g), BOOT_PATH) == Some(efi)
  {
    RootHolds(img, g, RootDir(g.ScriptFirst(), |script|));
    NamesDiffer();
    hide HasTable, HasDir, RootDir, EfiDir, BootDir, Lookup, ReadChain, RootOf, Walk, ChainLen, Ascii;
    var v := VolumeOf(g);
    RootListing(RootOf(img, g), g.ScriptFirst(), |script|, EFI_NAME);
    ReadDir(img, g, EFI_DIR, EfiDir());
    var efiDir := ReadChain(img, v, EFI_DIR, CLUSTER).value;
    WalkDown(img, v, RootOf(img, g), BOOT_PATH, EFI_DIR, efiDir);
    EfiListing(efiDir, BOOT_NAME);
    ReadDir(img, g, BOOT_DIR, BootDir(|efi|));
    var bootDir := ReadChain(img, v, BOOT_DIR, CLUSTER).value;
    WalkDown(img, v, efiDir, BOOT_PATH[1..], BOOT_DIR, bootDir);
    assert BOOT_PATH[1..][1..] == [BOOTX64_NAME];
    BootFileRead(img, g, efi, script, bootDir);
  }

  lemma BootFileRead(img: seq<byte>, g: Geometry, efi: seq<byte>, script: seq<byte>, bootDir: seq<byte>)
    requires HasContent(img, g, efi, script)
    requires |bootDir| > 96 && bootDir[..96] == BootDir(|efi|) && bootDir[96] == 0
    ensures Walk(img, VolumeOf(g), bootDir, [BOOTX64_NAME]) == Some(efi)
  {
    AreaOf(g);
    TableChains(img, g);
    NamesDiffer();
    hide HasTable, HasDir, IsChain, DataArea, RootDir, EfiDir, BootDir, Lookup, ReadChain, Walk, ChainLen, Ascii;
    BootListing(bootDir, |efi|, BOOTX64_NAME);
    ReadStored(img, VolumeOf(g), g.DataStart() * SECTOR, EFI_FIRST, g.efiClusters, efi);
    WalkFile(img, VolumeOf(g), bootDir, BOOTX64_NAME, EFI_FIRST, efi);
  }

  /** For every accepted input, and whatever follows the image, an independent reader
      recovers exactly the EFI binary and the script. */
  lemma EspRoundTrip(img: seq<byte>, efi: seq<byte>, script: seq<byte>)
    requires Carries(img, efi, script)
    ensures ReadFile(img, BOOT_PATH) == Some(efi)
    ensures ReadFile(img, [AUTOEXEC]) == Some(script)
  {
    VolumeRead(img, efi, script);
    CarriesContent(img, efi, script);
    var g := GeometryOf(efi, script);
    EfiRead(img, g, efi, script);
    ScriptRead(img, g, efi, script);
    AreaOf(g);
    hide HasTable, HasDir, RootDir, EfiDir, BootDir, Walk, ReadVolume, Carries, ChainLen, Ascii;
  }

  lemma CountOf(g: Geometry)
    requires g.Valid()
    ensures VolumeOf(g).ClusterCount() == Some(g.Clusters()) && VolumeOf(g).IsFat12()
  {
  }

  /** The cluster count a reader derives from the boot sector is the builder's, and
      it types the volume as FAT12. */
  lemma TypedFat12(img: seq<byte>, efi: seq<byte>, script: seq<byte>)
    requires Carries(img, efi, script)
    ensures var v := ReadVolume(img);
      && v.Some? && v.value.ClusterCount() == Some(GeometryOf(efi, script).Clusters())
      && v.value.IsFat12()
  {
    VolumeRead(img, efi, script);
    hide ReadVolume, EspBytes, ChainLen;
    CountOf(GeometryOf(efi, script));
  }

  ghost predicate SameTables(img: seq<byte>, v: Volume) {
    var size := v.fatSectors * v.bps;
    && v.FatStart() + 2 * size == v.RootStart() <= |img|
    && img[v.FatStart()..v.FatStart() + size] == img[v.FatStart() + size..v.RootStart()]
  }

  lemma SameTablesOf(img: seq<byte>, g: Geometry)
    requires HasTable(img, g) && g.RootStart() * SECTOR <= |img|
    requires img[(1 + g.FatSectors()) * SECTOR..g.RootStart() * SECTOR] == Table(g)
    ensures SameTables(img, VolumeOf(g))
  {
    hide Table;
  }

  /** Both copies of the allocation table are the same. */
  lemma TablesEqual(img: seq<byte>, efi: seq<byte>, script: seq<byte>)
    requires Carries(img, efi, script)
    ensures SameTables(img, VolumeOf(GeometryOf(efi, script)))
  {
    CarriesTable(img, efi, script);
    var g := GeometryOf(efi, script);
    SliceAt(img, efi, script, TableWrites(g)[1]);
    hide EspBytes, ChainLen, SameTables, HasTable;
    SameTablesOf(img, g);
  }
}
