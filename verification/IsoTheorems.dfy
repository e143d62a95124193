/** What readers find in the boot ISO. */
module IsoTheorems {
  import opened Bytes
  import opened Wrappers
  import opened BootIso
  import opened IsoReader
  import Esp = EspImage
  import EspTheorems
  import FatReader

  ghost predicate Written(w: Write, esp: seq<byte>)
    requires |esp| < 0x1_0000 * 512
  {
    || w in PvdFields(LBA_PVD * 2048, BootIso.TotalSectors(|esp|)) || w in PvdText(LBA_PVD * 2048)
    || w in PvdDates(LBA_PVD * 2048) || w in BootRecord(LBA_BOOT * 2048) || w in Terminator(LBA_TERM * 2048)
    || w in Catalog(LBA_CATALOG * 2048, |esp| / 512) || w in RootAndPaths(|esp|) || w == Write(LBA_ESP * 2048, esp)
  }

  /** Every write of the builder is still there in the finished image. */
  lemma SliceAt(esp: seq<byte>, w: Write)
    requires |esp| < 0x1_0000 * 512 && Written(w, esp)
    ensures w.End() <= |IsoBytes(esp)| && IsoBytes(esp)[w.at..w.End()] == w.data
  {
    BootIso.RegionsDisjoint(esp);
    assert w in IsoWrites(esp) by {
      hide PvdFields, PvdText, PvdDates, BootRecord, Terminator, Catalog, RootAndPaths;
    }
    hide Written, IsoWrites, Spans, Apply, BootIso.TotalSectors;
    ReadBackOf(IsoWrites(esp), Zeros(BootIso.TotalSectors(|esp|) * 2048), w);
  }

  /** A field of a sector, read relative to the sector. */
  lemma FieldIn(iso: seq<byte>, lba: nat, w: Write)
    requires w.End() <= |iso| && iso[w.at..w.End()] == w.data
    requires lba * 2048 <= w.at && w.End() <= (lba + 1) * 2048 <= |iso|
    ensures Sector(iso, lba).Some?
    ensures var s, off := Sector(iso, lba).value, w.at - lba * 2048;
      && s[off..off + |w.data|] == w.data
      && (|w.data| >= 2 ==> ReadLe16(s, off) == ReadLe16(w.data, 0))
      && (|w.data| >= 4 ==> ReadLe32(s, off) == ReadLe32(w.data, 0))
      && (|w.data| >= 1 ==> s[off] == w.data[0])
  {
    var s, off := Sector(iso, lba).value, w.at - lba * 2048;
    SliceWithin(iso, lba * 2048, s, off, off + |w.data|);
    ReadSlice(s, off, w.data);
    if |w.data| >= 1 {
      assert s[off] == s[off..off + |w.data|][0];
    }
  }

  lemma SectorField(esp: seq<byte>, lba: nat, w: Write)
    requires |esp| < 0x1_0000 * 512 && Written(w, esp)
    requires lba * 2048 <= w.at && w.End() <= (lba + 1) * 2048 && lba < LBA_ESP
    ensures Sector(IsoBytes(esp), lba).Some?
    ensures var s, off := Sector(IsoBytes(esp), lba).value, w.at - lba * 2048;
      && s[off..off + |w.data|] == w.data
      && (|w.data| >= 2 ==> ReadLe16(s, off) == ReadLe16(w.data, 0))
      && (|w.data| >= 4 ==> ReadLe32(s, off) == ReadLe32(w.data, 0))
      && (|w.data| >= 1 ==> s[off] == w.data[0])
  {
    SliceAt(esp, w);
    hide Written, IsoBytes;
    FieldIn(IsoBytes(esp), lba, w);
  }

  /** All bytes outside the regions are zero. */
  lemma UnwrittenZero(esp: seq<byte>, p: nat)
    requires |esp| < 0x1_0000 * 512 && p < |IsoBytes(esp)|
    requires forall w :: w in IsoWrites(esp) ==> p < w.at || w.End() <= p
    ensures IsoBytes(esp)[p] == 0
  {
    BootIso.RegionsDisjoint(esp);
    hide IsoWrites, Apply, Spans, BootIso.TotalSectors;
    UntouchedIn(IsoWrites(esp), Zeros(BootIso.TotalSectors(|esp|) * 2048), p);
  }

  lemma GapZero(esp: seq<byte>, j: nat, p: nat)
    requires |esp| < 0x1_0000 * 512 && p < |IsoBytes(esp)|
    requires var ws := IsoWrites(esp); j + 1 < |ws| && ws[j].End() <= p < ws[j + 1].at
    ensures IsoBytes(esp)[p] == 0
  {
    BootIso.RegionsDisjoint(esp);
    hide IsoWrites, Apply, Spans, BootIso.TotalSectors;
    GapUntouched(IsoWrites(esp), Zeros(BootIso.TotalSectors(|esp|) * 2048), j, p);
  }

  lemma WriteIndices(esp: seq<byte>)
    requires |esp| < 0x1_0000 * 512
    ensures var ws := IsoWrites(esp);
      && |ws| == 40
      && ws[24] == Write(LBA_PVD * 2048 + 881, [1]) && ws[25] == BootRecord(LBA_BOOT * 2048)[0]
      && ws[33] == Write(LBA_CATALOG * 2048 + 32, [0x88]) && ws[34] == Catalog(LBA_CATALOG * 2048, |esp| / 512)[2]
      && ws[36] == Write(LBA_ROOT * 2048, BootIso.RootDir(|esp|)) && ws[37] == RootAndPaths(|esp|)[1]
  {
    hide Both16, Both32, PadText, DirRecord, Date, PathTable, BootIso.RootDir, ValidationEntry, Le16, Le32, Be32;
  }

  /** The bytes that must be zero where nothing was written. */
  lemma ZeroBytes(esp: seq<byte>)
    requires |esp| < 0x1_0000 * 512
    ensures IsoBytes(esp)[LBA_BOOT * 2048] == 0
    ensures IsoBytes(esp)[LBA_CATALOG * 2048 + 33] == 0
    ensures IsoBytes(esp)[LBA_ROOT * 2048 + 110] == 0
  {
    WriteIndices(esp);
    hide IsoBytes, IsoWrites, BootIso.RootDir, PathTable;
    GapZero(esp, 24, LBA_BOOT * 2048);
    GapZero(esp, 33, LBA_CATALOG * 2048 + 33);
    GapZero(esp, 36, LBA_ROOT * 2048 + 110);
  }

  lemma BootRecordRead(esp: seq<byte>)
    requires |esp| < 0x1_0000 * 512
    ensures var br := Sector(IsoBytes(esp), 17);
      br.Some? && IsBootRecord(br.value) && ReadLe32(br.value, 71) == LBA_CATALOG
  {
    ZeroBytes(esp);
    var ws := BootRecord(LBA_BOOT * 2048);
    hide IsoBytes, Ascii, Le32;
    SectorField(esp, 17, ws[0]);
    SectorField(esp, 17, ws[2]);
    SectorField(esp, 17, ws[3]);
  }

  /** The fields of the catalogue sector. */
  lemma CatalogFields(esp: seq<byte>)
    requires |esp| < 0x1_0000 * 512
    ensures var cat := Sector(IsoBytes(esp), LBA_CATALOG);
      && cat.Some? && cat.value[..32] == ValidationEntry() && cat.value[32] == 0x88
      && ReadLe16(cat.value, 38) == |esp| / 512 && ReadLe32(cat.value, 40) == LBA_ESP
  {
    ZeroBytes(esp);
    var ws := Catalog(LBA_CATALOG * 2048, |esp| / 512);
    hide IsoBytes, ValidationEntry, Le16, Le32;
    SectorField(esp, LBA_CATALOG, ws[0]);
    SectorField(esp, LBA_CATALOG, ws[1]);
    SectorField(esp, LBA_CATALOG, ws[2]);
    SectorField(esp, LBA_CATALOG, ws[3]);
  }

  lemma CatalogPlatform(esp: seq<byte>)
    requires |esp| < 0x1_0000 * 512
    ensures var cat := Sector(IsoBytes(esp), LBA_CATALOG); cat.Some? && cat.value[33] == 0
  {
    ZeroBytes(esp);
    hide IsoBytes;
  }

  /** The builder's sum over the first n words is the reader's sum over those bytes. */
  lemma {:induction false} SumsAgree(s: seq<byte>, k: nat, n: nat)
    requires k <= n && 2 * n == |s|
    ensures WordSum(s, n) == WordSum(s, k) + WordsSum(s[2 * k..])
    decreases n - k
  {
    if k < n {
      SumsAgree(s, k + 1, n);
      assert s[2 * k..][2..] == s[2 * (k + 1)..];
    }
  }

  lemma SameSum(s: seq<byte>, n: nat)
    requires 2 * n == |s|
    ensures WordSum(s, n) == WordsSum(s)
  {
    SumsAgree(s, 0, n);
    assert s[2 * 0..] == s;
  }

  /** The checksum word makes the sixteen words of the validation entry add up to zero, as El Torito
      section 2.1 asks. */
  lemma ValidationSum()
    ensures WordsSum(ValidationEntry()) % 0x1_0000 == 0
  {
    ValidationSumsToZero();
    hide ValidationEntry, WordSum, WordsSum;
    SameSum(ValidationEntry(), 16);
  }

  lemma WordsStep(lo: byte, hi: byte, rest: seq<byte>)
    ensures WordsSum([lo, hi] + rest) == lo as int + 256 * (hi as int) + WordsSum(rest)
  {
    assert ([lo, hi] + rest)[2..] == rest;
  }

  lemma WordsOfTitle(rest: seq<byte>)
    ensures WordsSum([73, 80] + ([88, 69] + ([32, 85] + ([69, 70] + ([73, 32] + ([66, 79] + ([79, 84] + rest)))))))
            == 128224 + WordsSum(rest)
  {
    hide WordsSum;
    WordsStep(79, 84, rest);
    WordsStep(66, 79, [79, 84] + rest);
    WordsStep(73, 32, [66, 79] + ([79, 84] + rest));
    WordsStep(69, 70, [73, 32] + ([66, 79] + ([79, 84] + rest)));
    WordsStep(32, 85, [69, 70] + ([73, 32] + ([66, 79] + ([79, 84] + rest))));
    WordsStep(88, 69, [32, 85] + ([69, 70] + ([73, 32] + ([66, 79] + ([79, 84] + rest)))));
    WordsStep(73, 80, [88, 69] + ([32, 85] + ([69, 70] + ([73, 32] + ([66, 79] + ([79, 84] + rest))))));
  }

  lemma WordsOfRest()
    ensures WordsSum([0, 0] + ([0, 0] + ([0, 0] + ([0, 0] + ([0, 0] + ([0, 0] + ([0x55, 0xAA] + []))))))) == 0xAA55
  {
    assert WordsSum([]) == 0;
    hide WordsSum;
    WordsStep(0x55, 0xAA, []);
    WordsStep(0, 0, [0x55, 0xAA] + []);
    WordsStep(0, 0, [0, 0] + ([0x55, 0xAA] + []));
    WordsStep(0, 0, [0, 0] + ([0, 0] + ([0x55, 0xAA] + [])));
    WordsStep(0, 0, [0, 0] + ([0, 0] + ([0, 0] + ([0x55, 0xAA] + []))));
    WordsStep(0, 0, [0, 0] + ([0, 0] + ([0, 0] + ([0, 0] + ([0x55, 0xAA] + [])))));
    WordsStep(0, 0, [0, 0] + ([0, 0] + ([0, 0] + ([0, 0] + ([0, 0] + ([0x55, 0xAA] + []))))));
  }

  lemma UnsignedBytes(rest: seq<byte>, title: seq<byte>)
    requires rest == [0, 0] + ([0, 0] + ([0, 0] + ([0, 0] + ([0, 0] + ([0, 0] + ([0x55, 0xAA] + []))))))
    requires title == [73, 80] + ([88, 69] + ([32, 85] + ([69, 70] + ([73, 32] + ([66, 79] + ([79, 84] + rest))))))
    ensures UnsignedEntry() == [1, 0xEF] + ([0, 0] + title)
  {
    assert Ascii("IPXE UEFI BOOT") == [73, 80, 88, 69, 32, 85, 69, 70, 73, 32, 66, 79, 79, 84];
    assert Zeros(12) == [0, 0, 0, 0, 0, 0, 0, 0, 0, 0, 0, 0];
    hide Ascii, Zeros;
  }

  lemma UnsignedSum()
    ensures WordSum(UnsignedEntry(), 16) == 233014
  {
    var rest: seq<byte> := [0, 0] + ([0, 0] + ([0, 0] + ([0, 0] + ([0, 0] + ([0, 0] + ([0x55, 0xAA] + []))))));
    var title: seq<byte> := [73, 80] + ([88, 69] + ([32, 85] + ([69, 70] + ([73, 32] + ([66, 79] + ([79, 84] + rest))))));
    hide WordSum, WordsSum, UnsignedEntry;
    UnsignedBytes(rest, title);
    SameSum(UnsignedEntry(), 16);
    WordsStep(1, 0xEF, [0, 0] + title);
    WordsStep(0, 0, title);
    WordsOfTitle(rest);
    WordsOfRest();
  }

  /** The validation entry, byte for byte. */
  lemma ValidationBytes()
    ensures ValidationEntry()[..4] == [1, 0xEF, 0, 0] && ValidationEntry()[4..18] == Ascii("IPXE UEFI BOOT")
    ensures ValidationEntry()[18..28] == Zeros(10) && ValidationEntry()[28..] == [0xCA, 0x71, 0x55, 0xAA]
  {
    ValidationIs();
    assert |Ascii("IPXE UEFI BOOT")| == 14;
    hide ValidationEntry, Ascii, Overwrite;
    Signed(Ascii("IPXE UEFI BOOT"));
  }

  lemma ValidationIs()
    ensures ValidationEntry() == Overwrite(UnsignedEntry(), 28, [0xCA, 0x71])
  {
    hide WordSum, UnsignedEntry, Overwrite;
    UnsignedSum();
    assert Le16(Negate(233014)) == [0xCA, 0x71];
  }

  lemma Signed(title: seq<byte>)
    requires |title| == 14
    ensures var e := Overwrite([1, 0xEF, 0, 0] + title + Zeros(12) + [0x55, 0xAA], 28, [0xCA, 0x71]);
      e[..4] == [1, 0xEF, 0, 0] && e[4..18] == title && e[18..28] == Zeros(10) && e[28..] == [0xCA, 0x71, 0x55, 0xAA]
  {
  }

  lemma CatalogRead(esp: seq<byte>)
    requires |esp| < 0x1_0000 * 512
    ensures var cat := Sector(IsoBytes(esp), LBA_CATALOG);
      cat.Some? && IsCatalog(cat.value) && ReadLe16(cat.value, 38) == |esp| / 512 && ReadLe32(cat.value, 40) == LBA_ESP
  {
    CatalogFields(esp);
    CatalogPlatform(esp);
    ValidationSum();
    ValidationHead();
    hide IsoBytes, ValidationEntry, WordsSum, ReadLe16, ReadLe32;
    var cat := Sector(IsoBytes(esp), LBA_CATALOG).value;
    assert cat[0] == cat[..32][0] && cat[1] == cat[..32][1] && cat[30] == cat[..32][30] && cat[31] == cat[..32][31];
  }

  lemma ValidationHead()
    ensures var e := ValidationEntry(); e[0] == 1 && e[1] == 0xEF && e[30] == 0x55 && e[31] == 0xAA
  {
    hide WordSum;
  }

  lemma BootEntryRead(esp: seq<byte>)
    requires |esp| < 0x1_0000 * 512
    ensures ReadBootEntry(IsoBytes(esp)) == Some(BootEntry(|esp| / 512, LBA_ESP))
  {
    BootRecordRead(esp);
    CatalogRead(esp);
    hide IsoBytes, IsBootRecord, IsCatalog;
  }

  lemma LastWrite(esp: seq<byte>)
    requires |esp| < 0x1_0000 * 512
    ensures var ws := IsoWrites(esp); ws != [] && ws[|ws| - 1] == Write(LBA_ESP * 2048, esp)
  {
    hide PvdFields, PvdText, PvdDates, BootRecord, Terminator, Catalog, RootAndPaths;
  }

  lemma AllBefore(ws: seq<Write>, hi: nat, p: nat)
    requires ws != [] && Spans(ws, 0, hi) && ws[|ws| - 1].End() <= p
    ensures forall w :: w in ws ==> w.End() <= p
  {
  }

  /** The end of the last sector is zero. */
  lemma PaddingZero(esp: seq<byte>, p: nat)
    requires |esp| < 0x1_0000 * 512 && LBA_ESP * 2048 + |esp| <= p < |IsoBytes(esp)|
    ensures IsoBytes(esp)[p] == 0
  {
    BootIso.RegionsDisjoint(esp);
    LastWrite(esp);
    hide IsoWrites, Spans, IsoBytes, BootIso.TotalSectors;
    AllBefore(IsoWrites(esp), BootIso.TotalSectors(|esp|) * 2048, p);
    UnwrittenZero(esp, p);
  }

  lemma PaddingShort(n: nat)
    ensures LBA_ESP * 2048 + n <= BootIso.TotalSectors(n) * 2048 < LBA_ESP * 2048 + n + 2048
  {
  }

  lemma Tail(iso: seq<byte>, at: nat, esp: seq<byte>)
    requires at + |esp| <= |iso| < at + |esp| + 2048 && iso[at..at + |esp|] == esp
    requires forall p :: at + |esp| <= p < |iso| ==> iso[p] == 0
    ensures var b := iso[at..];
      esp <= b && |b| - |esp| < 2048 && forall i :: |esp| <= i < |b| ==> b[i] == 0
  {
    assert iso[at..][..|esp|] == iso[at..at + |esp|];
  }

  /** The El Torito route reaches the partition image, followed only by the zeros that fill its
      last sector. */
  lemma BootImageRead(esp: seq<byte>)
    requires |esp| < 0x1_0000 * 512
    ensures var b := BootImage(IsoBytes(esp));
      b.Some? && esp <= b.value && |b.value| - |esp| < 2048 && forall i :: |esp| <= i < |b.value| ==> b.value[i] == 0
  {
    BootEntryRead(esp);
    RootBytes(esp);
    PaddingShort(|esp|);
    hide IsoBytes, ReadBootEntry, BootIso.RootDir, BootIso.TotalSectors;
    var iso := IsoBytes(esp);
    forall p | LBA_ESP * 2048 + |esp| <= p < |iso|
      ensures iso[p] == 0
    {
      PaddingZero(esp, p);
    }
    Tail(iso, LBA_ESP * 2048, esp);
  }

  // ---- the ISO 9660 route ----

  /** A record's fields read back. */
  lemma RecordFields(id: seq<byte>, extent: nat, size: nat, flags: byte)
    requires extent < 0x1_0000_0000 && size < 0x1_0000_0000 && |id| < 200
    ensures var r := DirRecord(id, extent, size, flags);
      && r[0] as int == |r| && |r| % 2 == 0 && r[25] == flags && r[32] as int == |id| && r[33..33 + |id|] == id
      && ReadLe32(r, 2) == extent && ReadLe32(r, 10) == size
  {
    var r := DirRecord(id, extent, size, flags);
    assert r[2..6] == Le32(extent);
    assert r[10..14] == Le32(size);
    ReadSlice(r, 2, Le32(extent));
    ReadSlice(r, 10, Le32(size));
  }

  /** A record, byte for byte (ECMA-119 section 9.1): dated 1 January 2000, on volume 1. */
  lemma RecordLayout(id: seq<byte>, extent: nat, size: nat, flags: byte)
    requires extent < 0x1_0000_0000 && size < 0x1_0000_0000 && |id| < 200
    ensures var r := DirRecord(id, extent, size, flags);
      && r[0] as int == |r| == 33 + |id| + (1 - |id| % 2) && r[1] == 0 && r[2..10] == Both32(extent) && r[10..18] == Both32(size)
      && r[18..32] == [100, 1, 1, 0, 0, 0, 0, flags, 0, 0, 1, 0, 0, 1] && r[32] as int == |id|
      && r[33..33 + |id|] == id && forall i :: 33 + |id| <= i < |r| ==> r[i] == 0
  {
    hide Both32;
    assert Both16(1) == [1, 0, 0, 1];
  }

  lemma ScanStep(dir: seq<byte>, off: nat, name: seq<byte>, n: nat, id: seq<byte>, e: Extent)
    requires 34 <= n < 256 && off + n <= |dir| && dir[off] as int == n
    requires 33 + |id| <= n && dir[off + 32] as int == |id| && dir[off + 33..off + 33 + |id|] == id
    requires e == Extent(ReadLe32(dir, off + 2), ReadLe32(dir, off + 10))
    ensures FindRecord(dir, off, name) == if name == id then Some(e) else FindRecord(dir, off + n, name)
  {
    hide ReadLe32;
  }

  /** One step of the directory scan. */
  lemma RecordStep(dir: seq<byte>, off: nat, name: seq<byte>, id: seq<byte>, extent: nat, size: nat, flags: byte)
    requires extent < 0x1_0000_0000 && size < 0x1_0000_0000 && 0 < |id| < 200
    requires var n := RecordLength(|id|);
      off + n <= |dir| && dir[off..off + n] == DirRecord(id, extent, size, flags)
    ensures FindRecord(dir, off, name) ==
            if name == id then Some(Extent(extent, size)) else FindRecord(dir, off + RecordLength(|id|), name)
  {
    RecordFields(id, extent, size, flags);
    var n := RecordLength(|id|);
    hide DirRecord, FindRecord, ReadLe32, ReadLe16, RecordLength;
    var r := DirRecord(id, extent, size, flags);
    ReadWithin(dir, off, r, 0);
    ReadWithin(dir, off, r, 2);
    ReadWithin(dir, off, r, 10);
    ReadWithin(dir, off, r, 32);
    SliceWithin(dir, off, r, 33, 33 + |id|);
    ScanStep(dir, off, name, n, id, Extent(extent, size));
  }

  /** The root directory lists itself twice (as . and ..), the partition image, and nothing else. */
  lemma RootListing(dir: seq<byte>, espLength: nat, name: seq<byte>)
    requires espLength < 0x1_0000_0000 && |dir| > 110 && dir[..110] == BootIso.RootDir(espLength) && dir[110] == 0
    ensures FindRecord(dir, 0, name) ==
            if name == [0] || name == [1] then Some(Extent(LBA_ROOT, 2048))
            else if name == ESP_NAME then Some(Extent(LBA_ESP, espLength))
            else None
  {
    var rs := RootRecords(espLength);
    assert dir[0..34] == dir[..110][0..34] == rs[0];
    assert dir[34..68] == dir[..110][34..68] == rs[1];
    assert dir[68..110] == dir[..110][68..110] == rs[2];
    hide FindRecord, DirRecord;
    RecordStep(dir, 0, name, [0], LBA_ROOT, 2048, 2);
    RecordStep(dir, 34, name, [1], LBA_ROOT, 2048, 2);
    RecordStep(dir, 68, name, ESP_NAME, LBA_ESP, espLength, 0);
    EndOfRecords(dir, 110, name);
  }

  /** The first two records of the root directory are directories, the third is a file. */
  lemma RootFlags(espLength: nat)
    requires espLength < 0x1_0000_0000
    ensures var d := BootIso.RootDir(espLength); d[25] == 2 && d[34 + 25] == 2 && d[68 + 25] == 0
  {
    RecordFields([0], LBA_ROOT, 2048, 2);
    RecordFields([1], LBA_ROOT, 2048, 2);
    NameOfEsp();
    RecordFields(ESP_NAME, LBA_ESP, espLength, 0);
    var rs := RootRecords(espLength);
    hide DirRecord, Ascii;
    assert rs[0] == DirRecord([0], LBA_ROOT, 2048, 2) && rs[1] == DirRecord([1], LBA_ROOT, 2048, 2);
  }

  lemma EndOfRecords(dir: seq<byte>, off: nat, name: seq<byte>)
    requires off < |dir| && dir[off] == 0
    ensures FindRecord(dir, off, name) == None
  {
  }

  lemma PvdField(esp: seq<byte>, k: nat, w: Write)
    requires |esp| < 0x1_0000 * 512
    requires var ws := PvdFields(LBA_PVD * 2048, BootIso.TotalSectors(|esp|)); k < |ws| && w == ws[k]
    requires 16 * 2048 <= w.at && w.End() <= 17 * 2048
    ensures Sector(IsoBytes(esp), 16).Some?
    ensures var s, off := Sector(IsoBytes(esp), 16).value, w.at - 16 * 2048;
      && s[off..off + |w.data|] == w.data
      && (|w.data| >= 2 ==> ReadLe16(s, off) == ReadLe16(w.data, 0))
      && (|w.data| >= 4 ==> ReadLe32(s, off) == ReadLe32(w.data, 0))
      && (|w.data| >= 1 ==> s[off] == w.data[0])
  {
    hide PvdFields, BootRecord, Catalog, RootAndPaths, IsoBytes, BootIso.TotalSectors;
    SectorField(esp, 16, w);
  }

  lemma PvdIdentified(esp: seq<byte>)
    requires |esp| < 0x1_0000 * 512
    ensures var pvd := Sector(IsoBytes(esp), 16); pvd.Some? && IsPvd(pvd.value)
  {
    var ws := PvdFields(LBA_PVD * 2048, BootIso.TotalSectors(|esp|));
    hide IsoBytes, Ascii, Both32, DirRecord, BootIso.TotalSectors, PadText, Both16, Le32, Be32;
    PvdField(esp, 0, ws[0]);
    PvdField(esp, 1, ws[1]);
  }

  lemma PvdSized(esp: seq<byte>)
    requires |esp| < 0x1_0000 * 512
    ensures var pvd := Sector(IsoBytes(esp), 16); pvd.Some? && ReadLe32(pvd.value, 80) == BootIso.TotalSectors(|esp|)
  {
    var total := BootIso.TotalSectors(|esp|);
    var ws := PvdFields(LBA_PVD * 2048, total);
    BothLow(total);
    hide IsoBytes, Ascii, Both32, DirRecord, BootIso.TotalSectors, PadText, Both16, Le32, Be32;
    PvdField(esp, 5, ws[5]);
  }

  lemma PvdRoot(esp: seq<byte>)
    requires |esp| < 0x1_0000 * 512
    ensures var pvd := Sector(IsoBytes(esp), 16); pvd.Some? && pvd.value[156..190] == DirRecord([0], 20, 2048, 2)
  {
    var ws := PvdFields(LBA_PVD * 2048, BootIso.TotalSectors(|esp|));
    hide IsoBytes, Ascii, Both32, DirRecord, BootIso.TotalSectors, PadText, Both16, Le32, Be32;
    PvdField(esp, 12, ws[12]);
  }

  lemma PvdRooted(esp: seq<byte>)
    requires |esp| < 0x1_0000 * 512
    ensures var pvd := Sector(IsoBytes(esp), 16);
      && pvd.Some? && ReadLe32(pvd.value, 158) == LBA_ROOT && ReadLe32(pvd.value, 166) == 2048
      && pvd.value[156..190] == DirRecord([0], 20, 2048, 2)
  {
    PvdRoot(esp);
    RecordFields([0], LBA_ROOT, 2048, 2);
    hide IsoBytes, DirRecord, ReadLe32;
    var pvd, r := Sector(IsoBytes(esp), 16).value, DirRecord([0], 20, 2048, 2);
    ReadWithin(pvd, 156, r, 2);
    ReadWithin(pvd, 156, r, 10);
  }

  lemma BothLow(v: nat)
    requires v < 0x1_0000_0000
    ensures ReadLe32(Both32(v), 0) == v
  {
    assert Both32(v)[0..4] == Le32(v);
    ReadSlice(Both32(v), 0, Le32(v));
  }

  lemma RootBytes(esp: seq<byte>)
    requires |esp| < 0x1_0000 * 512
    ensures var iso, rootAt := IsoBytes(esp), LBA_ROOT * 2048;
      && iso[rootAt..rootAt + 110] == BootIso.RootDir(|esp|) && iso[rootAt + 110] == 0
      && LBA_ESP * 2048 + |esp| <= |iso| && iso[LBA_ESP * 2048..LBA_ESP * 2048 + |esp|] == esp
  {
    ZeroBytes(esp);
    hide IsoBytes, BootIso.RootDir, PathTable;
    SliceAt(esp, RootAndPaths(|esp|)[0]);
    SliceAt(esp, Write(LBA_ESP * 2048, esp));
  }

  lemma ViaRoot(iso: seq<byte>, dir: seq<byte>, name: seq<byte>)
    requires var pvd := Sector(iso, 16);
      pvd.Some? && IsPvd(pvd.value) && ReadLe32(pvd.value, 158) == LBA_ROOT && ReadLe32(pvd.value, 166) == 2048
    requires LBA_ESP * 2048 <= |iso| && dir == iso[LBA_ROOT * 2048..LBA_ROOT * 2048 + 2048]
    ensures ReadRootFile(iso, name) ==
            match FindRecord(dir, 0, name) case None => None case Some(e) => ReadExtent(iso, e)
  {
    hide FindRecord, IsPvd;
  }

  /** The ISO 9660 route reads ESP.IMG;1 as exactly the partition image, and finds no other file. */
  lemma RootFileRead(esp: seq<byte>, name: seq<byte>)
    requires |esp| < 0x1_0000 * 512 && name != [0] && name != [1]
    ensures ReadRootFile(IsoBytes(esp), name) == if name == ESP_NAME then Some(esp) else None
  {
    PvdIdentified(esp);
    PvdRooted(esp);
    RootBytes(esp);
    var iso, rootAt := IsoBytes(esp), LBA_ROOT * 2048;
    hide IsoBytes, IsPvd, BootIso.RootDir, PathTable, Ascii, FindRecord, RootAndPaths, ReadRootFile;
    var dir := iso[rootAt..rootAt + 2048];
    assert dir[..110] == iso[rootAt..rootAt + 110];
    RootListing(dir, |esp|, name);
    ViaRoot(iso, dir, name);
  }

  // ---- the path tables and the descriptor set ----

  lemma IsoNumbers()
    ensures Le32(LBA_PATH_L) == [21, 0, 0, 0] && Be32(LBA_PATH_M) == [0, 0, 0, 22] && Both32(10) == [10, 0, 0, 0, 0, 0, 0, 10]
    ensures Both16(1) == [1, 0, 0, 1] && Both16(2048) == [0, 8, 8, 0]
    ensures PathTable(false) == [1, 0, 20, 0, 0, 0, 1, 0, 0, 0] && PathTable(true) == [1, 0, 0, 0, 0, 20, 0, 1, 0, 0]
  {
  }

  lemma BigEndianOf(s: seq<byte>, at: nat)
    requires at + 4 <= |s|
    ensures BigEndian(s, at, 2) == s[at] as int * 256 + s[at + 1]
    ensures BigEndian(s, at, 4) == ((s[at] as int * 256 + s[at + 1]) * 256 + s[at + 2]) * 256 + s[at + 3]
  {
    assert BigEndian(s, at, 1) == s[at] as int;
    assert BigEndian(s, at, 2) == s[at] as int * 256 + s[at + 1];
    assert BigEndian(s, at, 3) == (s[at] as int * 256 + s[at + 1]) * 256 + s[at + 2];
  }

  lemma TablesRead()
    ensures TableRoot(PathTable(false), false) == Some(20) && TableRoot(PathTable(true), true) == Some(20)
  {
    IsoNumbers();
    hide PathTable, BigEndian;
    BigEndianOf(PathTable(true), 2);
    BigEndianOf(PathTable(true), 6);
  }

  lemma PvdConstants(esp: seq<byte>)
    requires |esp| < 0x1_0000 * 512
    ensures var pvd := Sector(IsoBytes(esp), 16);
      && pvd.Some? && pvd.value[120..124] == [1, 0, 0, 1] && pvd.value[124..128] == [1, 0, 0, 1]
      && pvd.value[128..132] == [0, 8, 8, 0]
  {
    var ws := PvdFields(LBA_PVD * 2048, BootIso.TotalSectors(|esp|));
    IsoNumbers();
    hide IsoBytes, Ascii, Both32, DirRecord, BootIso.TotalSectors, PadText, Both16, Le32, Be32, PathTable;
    PvdField(esp, 6, ws[6]);
    PvdField(esp, 7, ws[7]);
    PvdField(esp, 8, ws[8]);
  }

  lemma PvdPaths(esp: seq<byte>)
    requires |esp| < 0x1_0000 * 512
    ensures var pvd := Sector(IsoBytes(esp), 16);
      && pvd.Some? && pvd.value[132..140] == [10, 0, 0, 0, 0, 0, 0, 10]
      && pvd.value[140..144] == [21, 0, 0, 0] && pvd.value[148..152] == [0, 0, 0, 22]
  {
    var ws := PvdFields(LBA_PVD * 2048, BootIso.TotalSectors(|esp|));
    IsoNumbers();
    hide IsoBytes, Ascii, Both32, DirRecord, BootIso.TotalSectors, PadText, Both16, Le32, Be32, PathTable;
    PvdField(esp, 9, ws[9]);
    PvdField(esp, 10, ws[10]);
    PvdField(esp, 11, ws[11]);
  }

  /** The fields of the primary volume descriptor that locate the path tables, and its constants. */
  lemma PvdNumbers(esp: seq<byte>)
    requires |esp| < 0x1_0000 * 512
    ensures var pvd := Sector(IsoBytes(esp), 16);
      && pvd.Some? && pvd.value[120..124] == [1, 0, 0, 1] && pvd.value[124..128] == [1, 0, 0, 1]
      && pvd.value[128..132] == [0, 8, 8, 0] && pvd.value[132..140] == [10, 0, 0, 0, 0, 0, 0, 10]
      && pvd.value[140..144] == [21, 0, 0, 0] && pvd.value[148..152] == [0, 0, 0, 22]
  {
    hide IsoBytes;
    PvdConstants(esp);
    PvdPaths(esp);
  }

  lemma TableAt(esp: seq<byte>, lba: nat, t: seq<byte>)
    requires |esp| < 0x1_0000 * 512 && Write(lba * 2048, t) in RootAndPaths(|esp|)
    ensures ReadExtent(IsoBytes(esp), Extent(lba, |t|)) == Some(t)
  {
    hide IsoBytes, PvdFields, PvdText, PvdDates, BootRecord, Terminator, Catalog, RootAndPaths, BootIso.TotalSectors;
    SliceAt(esp, Write(lba * 2048, t));
  }

  lemma TableBytes(esp: seq<byte>)
    requires |esp| < 0x1_0000 * 512
    ensures ReadExtent(IsoBytes(esp), Extent(21, 10)) == Some(PathTable(false))
    ensures ReadExtent(IsoBytes(esp), Extent(22, 10)) == Some(PathTable(true))
  {
    hide IsoBytes, PathTable, BootIso.RootDir, ReadExtent;
    TableAt(esp, 21, PathTable(false));
    TableAt(esp, 22, PathTable(true));
  }

  /** A number of a sector, from the bytes of its field. */
  lemma FieldNumbers(s: seq<byte>, at: nat, a: byte, b: byte, c: byte, d: byte)
    requires at + 4 <= |s| && s[at..at + 4] == [a, b, c, d]
    ensures ReadLe32(s, at) == a as int + 256 * (b as int + 256 * (c as int + 256 * (d as int)))
    ensures BigEndian(s, at, 4) == ((a as int * 256 + b) * 256 + c) * 256 + d
  {
    BigEndianOf(s, at);
    var f := s[at..at + 4];
    assert f[0] == s[at] && f[1] == s[at + 1] && f[2] == s[at + 2] && f[3] == s[at + 3];
  }

  lemma ViaTable(iso: seq<byte>, bigEndian: bool, at: nat, t: seq<byte>)
    requires Sector(iso, 16).Some? && IsPvd(Sector(iso, 16).value) && ReadLe32(Sector(iso, 16).value, 132) == 10
    requires at == if bigEndian then BigEndian(Sector(iso, 16).value, 148, 4) else ReadLe32(Sector(iso, 16).value, 140)
    requires ReadExtent(iso, Extent(at, 10)) == Some(t)
    ensures RootByTable(iso, bigEndian) == TableRoot(t, bigEndian)
  {
    hide IsPvd, TableRoot, ReadLe32, BigEndian, ReadExtent, Sector;
  }

  lemma PathFields(pvd: seq<byte>)
    requires |pvd| == 2048 && pvd[132..140] == [10, 0, 0, 0, 0, 0, 0, 10]
    requires pvd[140..144] == [21, 0, 0, 0] && pvd[148..152] == [0, 0, 0, 22]
    ensures ReadLe32(pvd, 132) == 10 && ReadLe32(pvd, 140) == 21 && BigEndian(pvd, 148, 4) == 22
  {
    hide ReadLe32, BigEndian;
    assert pvd[132..136] == pvd[132..140][..4];
    FieldNumbers(pvd, 132, 10, 0, 0, 0);
    FieldNumbers(pvd, 140, 21, 0, 0, 0);
    FieldNumbers(pvd, 148, 0, 0, 0, 22);
  }

  /** Both path tables lead to the root directory. */
  lemma RootByEitherTable(esp: seq<byte>, bigEndian: bool)
    requires |esp| < 0x1_0000 * 512
    ensures RootByTable(IsoBytes(esp), bigEndian) == Some(20)
  {
    PvdIdentified(esp);
    PvdNumbers(esp);
    TablesRead();
    TableBytes(esp);
    var iso := IsoBytes(esp);
    hide IsoBytes, IsPvd, PathTable, TableRoot, ReadLe32, BigEndian, ReadExtent, Sector, RootByTable;
    PathFields(Sector(iso, 16).value);
    ViaTable(iso, bigEndian, if bigEndian then 22 else 21, PathTable(bigEndian));
  }

  lemma DescriptorHeads(esp: seq<byte>)
    requires |esp| < 0x1_0000 * 512
    ensures var iso := IsoBytes(esp);
      && Sector(iso, 16).Some? && IsDescriptor(Sector(iso, 16).value) && Sector(iso, 16).value[0] == 1
      && Sector(iso, 17).Some? && IsDescriptor(Sector(iso, 17).value)
      && Sector(iso, 18).Some? && IsDescriptor(Sector(iso, 18).value) && Sector(iso, 18).value[0] == 255
  {
    PvdHead(esp);
    var br, end := BootRecord(LBA_BOOT * 2048), Terminator(LBA_TERM * 2048);
    hide IsoBytes, Ascii, Le32;
    SectorField(esp, 17, br[0]);
    SectorField(esp, 17, br[1]);
    SectorField(esp, 18, end[0]);
    SectorField(esp, 18, end[1]);
    SectorField(esp, 18, end[2]);
  }

  lemma PvdHead(esp: seq<byte>)
    requires |esp| < 0x1_0000 * 512
    ensures var pvd := Sector(IsoBytes(esp), 16); pvd.Some? && IsDescriptor(pvd.value) && pvd.value[0] == 1
  {
    var ws := PvdFields(LBA_PVD * 2048, BootIso.TotalSectors(|esp|));
    hide IsoBytes, Ascii, Both32, DirRecord, BootIso.TotalSectors, PadText, Both16, Le32, Be32;
    PvdField(esp, 0, ws[0]);
    PvdField(esp, 1, ws[1]);
    PvdField(esp, 2, ws[2]);
  }

  /** A reader of the descriptor set stops at sector 18, after the two descriptors. */
  lemma TerminatorFound(esp: seq<byte>)
    requires |esp| < 0x1_0000 * 512
    ensures FindTerminator(IsoBytes(esp), 16) == Some(18)
  {
    DescriptorHeads(esp);
    BootTypeZero(esp);
    var iso := IsoBytes(esp);
    hide IsoBytes, IsDescriptor, Sector;
    assert FindTerminator(iso, 18) == Some(18);
    assert FindTerminator(iso, 17) == Some(18);
  }

  lemma BootTypeZero(esp: seq<byte>)
    requires |esp| < 0x1_0000 * 512
    ensures Sector(IsoBytes(esp), 17).Some? && Sector(IsoBytes(esp), 17).value[0] == 0
  {
    ZeroBytes(esp);
    hide IsoBytes;
  }

  lemma Padded(s: seq<byte>, at: nat, text: seq<byte>, n: nat)
    requires |text| <= n && at + n <= |s| && s[at..at + n] == PadText(text, n)
    ensures s[at..at + |text|] == text && forall i :: at + |text| <= i < at + n ==> s[i] == 0x20
  {
    var f := s[at..at + n];
    assert s[at..at + |text|] == f[..|text|];
    assert forall i :: at <= i < at + n ==> s[i] == f[i - at];
  }

  lemma PvdNames(esp: seq<byte>)
    requires |esp| < 0x1_0000 * 512
    ensures var pvd := Sector(IsoBytes(esp), 16);
      && pvd.Some? && pvd.value[40..49] == Ascii("IPXE_BOOT")
      && forall i :: 8 <= i < 40 || 49 <= i < 72 ==> pvd.value[i] == 0x20
  {
    var ws := PvdFields(LBA_PVD * 2048, BootIso.TotalSectors(|esp|));
    assert |Ascii("IPXE_BOOT")| == 9;
    hide IsoBytes, Ascii, Both32, DirRecord, BootIso.TotalSectors, PadText, Both16, Le32, Be32;
    PvdField(esp, 3, ws[3]);
    PvdField(esp, 4, ws[4]);
    var pvd := Sector(IsoBytes(esp), 16).value;
    Padded(pvd, 8, [], 32);
    Padded(pvd, 40, Ascii("IPXE_BOOT"), 32);
  }

  lemma BlankField(esp: seq<byte>, at: nat, n: nat)
    requires |esp| < 0x1_0000 * 512 && at + n <= 2048
    requires Write(LBA_PVD * 2048 + at, PadText([], n)) in PvdText(LBA_PVD * 2048)
    ensures Sector(IsoBytes(esp), 16).Some? && forall i :: at <= i < at + n ==> Sector(IsoBytes(esp), 16).value[i] == 0x20
  {
    hide IsoBytes, PvdText, PadText, PvdFields, PvdDates, BootRecord, Terminator, Catalog, RootAndPaths, BootIso.TotalSectors;
    SectorField(esp, 16, Write(LBA_PVD * 2048 + at, PadText([], n)));
    Padded(Sector(IsoBytes(esp), 16).value, at, [], n);
  }

  lemma PvdBlanks(esp: seq<byte>)
    requires |esp| < 0x1_0000 * 512
    ensures var pvd := Sector(IsoBytes(esp), 16); pvd.Some? && forall i :: 190 <= i < 813 ==> pvd.value[i] == 0x20
  {
    hide IsoBytes, PadText;
    BlankField(esp, 190, 128);
    BlankField(esp, 318, 128);
    BlankField(esp, 446, 128);
    BlankField(esp, 574, 128);
    BlankField(esp, 702, 37);
    BlankField(esp, 739, 37);
    BlankField(esp, 776, 37);
  }

  lemma DateBytes()
    ensures Date(false) == [50, 48, 48, 48, 48, 49, 48, 49, 48, 48, 48, 48, 48, 48, 48, 48, 0]
    ensures Date(true) == [48, 48, 48, 48, 48, 48, 48, 48, 48, 48, 48, 48, 48, 48, 48, 48, 0]
  {
  }

  lemma DateField(esp: seq<byte>, at: nat, unset: bool)
    requires |esp| < 0x1_0000 * 512 && at + 17 <= 2048
    requires Write(LBA_PVD * 2048 + at, Date(unset)) in PvdDates(LBA_PVD * 2048)
    ensures Sector(IsoBytes(esp), 16).Some? && Sector(IsoBytes(esp), 16).value[at..at + 17] == Date(unset)
  {
    hide IsoBytes, PvdText, Date, PvdFields, PvdDates, BootRecord, Terminator, Catalog, RootAndPaths, BootIso.TotalSectors;
    SectorField(esp, 16, Write(LBA_PVD * 2048 + at, Date(unset)));
  }

  lemma PvdStamps(esp: seq<byte>)
    requires |esp| < 0x1_0000 * 512
    ensures var pvd := Sector(IsoBytes(esp), 16);
      && pvd.Some? && pvd.value[813..830] == Date(false) && pvd.value[830..847] == Date(false)
      && pvd.value[847..864] == Date(true) && pvd.value[864..881] == Date(false) && pvd.value[881] == 1
  {
    var ws := PvdDates(LBA_PVD * 2048);
    hide IsoBytes, Date, PvdFields, PvdText, BootRecord, Terminator, Catalog, RootAndPaths, BootIso.TotalSectors;
    DateField(esp, 813, false);
    DateField(esp, 830, false);
    DateField(esp, 847, true);
    DateField(esp, 864, false);
    SectorField(esp, 16, ws[4]);
  }

  // ---- the boot ISO of a node ----

  /** For every accepted input: the El Torito route leads to a FAT12 volume from which an
      independent reader recovers exactly the EFI binary and the script, and the ISO 9660
      route reads the partition image as ESP.IMG;1. */
  lemma BootIsoRoundTrip(efi: seq<byte>, script: seq<byte>)
    requires BootIso.Accepts(efi, script)
    ensures var b := BootImage(BootIsoBytes(efi, script));
      && b.Some?
      && FatReader.ReadFile(b.value, EspTheorems.BOOT_PATH) == Some(efi)
      && FatReader.ReadFile(b.value, [Esp.AUTOEXEC]) == Some(script)
    ensures ReadRootFile(BootIsoBytes(efi, script), ESP_NAME) == Some(Esp.EspBytes(efi, script))
  {
    BootIso.NothingTruncates(efi, script);
    var esp := Esp.EspBytes(efi, script);
    BootImageRead(esp);
    hide IsoBytes, BootImage, Esp.EspBytes, Ascii, ReadRootFile, FatReader.ReadFile;
    EspTheorems.EspRoundTrip(BootImage(IsoBytes(esp)).value, efi, script);
    NameOfEsp();
    RootFileRead(esp, ESP_NAME);
  }

  /** Different inputs make different images. */
  lemma IsoInjective(efi: seq<byte>, script: seq<byte>, efi2: seq<byte>, script2: seq<byte>)
    requires BootIso.Accepts(efi, script) && BootIso.Accepts(efi2, script2)
    requires BootIsoBytes(efi, script) == BootIsoBytes(efi2, script2)
    ensures efi == efi2 && script == script2
  {
    hide BootIso.Accepts, BootIsoBytes, BootImage, FatReader.ReadFile, ReadRootFile, Esp.EspBytes;
    BootIsoRoundTrip(efi, script);
    BootIsoRoundTrip(efi2, script2);
  }

  lemma NameOfEsp()
    ensures |ESP_NAME| == 9
  {
  }

  /** The sizes a reader finds are exact: the announced volume size is the image size,
      and the catalogue's count of 512-byte units is the size of the partition image. */
  lemma SizesExact(efi: seq<byte>, script: seq<byte>)
    requires BootIso.Accepts(efi, script)
    ensures var iso, esp := BootIsoBytes(efi, script), Esp.EspBytes(efi, script);
      && VolumeSectors(iso).Some? && VolumeSectors(iso).value * 2048 == |iso|
      && ReadBootEntry(iso).Some? && ReadBootEntry(iso).value.units * 512 == |esp|
  {
    BootIso.NothingTruncates(efi, script);
    var esp := Esp.EspBytes(efi, script);
    PvdSized(esp);
    BootEntryRead(esp);
    hide Esp.EspBytes, ReadBootEntry, IsPvd;
  }

  /** Both halves of a both-byte-order field hold the same number (ECMA-119 section 7.3.3). */
  lemma BothOrdersAgree(v: nat)
    requires v < 0x1_0000_0000
    ensures var r := Both32(v);
      ReadLe32(r, 0) == v == ((r[4] as int * 256 + r[5]) * 256 + r[6]) * 256 + r[7]
  {
    BothLow(v);
    var hi, lo := v / 0x1_0000, v % 0x1_0000;
    assert Both32(v)[4..] == Be16(hi) + Be16(lo);
    assert Be16(hi)[0] as int * 256 + Be16(hi)[1] == hi && Be16(lo)[0] as int * 256 + Be16(lo)[1] == lo;
  }
}
