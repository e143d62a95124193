/** The UEFI boot ISO: an ISO 9660 image whose El Torito catalogue points at the
    FAT12 EFI System Partition image (ECMA-119 sections 8.2, 8.4, 9.1 and 9.4; the
    El Torito specification, sections 2.1 and 2.2). */
module BootIso {
  import opened Bytes
  import opened Wrappers
  import opened FatNames
  import Esp = EspImage

  const SECTOR := 2048
  const LBA_PVD := 16
  const LBA_BOOT := 17
  const LBA_TERM := 18
  const LBA_CATALOG := 19
  const LBA_ROOT := 20
  const LBA_PATH_L := 21
  const LBA_PATH_M := 22
  const LBA_ESP := 23

  // ---- field encodings ----

  function Both16(v: nat): (r: seq<byte>)
    requires v < 0x1_0000
    ensures |r| == 4
  {
    Le16(v) + Be16(v)
  }

  function Both32(v: nat): (r: seq<byte>)
    requires v < 0x1_0000_0000
    ensures |r| == 8
  {
    Le32(v) + Be32(v)
  }

  /** Text padded with spaces to n bytes. */
  function PadText(s: seq<byte>, n: nat): (r: seq<byte>)
    requires |s| <= n
    ensures |r| == n
  {
    s + Spaces(n - |s|)
  }

  function RecordLength(idLength: nat): (n: nat)
    ensures n % 2 == 0 && 33 + idLength <= n <= 34 + idLength
  {
    33 + idLength + (33 + idLength) % 2
  }

  /** A directory record (ECMA-119 section 9.1). */
  function DirRecord(id: seq<byte>, extent: nat, size: nat, flags: byte): (r: seq<byte>)
    requires extent < 0x1_0000_0000 && size < 0x1_0000_0000
    ensures |r| == RecordLength(|id|)
  {
    [RecordLength(|id|) % 256, 0] + Both32(extent) + Both32(size) + [100, 1, 1, 0, 0, 0, 0] + [flags, 0, 0]
    + Both16(1) + [|id| % 256] + id + Zeros(RecordLength(|id|) - 33 - |id|)
  }

  function Date(unset: bool): (r: seq<byte>)
    ensures |r| == 17
  {
    Ascii(if unset then "0000000000000000" else "2000010100000000") + [0]
  }

  function PathTable(bigEndian: bool): (r: seq<byte>)
    ensures |r| == 10
  {
    [1, 0] + (if bigEndian then Be32(LBA_ROOT) + Be16(1) else Le32(LBA_ROOT) + Le16(1)) + [0, 0]
  }

  // ---- the validation entry ----

  /** Sum of the first n little-endian words of s. */
  function WordSum(s: seq<byte>, n: nat): (sum: nat)
    requires 2 * n <= |s|
  {
    if n == 0 then 0 else WordSum(s, n - 1) + ReadLe16(s, 2 * (n - 1))
  }

  /** Go's -sum for a uint16. */
  function Negate(sum: nat): (r: nat)
    ensures r < 0x1_0000 && (sum + r) % 0x1_0000 == 0
  {
    (0x1_0000 - sum % 0x1_0000) % 0x1_0000
  }

  /** The entry before its checksum is filled in. */
  function UnsignedEntry(): (e: seq<byte>)
    ensures |e| == 32 && ReadLe16(e, 28) == 0
  {
    [1, 0xEF, 0, 0] + Ascii("IPXE UEFI BOOT") + Zeros(12) + [0x55, 0xAA]
  }

  function ValidationEntry(): (e: seq<byte>)
    ensures |e| == 32
  {
    Overwrite(UnsignedEntry(), 28, Le16(Negate(WordSum(UnsignedEntry(), 16))))
  }

  lemma {:induction false} WordSumReplace(s: seq<byte>, k: nat, v: nat, n: nat)
    requires v < 0x1_0000 && k < n && 2 * n <= |s| && ReadLe16(s, 2 * k) == 0
    ensures WordSum(Overwrite(s, 2 * k, Le16(v)), n) == WordSum(s, n) + v
  {
    var t := Overwrite(s, 2 * k, Le16(v));
    if k < n - 1 {
      WordSumReplace(s, k, v, n - 1);
      assert t[2 * n - 2] == s[2 * n - 2] && t[2 * n - 1] == s[2 * n - 1];
    } else {
      WordSumBefore(s, t, k);
      assert t[2 * k..2 * k + 2] == Le16(v);
      ReadSlice(t, 2 * k, Le16(v));
    }
  }

  lemma {:induction false} WordSumBefore(s: seq<byte>, t: seq<byte>, n: nat)
    requires 2 * n <= |s| && 2 * n <= |t| && s[..2 * n] == t[..2 * n]
    ensures WordSum(s, n) == WordSum(t, n)
  {
    if n > 0 {
      assert s[..2 * (n - 1)] == s[..2 * n][..2 * (n - 1)] && t[..2 * (n - 1)] == t[..2 * n][..2 * (n - 1)];
      WordSumBefore(s, t, n - 1);
      assert s[2 * n - 2] == s[..2 * n][2 * n - 2] && s[2 * n - 1] == s[..2 * n][2 * n - 1];
      assert t[2 * n - 2] == t[..2 * n][2 * n - 2] && t[2 * n - 1] == t[..2 * n][2 * n - 1];
    }
  }

  /** The sixteen words of the validation entry sum to zero, as El Torito section 2.1 asks. */
  lemma ValidationSumsToZero()
    ensures WordSum(ValidationEntry(), 16) % 0x1_0000 == 0
  {
    hide UnsignedEntry, WordSum;
    WordSumReplace(UnsignedEntry(), 14, Negate(WordSum(UnsignedEntry(), 16)), 16);
  }

  // ---- the image ----

  /** Primary volume descriptor, up to the root directory record. */
  function PvdFields(b: nat, total: nat): (ws: seq<Write>)
    requires total < 0x1_0000_0000
  {
    [Write(b, [1]), Write(b + 1, Ascii("CD001")), Write(b + 6, [1]),
     Write(b + 8, PadText([], 32)), Write(b + 40, PadText(Ascii("IPXE_BOOT"), 32)),
     Write(b + 80, Both32(total)), Write(b + 120, Both16(1)), Write(b + 124, Both16(1)), Write(b + 128, Both16(SECTOR)),
     Write(b + 132, Both32(10)), Write(b + 140, Le32(LBA_PATH_L)), Write(b + 148, Be32(LBA_PATH_M)),
     Write(b + 156, DirRecord([0], LBA_ROOT, SECTOR, 2))]
  }

  /** The identifiers of the primary volume descriptor, all blank. */
  function PvdText(b: nat): (ws: seq<Write>) {
    [Write(b + 190, PadText([], 128)), Write(b + 318, PadText([], 128)), Write(b + 446, PadText([], 128)),
     Write(b + 574, PadText([], 128)), Write(b + 702, PadText([], 37)), Write(b + 739, PadText([], 37)),
     Write(b + 776, PadText([], 37))]
  }

  /** The dates and the structure version of the primary volume descriptor. */
  function PvdDates(b: nat): (ws: seq<Write>) {
    [Write(b + 813, Date(false)), Write(b + 830, Date(false)), Write(b + 847, Date(true)), Write(b + 864, Date(false)),
     Write(b + 881, [1])]
  }

  function BootRecord(b: nat): (ws: seq<Write>) {
    [Write(b + 1, Ascii("CD001")), Write(b + 6, [1]), Write(b + 7, Ascii("EL TORITO SPECIFICATION")),
     Write(b + 71, Le32(LBA_CATALOG))]
  }

  function Terminator(b: nat): (ws: seq<Write>) {
    [Write(b, [255]), Write(b + 1, Ascii("CD001")), Write(b + 6, [1])]
  }

  function Catalog(b: nat, espUnits: nat): (ws: seq<Write>)
    requires espUnits < 0x1_0000
  {
    [Write(b, ValidationEntry()), Write(b + 32, [0x88]), Write(b + 38, Le16(espUnits)), Write(b + 40, Le32(LBA_ESP))]
  }

  const ESP_NAME: seq<byte> := Ascii("ESP.IMG;1")

  function RootRecords(espLength: nat): (rs: seq<seq<byte>>)
    requires espLength < 0x1_0000_0000
    ensures |rs| == 3 && |rs[0]| == 34 && |rs[1]| == 34 && |rs[2]| == 42
  {
    [DirRecord([0], LBA_ROOT, SECTOR, 2), DirRecord([1], LBA_ROOT, SECTOR, 2), DirRecord(ESP_NAME, LBA_ESP, espLength, 0)]
  }

  function RootDir(espLength: nat): (d: seq<byte>)
    requires espLength < 0x1_0000_0000
    ensures |d| == 110
  {
    var rs := RootRecords(espLength);
    rs[0] + rs[1] + rs[2]
  }

  function RootAndPaths(espLength: nat): (ws: seq<Write>)
    requires espLength < 0x1_0000_0000
  {
    [Write(LBA_ROOT * SECTOR, RootDir(espLength)), Write(LBA_PATH_L * SECTOR, PathTable(false)),
     Write(LBA_PATH_M * SECTOR, PathTable(true))]
  }

  function TotalSectors(espLength: nat): nat {
    LBA_ESP + (espLength + SECTOR - 1) / SECTOR
  }

  function IsoWrites(esp: seq<byte>): (ws: seq<Write>)
    requires |esp| < 0x1_0000 * 512
  {
    PvdFields(LBA_PVD * SECTOR, TotalSectors(|esp|)) + PvdText(LBA_PVD * SECTOR) + PvdDates(LBA_PVD * SECTOR)
    + BootRecord(LBA_BOOT * SECTOR) + Terminator(LBA_TERM * SECTOR) + Catalog(LBA_CATALOG * SECTOR, |esp| / 512) + RootAndPaths(|esp|)
    + [Write(LBA_ESP * SECTOR, esp)]
  }

  lemma SectorsOrdered(total: nat, espUnits: nat, espLength: nat)
    requires total < 0x1_0000_0000 && espUnits < 0x1_0000 && espLength < 0x1_0000_0000
    ensures Spans(PvdFields(LBA_PVD * SECTOR, total), 0, LBA_PVD * SECTOR + 190)
    ensures Spans(PvdText(LBA_PVD * SECTOR), LBA_PVD * SECTOR + 190, LBA_PVD * SECTOR + 813)
    ensures Spans(PvdDates(LBA_PVD * SECTOR), LBA_PVD * SECTOR + 813, LBA_BOOT * SECTOR)
    ensures Spans(BootRecord(LBA_BOOT * SECTOR), LBA_BOOT * SECTOR, LBA_TERM * SECTOR)
    ensures Spans(Terminator(LBA_TERM * SECTOR), LBA_TERM * SECTOR, LBA_CATALOG * SECTOR)
    ensures Spans(Catalog(LBA_CATALOG * SECTOR, espUnits), LBA_CATALOG * SECTOR, LBA_ROOT * SECTOR)
    ensures Spans(RootAndPaths(espLength), LBA_ROOT * SECTOR, LBA_ESP * SECTOR)
  {
    hide Both16, Both32, PadText, DirRecord, Date, PathTable, RootDir, ValidationEntry, Le32, Be32, Le16;
    PvdFieldsOrdered(LBA_PVD * SECTOR, total);
    PvdTextOrdered(LBA_PVD * SECTOR);
  }

  lemma PvdFieldsOrdered(b: nat, total: nat)
    requires total < 0x1_0000_0000
    ensures Spans(PvdFields(b, total), b, b + 190)
  {
    hide Both16, Both32, PadText, DirRecord, Le32, Be32, Ascii;
  }

  lemma PvdTextOrdered(b: nat)
    ensures Spans(PvdText(b), b + 190, b + 813) && Spans(PvdDates(b), b + 813, b + SECTOR)
  {
    hide PadText, Date;
  }

  /** The descriptors, the catalogue, the root directory, the path tables and the
      partition image occupy disjoint ranges in address order, all inside the image. */
  lemma RegionsDisjoint(esp: seq<byte>)
    requires |esp| < 0x1_0000 * 512
    ensures Spans(IsoWrites(esp), 0, TotalSectors(|esp|) * SECTOR)
  {
    SectorsOrdered(TotalSectors(|esp|), |esp| / 512, |esp|);
    SpansOne(Write(LBA_ESP * SECTOR, esp), LBA_ESP * SECTOR, TotalSectors(|esp|) * SECTOR);
    hide Spans, PvdFields, PvdText, PvdDates, BootRecord, Terminator, Catalog, RootAndPaths;
    var ws := PvdFields(LBA_PVD * SECTOR, TotalSectors(|esp|));
    SpansConcat(ws, PvdText(LBA_PVD * SECTOR), 0, LBA_PVD * SECTOR + 190, LBA_PVD * SECTOR + 813);
    ws := ws + PvdText(LBA_PVD * SECTOR);
    SpansConcat(ws, PvdDates(LBA_PVD * SECTOR), 0, LBA_PVD * SECTOR + 813, LBA_BOOT * SECTOR);
    ws := ws + PvdDates(LBA_PVD * SECTOR);
    SpansConcat(ws, BootRecord(LBA_BOOT * SECTOR), 0, LBA_BOOT * SECTOR, LBA_TERM * SECTOR);
    ws := ws + BootRecord(LBA_BOOT * SECTOR);
    SpansConcat(ws, Terminator(LBA_TERM * SECTOR), 0, LBA_TERM * SECTOR, LBA_CATALOG * SECTOR);
    ws := ws + Terminator(LBA_TERM * SECTOR);
    SpansConcat(ws, Catalog(LBA_CATALOG * SECTOR, |esp| / 512), 0, LBA_CATALOG * SECTOR, LBA_ROOT * SECTOR);
    ws := ws + Catalog(LBA_CATALOG * SECTOR, |esp| / 512);
    SpansConcat(ws, RootAndPaths(|esp|), 0, LBA_ROOT * SECTOR, LBA_ESP * SECTOR);
    ws := ws + RootAndPaths(|esp|);
    SpansConcat(ws, [Write(LBA_ESP * SECTOR, esp)], 0, LBA_ESP * SECTOR, TotalSectors(|esp|) * SECTOR);
  }

  /** The image: zeros overwritten by IsoWrites. */
  ghost function IsoBytes(esp: seq<byte>): (img: seq<byte>)
    requires |esp| < 0x1_0000 * 512
    ensures |img| == TotalSectors(|esp|) * SECTOR
  {
    RegionsDisjoint(esp);
    Apply(IsoWrites(esp), Zeros(TotalSectors(|esp|) * SECTOR))
  }

  // ---- construction in place ----

  /** Fills n bytes with spaces and copies the text over them. */
  method PutText(img: array<byte>, at: nat, n: nat, s: seq<byte>, ghost ws: seq<Write>) returns (ghost ws': seq<Write>)
    requires Holds(img, ws) && |s| <= n && at + n <= img.Length
    modifies img
    ensures ws' == ws + [Write(at, PadText(s, n))] && Holds(img, ws')
  {
    ghost var _ := Put(img, at, Spaces(n), ws);
    ghost var t := PutInside(img, at, at, s, ws, Spaces(n));
    assert t == PadText(s, n);
    ws' := ws + [Write(at, PadText(s, n))];
  }

  method PutPvdFields(img: array<byte>, b: nat, total: nat, ghost ws: seq<Write>) returns (ghost ws': seq<Write>)
    requires Holds(img, ws) && b + SECTOR <= img.Length
    modifies img
    ensures ws' == ws + PvdFields(b, U32(total)) && Holds(img, ws')
  {
    hide Holds, Ascii, Both16, Both32, PadText, DirRecord, Le32, Be32, PathTable, U32;
    var pathTable := PathTable(false);
    ws' := Put(img, b, [1], ws);
    ws' := Put(img, b + 1, Ascii("CD001"), ws');
    ws' := Put(img, b + 6, [1], ws');
    ws' := PutText(img, b + 8, 32, [], ws');
    ws' := PutText(img, b + 40, 32, Ascii("IPXE_BOOT"), ws');
    ws' := Put(img, b + 80, Both32(U32(total)), ws');
    ws' := Put(img, b + 120, Both16(1), ws');
    ws' := Put(img, b + 124, Both16(1), ws');
    ws' := Put(img, b + 128, Both16(SECTOR), ws');
    ws' := Put(img, b + 132, Both32(|pathTable|), ws');
    ws' := Put(img, b + 140, Le32(LBA_PATH_L), ws');
    ws' := Put(img, b + 148, Be32(LBA_PATH_M), ws');
    ws' := Put(img, b + 156, DirRecord([0], LBA_ROOT, SECTOR, 2), ws');
  }

  method PutPvdText(img: array<byte>, b: nat, ghost ws: seq<Write>) returns (ghost ws': seq<Write>)
    requires Holds(img, ws) && b + SECTOR <= img.Length
    modifies img
    ensures ws' == ws + PvdText(b) && Holds(img, ws')
  {
    hide Holds, PadText;
    ws' := PutText(img, b + 190, 128, [], ws);
    ws' := PutText(img, b + 318, 128, [], ws');
    ws' := PutText(img, b + 446, 128, [], ws');
    ws' := PutText(img, b + 574, 128, [], ws');
    ws' := PutText(img, b + 702, 37, [], ws');
    ws' := PutText(img, b + 739, 37, [], ws');
    ws' := PutText(img, b + 776, 37, [], ws');
  }

  method PutPvdDates(img: array<byte>, b: nat, ghost ws: seq<Write>) returns (ghost ws': seq<Write>)
    requires Holds(img, ws) && b + SECTOR <= img.Length
    modifies img
    ensures ws' == ws + PvdDates(b) && Holds(img, ws')
  {
    hide Holds, Date;
    ws' := Put(img, b + 813, Date(false), ws);
    ws' := Put(img, b + 830, Date(false), ws');
    ws' := Put(img, b + 847, Date(true), ws');
    ws' := Put(img, b + 864, Date(false), ws');
    ws' := Put(img, b + 881, [1], ws');
  }

  method PutBootAndTerminator(img: array<byte>, b: nat, ghost ws: seq<Write>) returns (ghost ws': seq<Write>)
    requires Holds(img, ws) && b + 2 * SECTOR <= img.Length
    modifies img
    ensures ws' == ws + BootRecord(b) + Terminator(b + SECTOR) && Holds(img, ws')
  {
    hide Holds, Ascii, Le32;
    ws' := Put(img, b + 1, Ascii("CD001"), ws);
    ws' := Put(img, b + 6, [1], ws');
    ws' := Put(img, b + 7, Ascii("EL TORITO SPECIFICATION"), ws');
    ws' := Put(img, b + 71, Le32(LBA_CATALOG), ws');
    ws' := Put(img, b + SECTOR, [255], ws');
    ws' := Put(img, b + SECTOR + 1, Ascii("CD001"), ws');
    ws' := Put(img, b + SECTOR + 6, [1], ws');
  }

  lemma AddMod(x: nat, y: nat)
    ensures (x % 0x1_0000 + y) % 0x1_0000 == (x + y) % 0x1_0000
  {
  }

  /** The checksum loop over the 32 bytes at b. */
  method SumWords(img: array<byte>, b: nat) returns (sum: nat)
    requires b + 32 <= img.Length
    ensures sum < 0x1_0000 && sum == WordSum(img[b..b + 32], 16) % 0x1_0000
  {
    ghost var e := img[b..b + 32];
    ghost var n := 0;
    sum := 0;
    var i := 0;
    while i < 32
      invariant 0 <= i <= 32 && i == 2 * n
      invariant sum == WordSum(e, n) % 0x1_0000
    {
      var word := img[b + i] as int + 256 * (img[b + i + 1] as int);
      assert word == ReadLe16(e, i);
      AddMod(WordSum(e, n), word);
      sum := (sum + word) % 0x1_0000;
      n := n + 1;
      i := i + 2;
    }
  }

  lemma EntrySteps()
    ensures Overwrite(Overwrite(Overwrite(Overwrite(Zeros(32), 0, [1]), 1, [0xEF]), 4, Ascii("IPXE UEFI BOOT")), 30, [0x55, 0xAA])
            == UnsignedEntry()
  {
    var name := Ascii("IPXE UEFI BOOT");
    assert Overwrite(Zeros(32), 0, [1]) == [1] + Zeros(31);
    assert Overwrite([1] + Zeros(31), 1, [0xEF]) == [1, 0xEF, 0, 0] + Zeros(28);
    assert Overwrite([1, 0xEF, 0, 0] + Zeros(28), 4, name) == [1, 0xEF, 0, 0] + name + Zeros(14);
    assert Overwrite([1, 0xEF, 0, 0] + name + Zeros(14), 30, [0x55, 0xAA])
        == [1, 0xEF, 0, 0] + name + Zeros(12) + [0x55, 0xAA];
  }

  lemma NegateMod(sum: nat)
    ensures Negate(sum % 0x1_0000) == Negate(sum)
  {
  }

  /** Writes the validation entry; its checksum is computed from the bytes already there. */
  method PutValidation(img: array<byte>, b: nat, ghost ws: seq<Write>) returns (ghost ws': seq<Write>)
    requires Holds(img, ws) && Spans(ws, 0, b) && b + SECTOR <= img.Length
    modifies img
    ensures ws' == ws + [Write(b, ValidationEntry())] && Holds(img, ws')
  {
    OpenWindow(img, ws, b, 32);
    hide Window, Spans, Overwrite, Ascii, UnsignedEntry, WordSum;
    ghost var t := PutInside(img, b, b, [1], ws, Zeros(32));
    t := PutInside(img, b, b + 1, [0xEF], ws, t);
    t := PutInside(img, b, b + 4, Ascii("IPXE UEFI BOOT"), ws, t);
    t := PutInside(img, b, b + 30, [0x55, 0xAA], ws, t);
    EntrySteps();
    WindowBytes(img, ws, b, t);
    var sum := SumWords(img, b);
    NegateMod(WordSum(t, 16));
    t := PutInside(img, b, b + 28, Le16(Negate(sum)), ws, t);
    ws' := CloseWindow(img, ws, b, t);
  }

  ghost method CloseWindow(img: array<byte>, ws: seq<Write>, lo: nat, t: seq<byte>) returns (ws': seq<Write>)
    requires Window(img, ws, lo, t)
    ensures ws' == ws + [Write(lo, t)] && Holds(img, ws')
  {
    ws' := ws + [Write(lo, t)];
  }

  method PutCatalog(img: array<byte>, b: nat, espLength: nat, ghost ws: seq<Write>) returns (ghost ws': seq<Write>)
    requires Holds(img, ws) && Spans(ws, 0, b) && b + SECTOR <= img.Length
    modifies img
    ensures ws' == ws + Catalog(b, U16(espLength / 512)) && Holds(img, ws')
  {
    hide Holds, Spans, ValidationEntry, Le16, Le32, U16;
    ws' := PutValidation(img, b, ws);
    ws' := Put(img, b + 32, [0x88], ws');
    ws' := Put(img, b + 38, Le16(U16(espLength / 512)), ws');
    ws' := Put(img, b + 40, Le32(LBA_ESP), ws');
  }

  method PutRootAndPaths(img: array<byte>, espLength: nat, ghost ws: seq<Write>) returns (ghost ws': seq<Write>)
    requires Holds(img, ws) && LBA_ESP * SECTOR <= img.Length
    modifies img
    ensures ws' == ws + RootAndPaths(U32(espLength)) && Holds(img, ws')
  {
    var rs := RootRecords(U32(espLength));
    Esp.FlattenThree(rs[0], rs[1], rs[2]);
    hide Holds, PathTable, RootRecords;
    ws' := PutRecords(img, LBA_ROOT * SECTOR, [rs[0], rs[1], rs[2]], ws);
    ws' := Put(img, LBA_PATH_L * SECTOR, PathTable(false), ws');
    ws' := Put(img, LBA_PATH_M * SECTOR, PathTable(true), ws');
  }

  method PutIso(img: array<byte>, esp: seq<byte>) returns (ghost ws: seq<Write>)
    requires |esp| < 0x1_0000 * 512 && img.Length == TotalSectors(|esp|) * SECTOR && Holds(img, [])
    modifies img
    ensures ws == IsoWrites(esp) && Holds(img, ws)
  {
    hide Holds, Spans, PvdFields, PvdText, PvdDates, BootRecord, Terminator, Catalog, RootAndPaths;
    ws := PutPvdFields(img, LBA_PVD * SECTOR, TotalSectors(|esp|), []);
    ws := PutPvdText(img, LBA_PVD * SECTOR, ws);
    ws := PutPvdDates(img, LBA_PVD * SECTOR, ws);
    ws := PutBootAndTerminator(img, LBA_BOOT * SECTOR, ws);
    HeadOrdered(TotalSectors(|esp|), |esp|);
    ws := PutCatalog(img, LBA_CATALOG * SECTOR, |esp|, ws);
    ws := PutRootAndPaths(img, |esp|, ws);
    ws := Put(img, LBA_ESP * SECTOR, esp, ws);
  }

  /** Nothing has been written to the catalogue sector before it is its turn. */
  lemma HeadOrdered(total: nat, espLength: nat)
    requires total < 0x1_0000_0000 && espLength < 0x1_0000 * 512
    ensures Spans([] + PvdFields(LBA_PVD * SECTOR, total) + PvdText(LBA_PVD * SECTOR) + PvdDates(LBA_PVD * SECTOR)
                  + BootRecord(LBA_BOOT * SECTOR) + Terminator(LBA_BOOT * SECTOR + SECTOR), 0, LBA_CATALOG * SECTOR)
  {
    SectorsOrdered(total, espLength / 512, espLength);
    hide Spans, PvdFields, PvdText, PvdDates, BootRecord, Terminator, Catalog, RootAndPaths;
    var ws := PvdFields(LBA_PVD * SECTOR, total);
    SpansConcat(ws, PvdText(LBA_PVD * SECTOR), 0, LBA_PVD * SECTOR + 190, LBA_PVD * SECTOR + 813);
    ws := ws + PvdText(LBA_PVD * SECTOR);
    SpansConcat(ws, PvdDates(LBA_PVD * SECTOR), 0, LBA_PVD * SECTOR + 813, LBA_BOOT * SECTOR);
    ws := ws + PvdDates(LBA_PVD * SECTOR);
    SpansConcat(ws, BootRecord(LBA_BOOT * SECTOR), 0, LBA_BOOT * SECTOR, LBA_TERM * SECTOR);
    ws := ws + BootRecord(LBA_BOOT * SECTOR);
    SpansConcat(ws, Terminator(LBA_TERM * SECTOR), 0, LBA_TERM * SECTOR, LBA_CATALOG * SECTOR);
    assert [] + PvdFields(LBA_PVD * SECTOR, total) == PvdFields(LBA_PVD * SECTOR, total);
  }

  /** What buildBootISO accepts. */
  predicate Accepts(efi: seq<byte>, script: seq<byte>) {
    |efi| > 0 && Esp.Accepts(efi, script)
  }

  /** No field of the ISO truncates. */
  lemma NothingTruncates(efi: seq<byte>, script: seq<byte>)
    requires Accepts(efi, script)
    ensures Esp.EspLength(efi, script) < 0x1_0000 * 512
    ensures Esp.EspLength(efi, script) % 512 == 0
  {
    Esp.NothingTruncates(efi, script);
  }

  ghost function BootIsoBytes(efi: seq<byte>, script: seq<byte>): (iso: seq<byte>)
    requires Accepts(efi, script)
  {
    NothingTruncates(efi, script);
    IsoBytes(Esp.EspBytes(efi, script))
  }

  /** Builds the ISO, or refuses exactly what Accepts refuses. */
  method BuildBootIso(efi: seq<byte>, script: seq<byte>) returns (r: Result<seq<byte>>)
    ensures r.Ok? <==> Accepts(efi, script)
    ensures r.Ok? ==> r.value == BootIsoBytes(efi, script)
  {
    if |efi| == 0 {
      return Err("empty iPXE EFI binary");
    }
    var built := Esp.BuildEspImage(efi, script);
    if built.Err? {
      return built;
    }
    var esp := built.value;
    NothingTruncates(efi, script);
    var img := new byte[TotalSectors(|esp|) * SECTOR](_ => 0);
    assert img[..] == Zeros(img.Length);
    hide Esp.EspBytes;
    ghost var ws := PutIso(img, esp);
    r := Ok(img[..]);
  }
}
