/** The FAT12 EFI System Partition image: layout and in-place construction. */
module EspImage {
  import opened Bytes
  import opened Wrappers
  import opened FatNames
  import Fat12

  const SECTOR := 512
  const CLUSTER := 2048
  const ROOT_ENTRIES := 512
  const ROOT_SECTORS := 32
  const MAX_CLUSTERS := 4084

  const EFI_DIR := 2
  const BOOT_DIR := 3
  const EFI_FIRST := 4

  // ---- geometry ----

  function ChainLen(n: nat): (c: nat)
    ensures c >= 1 && n <= c * CLUSTER
    ensures c == 1 || (c - 1) * CLUSTER < n
  {
    var c := (n + CLUSTER - 1) / CLUSTER;
    if c == 0 then 1 else c
  }

  datatype Geometry = Geometry(efiClusters: nat, scriptClusters: nat) {
    function ScriptFirst(): nat { EFI_FIRST + efiClusters }

    function Clusters(): nat { 2 + efiClusters + scriptClusters }

    function FatBytes(): nat { ((Clusters() + 2) * 3 + 1) / 2 }

    function FatSectors(): nat { (FatBytes() + SECTOR - 1) / SECTOR }

    function RootStart(): nat { 1 + 2 * FatSectors() }

    function DataStart(): nat { RootStart() + ROOT_SECTORS }

    function TotalSectors(): nat { DataStart() + Clusters() * 4 }

    /** Byte offset of cluster c in the image. */
    function ClusterAt(c: nat): nat
      requires c >= 2
    {
      (DataStart() + (c - 2) * 4) * SECTOR
    }

    ghost predicate Valid() { efiClusters >= 1 && scriptClusters >= 1 && Clusters() <= MAX_CLUSTERS }
  }

  function GeometryOf(efi: seq<byte>, script: seq<byte>): Geometry {
    Geometry(ChainLen(|efi|), ChainLen(|script|))
  }

  /** What buildESPImage accepts: a script, and content within the FAT12 limit.
      An empty EFI binary is accepted here; buildBootISO refuses it. */
  predicate Accepts(efi: seq<byte>, script: seq<byte>) {
    |script| > 0 && GeometryOf(efi, script).Clusters() <= MAX_CLUSTERS
  }

  /** No field of the image truncates, the table covers all clusters, and no
      chain link reaches the bad-cluster mark. */
  lemma NothingTruncates(efi: seq<byte>, script: seq<byte>)
    requires Accepts(efi, script)
    ensures var g := GeometryOf(efi, script);
      && g.TotalSectors() < 0x1_0000 && g.FatSectors() < 0x1_0000
      && g.Clusters() + 1 < Fat12.BAD_CLUSTER
      && |efi| < 0x1_0000_0000 && |script| < 0x1_0000_0000
      && (g.Clusters() + 1) * 3 / 2 + 1 < g.FatSectors() * SECTOR
  {
  }

  // ---- the parts of the image ----

  /** Boot sector fields with their offsets, up to the media byte. */
  function VolumeFields(total: nat): (ws: seq<Write>)
    requires total < 0x1_0000
  {
    [Write(0, [0xEB, 0x3C, 0x90]), Write(3, Ascii("IPXEBOOT")),
     Write(11, Le16(SECTOR)), Write(13, [4]), Write(14, Le16(1)), Write(16, [2]),
     Write(17, Le16(ROOT_ENTRIES)), Write(19, Le16(total)), Write(21, [0xF8])]
  }

  /** Boot sector fields from the table size on. */
  function TableFields(fatSectors: nat): (ws: seq<Write>)
    requires fatSectors < 0x1_0000
  {
    [Write(22, Le16(fatSectors)), Write(24, Le16(32)), Write(26, Le16(64)),
     Write(36, [0x80]), Write(38, [0x29]), Write(39, Le32(0x1A2B3C4D)),
     Write(43, Ascii("IPXEBOOT   ")), Write(54, Ascii("FAT12   ")), Write(510, [0x55, 0xAA])]
  }

  lemma BootFieldsOrdered(total: nat, fatSectors: nat)
    requires total < 0x1_0000 && fatSectors < 0x1_0000
    ensures Spans(VolumeFields(total), 0, 22) && Spans(TableFields(fatSectors), 22, SECTOR)
  {
  }

  /** The allocation table as a plain array: media byte, two one-cluster
      directories, the two file chains, zeros. */
  function TableEntries(g: Geometry): (es: seq<Fat12.entry>)
    requires g.Valid()
    ensures |es| == Fat12.Slots(g.FatSectors() * SECTOR)
  {
    [0xFF8, 0xFFF, 0xFFF, 0xFFF]
    + Fat12.Links(EFI_FIRST, g.efiClusters)
    + Fat12.Links(g.ScriptFirst(), g.scriptClusters)
    + seq(Fat12.Slots(g.FatSectors() * SECTOR) - (g.Clusters() + 2), _ => 0)
  }

  function Table(g: Geometry): (fat: seq<byte>)
    requires g.Valid()
    ensures |fat| == g.FatSectors() * SECTOR
  {
    Fat12.Pack(TableEntries(g), g.FatSectors() * SECTOR)
  }

  const AUTOEXEC: seq<unit> := Ascii("autoexec.ipxe")
  const SCRIPT_SHORT: seq<byte> := ShortName(Ascii("AUTOEXEC"), Ascii("IPX"))
  const DOT_NAME: seq<byte> := ShortName([DOT], [])
  const DOTDOT_NAME: seq<byte> := ShortName([DOT, DOT], [])

  function RootEntries(scriptFirst: nat, scriptSize: nat): (es: seq<seq<byte>>)
    requires scriptFirst < 0x1_0000 && scriptSize < 0x1_0000_0000
    ensures |es| == 3 && forall i :: 0 <= i < 3 ==> |es[i]| == 32
  {
    [LfnEntry(AUTOEXEC, Checksum(SCRIPT_SHORT)),
     DirEntry(SCRIPT_SHORT, ATTR_FILE, scriptFirst, scriptSize),
     DirEntry(ShortName(Ascii("EFI"), []), ATTR_DIR, EFI_DIR, 0)]
  }

  function EfiDirEntries(): (es: seq<seq<byte>>)
    ensures |es| == 3 && forall i :: 0 <= i < 3 ==> |es[i]| == 32
  {
    [DirEntry(DOT_NAME, ATTR_DIR, EFI_DIR, 0),
     DirEntry(DOTDOT_NAME, ATTR_DIR, 0, 0),
     DirEntry(ShortName(Ascii("BOOT"), []), ATTR_DIR, BOOT_DIR, 0)]
  }

  function BootDirEntries(efiSize: nat): (es: seq<seq<byte>>)
    requires efiSize < 0x1_0000_0000
    ensures |es| == 3 && forall i :: 0 <= i < 3 ==> |es[i]| == 32
  {
    [DirEntry(DOT_NAME, ATTR_DIR, BOOT_DIR, 0),
     DirEntry(DOTDOT_NAME, ATTR_DIR, EFI_DIR, 0),
     DirEntry(ShortName(Ascii("BOOTX64"), Ascii("EFI")), ATTR_FILE, EFI_FIRST, efiSize)]
  }

  /** The first bytes of the root directory, of /EFI and of /EFI/BOOT. */
  function RootDir(scriptFirst: nat, scriptSize: nat): (d: seq<byte>)
    requires scriptFirst < 0x1_0000 && scriptSize < 0x1_0000_0000
    ensures |d| == 96
  {
    var es := RootEntries(scriptFirst, scriptSize);
    es[0] + es[1] + es[2]
  }

  function EfiDir(): (d: seq<byte>)
    ensures |d| == 96
  {
    EfiDirEntries()[0] + EfiDirEntries()[1] + EfiDirEntries()[2]
  }

  function BootDir(efiSize: nat): (d: seq<byte>)
    requires efiSize < 0x1_0000_0000
    ensures |d| == 96
  {
    var es := BootDirEntries(efiSize);
    es[0] + es[1] + es[2]
  }

  lemma FlattenThree(a: seq<byte>, b: seq<byte>, c: seq<byte>)
    ensures Flatten([a, b, c]) == a + b + c
  {
    assert [a, b, c][..2] == [a, b] && [a, b][..1] == [a] && [a][..0] == [];
    assert Flatten([a]) == a;
  }

  function TableWrites(g: Geometry): (ws: seq<Write>)
    requires g.Valid()
  {
    [Write(SECTOR, Table(g)), Write((1 + g.FatSectors()) * SECTOR, Table(g))]
  }

  function DirWrites(g: Geometry, efiSize: nat, scriptSize: nat): (ws: seq<Write>)
    requires g.Valid() && efiSize < 0x1_0000_0000 && scriptSize < 0x1_0000_0000
  {
    [Write(g.RootStart() * SECTOR, RootDir(g.ScriptFirst(), scriptSize)),
     Write(g.ClusterAt(EFI_DIR), EfiDir()),
     Write(g.ClusterAt(BOOT_DIR), BootDir(efiSize))]
  }

  function FileWrites(g: Geometry, efi: seq<byte>, script: seq<byte>): (ws: seq<Write>) {
    [Write(g.ClusterAt(EFI_FIRST), efi), Write(g.ClusterAt(g.ScriptFirst()), script)]
  }

  /** Everything written to the image, in address order. */
  function EspWrites(efi: seq<byte>, script: seq<byte>): (ws: seq<Write>)
    requires Accepts(efi, script)
  {
    NothingTruncates(efi, script);
    var g := GeometryOf(efi, script);
    VolumeFields(g.TotalSectors()) + TableFields(g.FatSectors())
    + TableWrites(g) + DirWrites(g, |efi|, |script|) + FileWrites(g, efi, script)
  }

  function EspLength(efi: seq<byte>, script: seq<byte>): nat {
    GeometryOf(efi, script).TotalSectors() * SECTOR
  }

  lemma GroupsOrdered(efi: seq<byte>, script: seq<byte>)
    requires Accepts(efi, script)
    ensures |efi| < 0x1_0000_0000 && |script| < 0x1_0000_0000
    ensures var g := GeometryOf(efi, script);
      && Spans(TableWrites(g), SECTOR, g.RootStart() * SECTOR)
      && Spans(DirWrites(g, |efi|, |script|), g.RootStart() * SECTOR, g.ClusterAt(EFI_FIRST))
      && Spans(FileWrites(g, efi, script), g.ClusterAt(EFI_FIRST), g.TotalSectors() * SECTOR)
  {
    NothingTruncates(efi, script);
    hide Table, RootDir, EfiDir, BootDir;
  }

  /** The boot sector, both tables, the three directories and both files occupy
      disjoint ranges in address order, all inside the image. */
  lemma RegionsDisjoint(efi: seq<byte>, script: seq<byte>)
    requires Accepts(efi, script)
    ensures Spans(EspWrites(efi, script), 0, EspLength(efi, script))
  {
    NothingTruncates(efi, script);
    GroupsOrdered(efi, script);
    var g := GeometryOf(efi, script);
    BootFieldsOrdered(g.TotalSectors(), g.FatSectors());
    hide Spans, VolumeFields, TableFields, TableWrites, DirWrites, FileWrites;
    var ws := VolumeFields(g.TotalSectors());
    SpansConcat(ws, TableFields(g.FatSectors()), 0, 22, SECTOR);
    ws := ws + TableFields(g.FatSectors());
    SpansConcat(ws, TableWrites(g), 0, SECTOR, g.RootStart() * SECTOR);
    ws := ws + TableWrites(g);
    SpansConcat(ws, DirWrites(g, |efi|, |script|), 0, g.RootStart() * SECTOR, g.ClusterAt(EFI_FIRST));
    ws := ws + DirWrites(g, |efi|, |script|);
    SpansConcat(ws, FileWrites(g, efi, script), 0, g.ClusterAt(EFI_FIRST), g.TotalSectors() * SECTOR);
  }

  /** The image: zeros overwritten by EspWrites. */
  ghost function EspBytes(efi: seq<byte>, script: seq<byte>): (img: seq<byte>)
    requires Accepts(efi, script)
    ensures |img| == EspLength(efi, script)
  {
    RegionsDisjoint(efi, script);
    Apply(EspWrites(efi, script), Zeros(EspLength(efi, script)))
  }

  // ---- construction in place ----

  method PutVolumeFields(img: array<byte>, total: nat, ghost ws: seq<Write>) returns (ghost ws': seq<Write>)
    requires img.Length >= SECTOR && Holds(img, ws)
    modifies img
    ensures ws' == ws + VolumeFields(U16(total)) && Holds(img, ws')
  {
    hide Holds, Ascii, Le16, Le32, U16;
    ws' := Put(img, 0, [0xEB, 0x3C, 0x90], ws);
    ws' := Put(img, 3, Ascii("IPXEBOOT"), ws');
    ws' := Put(img, 11, Le16(SECTOR), ws');
    ws' := Put(img, 13, [4], ws');
    ws' := Put(img, 14, Le16(1), ws');
    ws' := Put(img, 16, [2], ws');
    ws' := Put(img, 17, Le16(ROOT_ENTRIES), ws');
    ws' := Put(img, 19, Le16(U16(total)), ws');
    ws' := Put(img, 21, [0xF8], ws');
  }

  method PutTableFields(img: array<byte>, fatSectors: nat, ghost ws: seq<Write>) returns (ghost ws': seq<Write>)
    requires img.Length >= SECTOR && Holds(img, ws)
    modifies img
    ensures ws' == ws + TableFields(U16(fatSectors)) && Holds(img, ws')
  {
    hide Holds, Ascii, Le16, Le32, U16;
    ws' := Put(img, 22, Le16(U16(fatSectors)), ws);
    ws' := Put(img, 24, Le16(32), ws');
    ws' := Put(img, 26, Le16(64), ws');
    ws' := Put(img, 36, [0x80], ws');
    ws' := Put(img, 38, [0x29], ws');
    ws' := Put(img, 39, Le32(0x1A2B3C4D), ws');
    ws' := Put(img, 43, Ascii("IPXEBOOT   "), ws');
    ws' := Put(img, 54, Ascii("FAT12   "), ws');
    ws' := Put(img, 510, [0x55, 0xAA], ws');
  }

  /** Setting the reserved and directory entries, then both chains, fills the table. */
  lemma TableSteps(g: Geometry, es: seq<Fat12.entry>)
    requires g.Valid() && |es| == Fat12.Slots(g.FatSectors() * SECTOR) && g.Clusters() + 2 <= |es|
    requires forall i :: 0 <= i < |es| ==>
      es[i] == if i == 0 then 0xFF8 else if i < 4 then 0xFFF else 0
    ensures Fat12.WithChain(Fat12.WithChain(es, EFI_FIRST, g.efiClusters), g.ScriptFirst(), g.scriptClusters)
            == TableEntries(g)
  {
    hide Fat12.Links, Fat12.Slots;
    var e := Fat12.WithChain(es, EFI_FIRST, g.efiClusters);
    assert e[..g.ScriptFirst()] == [0xFF8, 0xFFF, 0xFFF, 0xFFF] + Fat12.Links(EFI_FIRST, g.efiClusters);
    assert e[g.Clusters() + 2..] == seq(|es| - (g.Clusters() + 2), _ => 0);
  }

  /** The table with its reserved entries and those of the two directories. */
  method BuildReserved(g: Geometry) returns (fat: array<byte>, ghost es: seq<Fat12.entry>)
    requires g.Valid()
    ensures fresh(fat) && fat.Length == g.FatSectors() * SECTOR && |es| == Fat12.Slots(fat.Length)
    ensures fat[..] == Fat12.Pack(es, fat.Length)
    ensures forall i :: 0 <= i < |es| ==> es[i] == if i == 0 then 0xFF8 else if i < 4 then 0xFFF else 0
  {
    fat := new byte[g.FatSectors() * SECTOR](_ => 0);
    hide Fat12.Pack, Fat12.Slots;
    es := seq(Fat12.Slots(fat.Length), _ => 0);
    Fat12.EmptyTable(fat[..]);
    es := Fat12.Set(fat, 0, 0xFF8, es);
    es := Fat12.Set(fat, 1, 0xFFF, es);
    es := Fat12.Set(fat, EFI_DIR, 0xFFF, es);
    es := Fat12.Set(fat, BOOT_DIR, 0xFFF, es);
  }

  /** The allocation table, built by in-place writes of shared bytes. */
  method BuildTable(g: Geometry) returns (fat: array<byte>)
    requires g.Valid()
    ensures fresh(fat) && fat[..] == Table(g)
  {
    hide Fat12.Pack, Fat12.Links, Fat12.WithChain;
    ghost var es;
    fat, es := BuildReserved(g);
    TableSteps(g, es);
    es := Fat12.Chain(fat, EFI_FIRST, g.efiClusters, es);
    es := Fat12.Chain(fat, g.ScriptFirst(), g.scriptClusters, es);
  }

  lemma LongNameFirst(scriptFirst: nat, scriptSize: nat)
    requires scriptFirst < 0x1_0000 && scriptSize < 0x1_0000_0000
    ensures RootEntries(scriptFirst, scriptSize)[0] == LfnEntry(AUTOEXEC, Checksum(SCRIPT_SHORT))
  {
    hide LfnEntry, Checksum, DirEntry, ShortName;
  }

  method PutDirectories(img: array<byte>, g: Geometry, efiSize: nat, scriptSize: nat, ghost ws: seq<Write>)
    returns (ghost ws': seq<Write>)
    requires g.Valid() && img.Length == g.TotalSectors() * SECTOR && Holds(img, ws)
    modifies img
    ensures ws' == ws + DirWrites(g, U32(efiSize), U32(scriptSize)) && Holds(img, ws')
  {
    hide Holds, RootEntries, EfiDirEntries, BootDirEntries, LfnEntry, Checksum, Flatten, Ascii, ShortName;
    var lfn := BuildLfnEntry(AUTOEXEC, SCRIPT_SHORT);
    var root := RootEntries(U16(g.ScriptFirst()), U32(scriptSize));
    var efi := EfiDirEntries();
    var boot := BootDirEntries(U32(efiSize));
    FlattenThree(root[0], root[1], root[2]);
    FlattenThree(efi[0], efi[1], efi[2]);
    FlattenThree(boot[0], boot[1], boot[2]);
    LongNameFirst(U16(g.ScriptFirst()), U32(scriptSize));
    ws' := PutRecords(img, g.RootStart() * SECTOR, [lfn[..], root[1], root[2]], ws);
    ws' := PutRecords(img, g.ClusterAt(EFI_DIR), [efi[0], efi[1], efi[2]], ws');
    ws' := PutRecords(img, g.ClusterAt(BOOT_DIR), [boot[0], boot[1], boot[2]], ws');
  }

  method PutTables(img: array<byte>, g: Geometry, ghost ws: seq<Write>) returns (ghost ws': seq<Write>)
    requires g.Valid() && img.Length == g.TotalSectors() * SECTOR && Holds(img, ws)
    modifies img
    ensures ws' == ws + TableWrites(g) && Holds(img, ws')
  {
    hide Holds, Table;
    var fat := BuildTable(g);
    ws' := Put(img, SECTOR, fat[..], ws);
    ws' := Put(img, (1 + g.FatSectors()) * SECTOR, fat[..], ws');
  }

  method PutFiles(img: array<byte>, g: Geometry, efi: seq<byte>, script: seq<byte>, ghost ws: seq<Write>)
    returns (ghost ws': seq<Write>)
    requires g == GeometryOf(efi, script) && img.Length == g.TotalSectors() * SECTOR && Holds(img, ws)
    modifies img
    ensures ws' == ws + FileWrites(g, efi, script) && Holds(img, ws')
  {
    hide Holds;
    ws' := Put(img, g.ClusterAt(EFI_FIRST), efi, ws);
    ws' := Put(img, g.ClusterAt(g.ScriptFirst()), script, ws');
  }

  method PutBody(img: array<byte>, g: Geometry, efi: seq<byte>, script: seq<byte>) returns (ghost ws: seq<Write>)
    requires Accepts(efi, script) && g == GeometryOf(efi, script)
    requires img.Length == EspLength(efi, script) && Holds(img, [])
    modifies img
    ensures ws == EspWrites(efi, script) && Holds(img, ws)
  {
    NothingTruncates(efi, script);
    hide Holds, TableWrites, DirWrites, FileWrites, VolumeFields, TableFields, ChainLen;
    ws := PutVolumeFields(img, g.TotalSectors(), []);
    ws := PutTableFields(img, g.FatSectors(), ws);
    ws := PutTables(img, g, ws);
    ws := PutDirectories(img, g, |efi|, |script|, ws);
    ws := PutFiles(img, g, efi, script, ws);
  }

  /** Builds the image, or refuses exactly what Accepts refuses. */
  method BuildEspImage(efi: seq<byte>, script: seq<byte>) returns (r: Result<seq<byte>>)
    ensures r.Ok? <==> Accepts(efi, script)
    ensures r.Ok? ==> r.value == EspBytes(efi, script)
  {
    if |script| == 0 {
      return Err("empty iPXE script");
    }
    var g := GeometryOf(efi, script);
    if g.Clusters() > MAX_CLUSTERS {
      return Err("ESP content exceeds the FAT12 limit");
    }
    NothingTruncates(efi, script);
    GroupsOrdered(efi, script);
    var img := new byte[g.TotalSectors() * SECTOR](_ => 0);
    assert img[..] == Zeros(img.Length);
    assert Holds(img, []);
    ghost var ws := PutBody(img, g, efi, script);
    r := Ok(img[..]);
  }
}
