/** An independent reader of boot ISOs, by either of two routes: the El Torito boot
    record that firmware follows, and the ISO 9660 directory. */
module IsoReader {
  import opened Bytes
  import opened Wrappers

  const SECTOR := 2048

  function Sector(iso: seq<byte>, lba: nat): (s: Option<seq<byte>>)
    ensures s.Some? ==> |s.value| == SECTOR
  {
    if (lba + 1) * SECTOR <= |iso| then Some(iso[lba * SECTOR..(lba + 1) * SECTOR]) else None
  }

  predicate IsBootRecord(br: seq<byte>)
    requires |br| == SECTOR
  {
    br[0] == 0 && br[1..6] == Ascii("CD001") && br[7..30] == Ascii("EL TORITO SPECIFICATION")
  }

  /** The little-endian words of s, added up. */
  function WordsSum(s: seq<byte>): (sum: nat)
  {
    if |s| < 2 then 0 else s[0] as int + 256 * (s[1] as int) + WordsSum(s[2..])
  }

  /** A valid catalogue for UEFI with a bootable no-emulation entry. */
  predicate IsCatalog(cat: seq<byte>)
    requires |cat| == SECTOR
  {
    && cat[0] == 1 && cat[1] == 0xEF && cat[30] == 0x55 && cat[31] == 0xAA
    && WordsSum(cat[..32]) % 0x1_0000 == 0
    && cat[32] == 0x88 && cat[33] == 0
  }

  datatype BootEntry = BootEntry(units: nat, lba: nat)

  /** Boot record, then catalogue, then the place of the boot image. */
  function ReadBootEntry(iso: seq<byte>): (r: Option<BootEntry>)
  {
    match Sector(iso, 17)
    case None => None
    case Some(br) =>
      if !IsBootRecord(br) then None
      else
        match Sector(iso, ReadLe32(br, 71))
        case None => None
        case Some(cat) =>
          if !IsCatalog(cat) then None else Some(BootEntry(ReadLe16(cat, 38), ReadLe32(cat, 40)))
  }

  /** Everything from the first sector of the boot image on. */
  function BootImage(iso: seq<byte>): (r: Option<seq<byte>>)
  {
    match ReadBootEntry(iso)
    case None => None
    case Some(e) => if e.lba * SECTOR <= |iso| then Some(iso[e.lba * SECTOR..]) else None
  }

  datatype Extent = Extent(lba: nat, size: nat)

  /** The directory record named id, scanning from offset off. */
  function FindRecord(dir: seq<byte>, off: nat, id: seq<byte>): (r: Option<Extent>)
    decreases |dir| - off
  {
    if off >= |dir| || dir[off] == 0 then None
    else
      var n := dir[off];
      if n < 34 || off + n > |dir| || 33 + dir[off + 32] as int > n then None
      else if dir[off + 33..off + 33 + dir[off + 32]] == id then
        Some(Extent(ReadLe32(dir, off + 2), ReadLe32(dir, off + 10)))
      else FindRecord(dir, off + n, id)
  }

  function ReadExtent(iso: seq<byte>, e: Extent): (r: Option<seq<byte>>)
  {
    if e.lba * SECTOR + e.size <= |iso| then Some(iso[e.lba * SECTOR..e.lba * SECTOR + e.size]) else None
  }

  predicate IsPvd(pvd: seq<byte>)
    requires |pvd| == SECTOR
  {
    pvd[0] == 1 && pvd[1..6] == Ascii("CD001")
  }

  /** A file of the ISO 9660 root directory. */
  function ReadRootFile(iso: seq<byte>, id: seq<byte>): (r: Option<seq<byte>>)
  {
    match Sector(iso, 16)
    case None => None
    case Some(pvd) =>
      if !IsPvd(pvd) then None
      else
        match ReadExtent(iso, Extent(ReadLe32(pvd, 158), ReadLe32(pvd, 166)))
        case None => None
        case Some(dir) =>
          match FindRecord(dir, 0, id)
          case None => None
          case Some(e) => ReadExtent(iso, e)
  }

  /** The image size the primary volume descriptor announces, in sectors. */
  function VolumeSectors(iso: seq<byte>): (n: Option<nat>)
  {
    match Sector(iso, 16)
    case None => None
    case Some(pvd) => Some(ReadLe32(pvd, 80))
  }

  /** The number in the n bytes at at, high byte first. */
  function BigEndian(s: seq<byte>, at: nat, n: nat): (v: nat)
    requires at + n <= |s|
  {
    if n == 0 then 0 else 256 * BigEndian(s, at, n - 1) + s[at + n - 1] as int
  }

  /** The extent of the root directory by its record in a path table. */
  function TableRoot(t: seq<byte>, bigEndian: bool): (lba: Option<nat>)
  {
    if |t| < 10 || t[0] != 1 || t[8] != 0 || (if bigEndian then BigEndian(t, 6, 2) else ReadLe16(t, 6)) != 1 then None
    else Some(if bigEndian then BigEndian(t, 2, 4) else ReadLe32(t, 2))
  }

  /** The extent of the root directory, found by the path table of either byte order. */
  function RootByTable(iso: seq<byte>, bigEndian: bool): (lba: Option<nat>)
  {
    match Sector(iso, 16)
    case None => None
    case Some(pvd) =>
      if !IsPvd(pvd) then None
      else
        match ReadExtent(iso, Extent(if bigEndian then BigEndian(pvd, 148, 4) else ReadLe32(pvd, 140), ReadLe32(pvd, 132)))
        case None => None
        case Some(t) => TableRoot(t, bigEndian)
  }

  predicate IsDescriptor(s: seq<byte>)
    requires |s| == SECTOR
  {
    s[1..6] == Ascii("CD001") && s[6] == 1
  }

  /** The sector of the volume descriptor set terminator, scanning from lba. */
  function FindTerminator(iso: seq<byte>, lba: nat): (at: Option<nat>)
    decreases |iso| - lba * SECTOR
  {
    match Sector(iso, lba)
    case None => None
    case Some(s) =>
      if !IsDescriptor(s) then None else if s[0] == 255 then Some(lba) else FindTerminator(iso, lba + 1)
  }
}
