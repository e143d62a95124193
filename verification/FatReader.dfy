/** An independent FAT12 reader: boot sector, directories, cluster chains. It knows
    nothing of how an image was built, and None stands for every way reading can fail. */
module FatReader {
  import opened Bytes
  import opened Wrappers
  import opened FatNames
  import Fat12

  /** A subdirectory is read as one cluster. */
  const DIR_BYTES := 2048

  datatype Volume = Volume(bps: nat, spc: nat, reserved: nat, nfats: nat, rootEntries: nat, total: nat, fatSectors: nat) {
    function FatStart(): nat { reserved * bps }

    function RootStart(): nat { (reserved + nfats * fatSectors) * bps }

    function DataStart(): nat { RootStart() + rootEntries * 32 }

    function ClusterBytes(): nat { spc * bps }

    /** The cluster count that decides between FAT12, FAT16 and FAT32 (Microsoft FAT
        specification, section "FAT Type Determination"). */
    function ClusterCount(): Option<nat> {
      if bps == 0 || spc == 0 then None
      else
        var used := reserved + nfats * fatSectors + (rootEntries * 32 + bps - 1) / bps;
        if total < used then None else Some((total - used) / spc)
    }

    predicate IsFat12() {
      ClusterCount().Some? && ClusterCount().value < 4085
    }
  }

  function ReadVolume(img: seq<byte>): (v: Option<Volume>)
  {
    if |img| < 512 || img[54..62] != Ascii("FAT12   ") || img[510] != 0x55 || img[511] != 0xAA then None
    else Some(Volume(ReadLe16(img, 11), img[13], ReadLe16(img, 14), img[16], ReadLe16(img, 17), ReadLe16(img, 19),
                     ReadLe16(img, 22)))
  }

  /** The table entry of cluster c. */
  function Next(img: seq<byte>, v: Volume, c: nat): (n: Option<nat>)
  {
    if v.FatStart() <= |img| && c * 3 / 2 + 1 < |img[v.FatStart()..]| then
      Some(Fat12.Get(img[v.FatStart()..], c))
    else None
  }

  /** The clusters of the chain from c, until it ends or `need` bytes are read. */
  function ReadClusters(img: seq<byte>, v: Volume, c: nat, need: int): (r: Option<seq<byte>>)
    decreases need
  {
    if c >= 0xFF8 || need <= 0 then Some([])
    else
      var o := v.DataStart() + (c - 2) * v.ClusterBytes();
      if v.ClusterBytes() == 0 || o < 0 || o + v.ClusterBytes() > |img| then None
      else
        match Next(img, v, c)
        case None => None
        case Some(n) =>
          match ReadClusters(img, v, n, need - v.ClusterBytes())
          case None => None
          case Some(rest) => Some(img[o..o + v.ClusterBytes()] + rest)
  }

  function ReadChain(img: seq<byte>, v: Volume, first: nat, size: nat): (r: Option<seq<byte>>)
  {
    match ReadClusters(img, v, first, size)
    case None => None
    case Some(out) => if |out| < size then None else Some(out[..size])
  }

  /** A byte turned right by one bit. */
  function TurnRight(b: byte): byte { (b + 255 * (b % 2)) / 2 }

  /** The sum over a short name that its long name carries, from acc on. */
  function NameSum(s: seq<byte>, acc: byte): byte
    decreases |s|
  {
    if s == [] then acc else NameSum(s[1..], (TurnRight(acc) + s[0]) % 256)
  }

  datatype Found = Missing | BadChecksum | Entry(first: nat, size: nat, isDir: bool)

  /** Scans directory entries from offset i; long and sum come from a preceding long-name entry. */
  function LookupFrom(dir: seq<byte>, i: nat, name: seq<unit>, long: seq<unit>, sum: byte): (r: Found)
    decreases |dir| - i
  {
    if i + 32 > |dir| || dir[i] == 0 then Missing
    else
      var e := dir[i..i + 32];
      if e[11] == 0x0F then LookupFrom(dir, i + 32, name, ReadLong(e), e[13])
      else if long != [] && NameSum(e[..11], 0) != sum then BadChecksum
      else if ShownName(e[..11]) == name || long == name then
        Entry(ReadLe16(e, 26), ReadLe32(e, 28), e[11] / 16 % 2 == 1)
      else LookupFrom(dir, i + 32, name, [], sum)
  }

  function Lookup(dir: seq<byte>, name: seq<unit>): Found {
    LookupFrom(dir, 0, name, [], 0)
  }

  /** Walks a path from a directory. */
  function Walk(img: seq<byte>, v: Volume, dir: seq<byte>, path: seq<seq<unit>>): (r: Option<seq<byte>>)
    decreases |path|
  {
    if path == [] then None
    else
      match Lookup(dir, path[0])
      case Missing => None
      case BadChecksum => None
      case Entry(first, size, isDir) =>
        if |path| == 1 then ReadChain(img, v, first, size)
        else if !isDir then None
        else
          match ReadChain(img, v, first, DIR_BYTES)
          case None => None
          case Some(sub) => Walk(img, v, sub, path[1..])
  }

  function ReadFile(img: seq<byte>, path: seq<seq<unit>>): (r: Option<seq<byte>>)
  {
    match ReadVolume(img)
    case None => None
    case Some(v) =>
      if v.DataStart() > |img| then None
      else Walk(img, v, img[v.RootStart()..v.DataStart()], path)
  }
}
