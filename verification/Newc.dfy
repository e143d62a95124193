/** The newc cpio archive of the initramfs overlay: writer and an independent reader. */
module Newc {
  import opened Bytes
  import opened Wrappers

  datatype Entry = Entry(ino: nat, mode: nat, nlink: nat, name: seq<byte>, data: seq<byte>)

  const U32_END := 0x1_0000_0000

  // ---- hexadecimal fields ----

  function HexDigit(d: nat): (b: byte)
    requires d < 16
  {
    if d < 10 then 48 + d else 55 + d
  }

  function DigitValue(b: byte): Option<nat> {
    if 48 <= b <= 57 then Some(b - 48)
    else if 65 <= b <= 70 then Some(b - 55)
    else if 97 <= b <= 102 then Some(b - 87)
    else None
  }

  /** The last n hexadecimal digits of v, upper case. */
  function Hex(v: nat, n: nat): (r: seq<byte>)
    ensures |r| == n
  {
    if n == 0 then [] else Hex(v / 16, n - 1) + [HexDigit(v % 16)]
  }

  function UnHex(s: seq<byte>): (v: Option<nat>)
  {
    if s == [] then Some(0)
    else
      match UnHex(s[..|s| - 1])
      case None => None
      case Some(hi) =>
        match DigitValue(s[|s| - 1])
        case None => None
        case Some(lo) => Some(16 * hi + lo)
  }

  function Pow16(n: nat): nat { if n == 0 then 1 else 16 * Pow16(n - 1) }

  lemma {:induction false} HexRoundTrip(v: nat, n: nat)
    requires v < Pow16(n)
    ensures UnHex(Hex(v, n)) == Some(v)
    decreases n
  {
    if n > 0 {
      HexRoundTrip(v / 16, n - 1);
      assert Hex(v, n)[..n - 1] == Hex(v / 16, n - 1);
    }
  }

  lemma Pow16Eight()
    ensures Pow16(8) == U32_END
  {
    assert Pow16(4) == 0x1_0000;
    assert Pow16(6) == 0x100_0000;
  }

  lemma Hex8RoundTrip(v: nat)
    requires v < U32_END
    ensures UnHex(Hex(v, 8)) == Some(v)
  {
    Pow16Eight();
    HexRoundTrip(v, 8);
  }

  /** All digits are decimal ones or capitals. */
  lemma {:induction false} HexUpper(v: nat, n: nat)
    ensures forall i :: 0 <= i < n ==> 48 <= Hex(v, n)[i] <= 57 || 65 <= Hex(v, n)[i] <= 70
    decreases n
  {
    if n > 0 {
      HexUpper(v / 16, n - 1);
    }
  }

  // ---- writing ----

  const MAGIC: seq<byte> := Ascii("070701")

  function Fields(e: Entry): (fs: seq<nat>)
    ensures |fs| == 13
  {
    [e.ino, e.mode, 0, 0, e.nlink, 0, |e.data|, 0, 0, 0, 0, |e.name| + 1, 0]
  }

  function Digits(fs: seq<nat>): (r: seq<byte>)
    ensures |r| == 8 * |fs|
  {
    if fs == [] then [] else Hex(fs[0], 8) + Digits(fs[1..])
  }

  function Header(e: Entry): (h: seq<byte>)
    ensures |h| == 110
  {
    MAGIC + Digits(Fields(e))
  }

  function PadLength(n: nat): (k: nat)
    ensures k < 4 && (n + k) % 4 == 0
  {
    (4 - n % 4) % 4
  }

  function Align4(n: nat): (r: nat)
    ensures n <= r < n + 4
  {
    (n + 3) / 4 * 4
  }

  lemma AlignShift(off: nat, n: nat)
    requires off % 4 == 0
    ensures Align4(off + n) == off + Align4(n)
  {
  }

  lemma AlignTwice(off: nat, m: nat, n: nat)
    requires off % 4 == 0
    ensures Align4(off + m) == off + Align4(m)
    ensures Align4(off + Align4(m) + n) == off + Align4(m) + Align4(n)
  {
    AlignShift(off, m);
    AlignShift(off + Align4(m), n);
  }

  lemma PaddedLength(b: seq<byte>)
    ensures |Padded(b)| == Align4(|b|)
  {
  }

  /** b followed by zeros up to the next multiple of 4. */
  function Padded(b: seq<byte>): (r: seq<byte>)
    ensures |r| % 4 == 0
  {
    b + Zeros(PadLength(|b|))
  }

  /** The archive b after one more entry; padding counts from the start of the archive. */
  function Appended(b: seq<byte>, e: Entry): seq<byte> {
    Padded(Padded(b + Header(e) + e.name + [0]) + e.data)
  }

  class Buffer {
    var bytes: seq<byte>

    constructor ()
      ensures bytes == []
    {
      bytes := [];
    }

    method PadTo4()
      modifies this
      ensures bytes == Padded(old(bytes))
    {
      ghost var b, k := bytes, 0;
      while |bytes| % 4 != 0
        invariant k <= PadLength(|b|) && bytes == b + Zeros(k)
        decreases PadLength(|b|) - k
      {
        ZerosSplit(k, 1);
        bytes := bytes + [0];
        k := k + 1;
      }
      assert k == PadLength(|b|);
    }

    method WriteNewc(ino: nat, mode: nat, nlink: nat, name: seq<byte>, data: seq<byte>)
      modifies this
      ensures bytes == Appended(old(bytes), Entry(ino, mode, nlink, name, data))
    {
      bytes := bytes + Header(Entry(ino, mode, nlink, name, data));
      bytes := bytes + name;
      bytes := bytes + [0];
      PadTo4();
      bytes := bytes + data;
      PadTo4();
    }
  }

  const TRAILER_NAME: seq<byte> := Ascii("TRAILER!!!")
  const TRAILER: Entry := Entry(0, 0, 1, TRAILER_NAME, [])

  /** An entry that starts on a multiple of 4. */
  function EntryBytes(e: Entry): (r: seq<byte>)
  {
    Padded(Header(e) + e.name + [0]) + Padded(e.data)
  }

  lemma EntryAligned(e: Entry)
    ensures |EntryBytes(e)| % 4 == 0
  {
    AddAligned(|Padded(Header(e) + e.name + [0])|, |Padded(e.data)|);
  }

  function Archive(es: seq<Entry>): (r: seq<byte>)
  {
    if es == [] then EntryBytes(TRAILER) else EntryBytes(es[0]) + Archive(es[1..])
  }

  lemma PadAligned(b: seq<byte>, x: seq<byte>)
    requires |b| % 4 == 0
    ensures Padded(b + x) == b + Padded(x)
  {
    assert PadLength(|b + x|) == PadLength(|x|);
  }

  /** Appending to an aligned archive leaves it aligned: every header starts on a multiple of 4. */
  lemma AppendAligned(b: seq<byte>, e: Entry)
    requires |b| % 4 == 0
    ensures Appended(b, e) == b + EntryBytes(e) && |Appended(b, e)| % 4 == 0
  {
    var head := Header(e) + e.name + [0];
    assert b + Header(e) + e.name + [0] == b + head;
    PadAligned(b, head);
    AddAligned(|b|, |Padded(head)|);
    PadAligned(b + Padded(head), e.data);
  }

  /** What the walk hands to the archive: directories and files in lexical order, the root left out. */
  datatype File = Dir(name: seq<byte>) | Regular(name: seq<byte>, data: seq<byte>)

  const EXECUTABLE: seq<byte> := Ascii("scripts/init-premount/bond")

  function EntryOf(f: File, ino: nat): Entry {
    match f
    case Dir(name) => Entry(ino, 0x41ED, 2, name, [])
    case Regular(name, data) => Entry(ino, if name == EXECUTABLE then 0x81ED else 0x81A4, 1, name, data)
  }

  /** Inodes count up from 1. */
  function EntriesOf(fs: seq<File>): (es: seq<Entry>)
    ensures |es| == |fs|
  {
    seq(|fs|, i requires 0 <= i < |fs| => EntryOf(fs[i], i + 1))
  }

  lemma {:induction false} ArchiveSnoc(es: seq<Entry>, e: Entry)
    ensures Archive(es + [e]) == Unfinished(es) + EntryBytes(e) + EntryBytes(TRAILER)
    ensures Unfinished(es + [e]) == Unfinished(es) + EntryBytes(e)
  {
    hide EntryBytes;
    if es == [] {
      assert Archive([e]) == EntryBytes(e) + Archive([]);
      assert Unfinished([e]) == EntryBytes(e) + Unfinished([]);
    } else {
      ArchiveSnoc(es[1..], e);
      assert (es + [e])[1..] == es[1..] + [e];
    }
  }

  /** The archive before its trailer. */
  function Unfinished(es: seq<Entry>): (r: seq<byte>)
  {
    if es == [] then [] else EntryBytes(es[0]) + Unfinished(es[1..])
  }

  lemma AddAligned(m: nat, n: nat)
    requires m % 4 == 0 && n % 4 == 0
    ensures (m + n) % 4 == 0
  {
  }

  lemma {:induction false} UnfinishedAligned(es: seq<Entry>)
    ensures |Unfinished(es)| % 4 == 0
  {
    hide EntryBytes;
    if es != [] {
      UnfinishedAligned(es[1..]);
      EntryAligned(es[0]);
      AddAligned(|EntryBytes(es[0])|, |Unfinished(es[1..])|);
    }
  }

  /** One file of the walk. */
  method WriteFile(buf: Buffer, f: File, ino: nat, ghost es: seq<Entry>)
    requires buf.bytes == Unfinished(es)
    modifies buf
    ensures buf.bytes == Unfinished(es + [EntryOf(f, ino)])
  {
    UnfinishedAligned(es);
    AppendAligned(buf.bytes, EntryOf(f, ino));
    ArchiveSnoc(es, EntryOf(f, ino));
    hide EntryBytes, Unfinished, Appended, Ascii;
    match f
    case Dir(name) => buf.WriteNewc(ino, 0x41ED, 2, name, []);
    case Regular(name, data) =>
      var mode := 0x81A4;
      if name == EXECUTABLE {
        mode := 0x81ED;
      }
      buf.WriteNewc(ino, mode, 1, name, data);
  }

  /** The archive loop of BuildOverlayCPIO, up to compression. */
  method BuildArchive(fs: seq<File>) returns (raw: seq<byte>)
    ensures raw == Archive(EntriesOf(fs))
  {
    var buf := new Buffer();
    hide Ascii, EntryBytes, Archive;
    ghost var es := EntriesOf(fs);
    var ino := 0;
    for i := 0 to |fs|
      invariant ino == i
      invariant buf.bytes == Unfinished(es[..i])
    {
      ino := ino + 1;
      WriteFile(buf, fs[i], ino, es[..i]);
      assert es[..i + 1] == es[..i] + [es[i]];
    }
    assert es[..|fs|] == es;
    WriteTrailer(buf, es);
    raw := buf.bytes;
  }

  method WriteTrailer(buf: Buffer, ghost es: seq<Entry>)
    requires buf.bytes == Unfinished(es)
    modifies buf
    ensures buf.bytes == Archive(es)
  {
    UnfinishedAligned(es);
    AppendAligned(buf.bytes, TRAILER);
    UnfinishedEnds(es);
    hide EntryBytes, Unfinished, Archive, Appended, Ascii;
    buf.WriteNewc(0, 0, 1, TRAILER_NAME, []);
  }

  lemma {:induction false} UnfinishedEnds(es: seq<Entry>)
    ensures Archive(es) == Unfinished(es) + EntryBytes(TRAILER)
  {
    hide EntryBytes;
    if es != [] {
      UnfinishedEnds(es[1..]);
    }
  }

  // ---- reading ----

  /** 070701 */
  predicate IsMagic(b: seq<byte>) { b == [48, 55, 48, 55, 48, 49] }

  /** TRAILER!!! */
  predicate IsTrailer(name: seq<byte>) { name == [84, 82, 65, 73, 76, 69, 82, 33, 33, 33] }

  lemma WriterNames()
    ensures IsMagic(MAGIC) && IsTrailer(TRAILER_NAME)
  {
  }

  function ReadField(raw: seq<byte>, off: nat, i: nat): (v: Option<nat>)
  {
    if off + 14 + 8 * i <= |raw| then UnHex(raw[off + 6 + 8 * i..off + 14 + 8 * i]) else None
  }

  datatype Info = Info(ino: nat, mode: nat, nlink: nat, size: nat, namesize: nat)

  function ReadInfo(raw: seq<byte>, off: nat): (i: Option<Info>)
  {
    var ino, mode, nlink := ReadField(raw, off, 0), ReadField(raw, off, 1), ReadField(raw, off, 4);
    var size, namesize := ReadField(raw, off, 6), ReadField(raw, off, 11);
    if off + 110 > |raw| || !IsMagic(raw[off..off + 6]) then None
    else if ino.None? || mode.None? || nlink.None? || size.None? || namesize.None? then None
    else Some(Info(ino.value, mode.value, nlink.value, size.value, namesize.value))
  }

  /** The entries from offset off up to the trailer, which must end the archive. */
  function Parse(raw: seq<byte>, off: nat): (es: Option<seq<Entry>>)
    decreases |raw| - off
  {
    match ReadInfo(raw, off)
    case None => None
    case Some(i) =>
      var nameAt := off + 110;
      var dataAt := Align4(nameAt + i.namesize);
      if i.namesize == 0 || dataAt + i.size > |raw| then None
      else
        var name := raw[nameAt..nameAt + i.namesize - 1];
        if IsTrailer(name) then (if dataAt == |raw| then Some([]) else None)
        else
          match Parse(raw, Align4(dataAt + i.size))
          case None => None
          case Some(rest) => Some([Entry(i.ino, i.mode, i.nlink, name, raw[dataAt..dataAt + i.size])] + rest)
  }

  ghost predicate Writable(e: Entry) {
    e.ino < U32_END && e.mode < U32_END && e.nlink < U32_END && |e.data| < U32_END && |e.name| + 1 < U32_END
  }

  lemma {:induction false} DigitsAt(fs: seq<nat>, i: nat)
    requires i < |fs|
    ensures Digits(fs)[8 * i..8 * i + 8] == Hex(fs[i], 8)
    decreases i
  {
    if i > 0 {
      DigitsAt(fs[1..], i - 1);
      assert Digits(fs)[8 * i..8 * i + 8] == Digits(fs[1..])[8 * (i - 1)..8 * (i - 1) + 8];
    }
  }

  lemma HeaderField(e: Entry, i: nat)
    requires i < 13
    ensures Header(e)[6 + 8 * i..14 + 8 * i] == Hex(Fields(e)[i], 8)
  {
    DigitsAt(Fields(e), i);
    hide Digits, Hex, Fields, Ascii;
    var ds := Digits(Fields(e));
    assert Header(e)[6..] == ds;
    assert Header(e)[6 + 8 * i..14 + 8 * i] == Header(e)[6..][8 * i..8 * i + 8];
  }

  lemma FieldSlice(raw: seq<byte>, off: nat, e: Entry, i: nat)
    requires off + 110 <= |raw| && raw[off..off + 110] == Header(e) && i < 13
    ensures raw[off + 6 + 8 * i..off + 14 + 8 * i] == Hex(Fields(e)[i], 8)
  {
    HeaderField(e, i);
    hide Header, Hex, Fields;
    SliceWithin(raw, off, Header(e), 6 + 8 * i, 14 + 8 * i);
  }

  lemma FieldRead(raw: seq<byte>, off: nat, e: Entry, i: nat)
    requires off + 110 <= |raw| && raw[off..off + 110] == Header(e) && i < 13 && Fields(e)[i] < U32_END
    ensures ReadField(raw, off, i) == Some(Fields(e)[i])
  {
    hide Header, Hex, UnHex, Fields;
    Hex8RoundTrip(Fields(e)[i]);
    FieldSlice(raw, off, e, i);
  }

  /** The fields that the reader does not use (owner, times, devices, checksum) are zero. */
  lemma OtherFieldsZero(raw: seq<byte>, off: nat, e: Entry, i: nat)
    requires off + 110 <= |raw| && raw[off..off + 110] == Header(e) && i in {2, 3, 5, 7, 8, 9, 10, 12}
    ensures ReadField(raw, off, i) == Some(0)
  {
    assert Fields(e)[i] == 0;
    hide Header, ReadField, Fields;
    FieldRead(raw, off, e, i);
  }

  lemma InfoRead(raw: seq<byte>, off: nat, e: Entry)
    requires off + 110 <= |raw| && raw[off..off + 110] == Header(e) && Writable(e)
    ensures ReadInfo(raw, off) == Some(Info(e.ino, e.mode, e.nlink, |e.data|, |e.name| + 1))
  {
    assert raw[off..off + 6] == MAGIC by {
      hide Digits, Fields;
      SliceWithin(raw, off, Header(e), 0, 6);
    }
    WriterNames();
    hide Header, ReadField, Digits, MAGIC, IsMagic;
    FieldRead(raw, off, e, 0);
    FieldRead(raw, off, e, 1);
    FieldRead(raw, off, e, 4);
    FieldRead(raw, off, e, 6);
    FieldRead(raw, off, e, 11);
  }

  /** Where the parts of an entry are, relative to its start. */
  lemma EntryShape(e: Entry)
    ensures var b, n := EntryBytes(e), Align4(111 + |e.name|);
      && |b| == n + Align4(|e.data|)
      && b[0..110] == Header(e) && b[110..110 + |e.name|] == e.name && b[n..n + |e.data|] == e.data
  {
    var head := Header(e) + e.name + [0];
    var b := EntryBytes(e);
    PaddedLength(head);
    PaddedLength(e.data);
    hide Header, Align4, PadLength;
    assert b[..|head|] == head;
    assert b[0..110] == b[..|head|][0..110] && b[110..110 + |e.name|] == b[..|head|][110..110 + |e.name|];
  }

  lemma PartsWithin(raw: seq<byte>, off: nat, b: seq<byte>, n: nat, name: nat, data: nat)
    requires off + |b| <= |raw| && raw[off..off + |b|] == b && 110 + name <= n && n + data <= |b|
    ensures raw[off..off + 110] == b[0..110]
    ensures raw[off + 110..off + 110 + name] == b[110..110 + name]
    ensures raw[off + n..off + n + data] == b[n..n + data]
  {
    SliceWithin(raw, off, b, 0, 110);
    SliceWithin(raw, off, b, 110, 110 + name);
    SliceWithin(raw, off, b, n, n + data);
  }

  /** Entry e is in the archive at the aligned offset off. */
  ghost predicate Holds(raw: seq<byte>, off: nat, e: Entry) {
    off % 4 == 0 && off + |EntryBytes(e)| <= |raw| && raw[off..off + |EntryBytes(e)|] == EntryBytes(e)
  }

  lemma EntryParts(raw: seq<byte>, off: nat, e: Entry)
    requires Holds(raw, off, e)
    ensures var dataAt := Align4(off + 110 + |e.name| + 1);
      && dataAt + |e.data| <= |raw| && Align4(dataAt + |e.data|) == off + |EntryBytes(e)|
      && raw[off..off + 110] == Header(e)
      && raw[off + 110..off + 110 + |e.name|] == e.name
      && raw[dataAt..dataAt + |e.data|] == e.data
  {
    var b, n := EntryBytes(e), Align4(111 + |e.name|);
    EntryShape(e);
    AlignTwice(off, 111 + |e.name|, |e.data|);
    hide EntryBytes, Header, Align4;
    PartsWithin(raw, off, b, n, |e.name|, |e.data|);
  }

  lemma ParseStep(raw: seq<byte>, off: nat, i: Info, name: seq<byte>, dataAt: nat, next: nat)
    requires ReadInfo(raw, off) == Some(i) && i.namesize == |name| + 1
    requires dataAt == Align4(off + 110 + i.namesize) && next == Align4(dataAt + i.size)
    requires dataAt + i.size <= |raw| && raw[off + 110..off + 110 + |name|] == name
    ensures Parse(raw, off) ==
      if IsTrailer(name) then (if dataAt == |raw| then Some([]) else None)
      else match Parse(raw, next)
           case None => None
           case Some(rest) => Some([Entry(i.ino, i.mode, i.nlink, name, raw[dataAt..dataAt + i.size])] + rest)
  {
    hide ReadInfo, IsTrailer, Align4;
  }

  /** Reading one entry. */
  lemma ParseOne(raw: seq<byte>, off: nat, e: Entry)
    requires Holds(raw, off, e) && Writable(e)
    ensures Parse(raw, off) ==
      if IsTrailer(e.name) then (if Align4(off + 110 + |e.name| + 1) == |raw| then Some([]) else None)
      else match Parse(raw, off + |EntryBytes(e)|) case None => None case Some(rest) => Some([e] + rest)
  {
    hide ReadInfo, EntryBytes, Header, IsTrailer, Align4, Holds, Writable, Parse;
    EntryParts(raw, off, e);
    InfoRead(raw, off, e);
    ParseStep(raw, off, Info(e.ino, e.mode, e.nlink, |e.data|, |e.name| + 1), e.name,
              Align4(off + 110 + |e.name| + 1), off + |EntryBytes(e)|);
  }

  /** Parsing what was written gives the entries back, with nothing left over. */
  lemma {:induction false} ArchiveRoundTrip(raw: seq<byte>, off: nat, es: seq<Entry>)
    requires off % 4 == 0 && off <= |raw| && raw[off..] == Archive(es)
    requires forall i :: 0 <= i < |es| ==> Writable(es[i]) && !IsTrailer(es[i].name)
    ensures Parse(raw, off) == Some(es)
    decreases |es|
  {
    hide Parse, EntryBytes, IsTrailer, Align4;
    if es == [] {
      TrailerRead(raw, off);
    } else {
      var n := |EntryBytes(es[0])|;
      HoldsFirst(raw, off, EntryBytes(es[0]), Archive(es[1..]));
      ParseOne(raw, off, es[0]);
      EntryAligned(es[0]);
      AddAligned(off, n);
      ArchiveRoundTrip(raw, off + n, es[1..]);
      assert [es[0]] + es[1..] == es;
    }
  }

  lemma HoldsFirst(raw: seq<byte>, off: nat, b: seq<byte>, rest: seq<byte>)
    requires off <= |raw| && raw[off..] == b + rest
    ensures off + |b| <= |raw| && raw[off..off + |b|] == b && raw[off + |b|..] == rest
  {
    assert raw[off..off + |b|] == raw[off..][..|b|];
    assert raw[off + |b|..] == raw[off..][|b|..];
  }

  lemma AlignIdempotent(n: nat)
    ensures Align4(Align4(n)) == Align4(n)
  {
  }

  /** An empty trailer entry at the very end ends the archive. */
  lemma LastRead(raw: seq<byte>, off: nat, e: Entry)
    requires Holds(raw, off, e) && off + |EntryBytes(e)| == |raw| && IsTrailer(e.name) && e.data == [] && Writable(e)
    ensures Parse(raw, off) == Some([])
  {
    hide Parse, EntryBytes, Align4, IsTrailer, Writable, Holds;
    ParseOne(raw, off, e);
    EntryParts(raw, off, e);
    AlignIdempotent(off + 110 + |e.name| + 1);
  }

  lemma TrailerOk()
    ensures IsTrailer(TRAILER.name) && Writable(TRAILER)
  {
    WriterNames();
    assert |TRAILER_NAME| == 10;
  }

  lemma TrailerRead(raw: seq<byte>, off: nat)
    requires off % 4 == 0 && off <= |raw| && raw[off..] == EntryBytes(TRAILER)
    ensures Parse(raw, off) == Some([])
  {
    TrailerOk();
    hide Parse, EntryBytes, IsTrailer, Writable, Ascii;
    HoldsFirst(raw, off, EntryBytes(TRAILER), []);
    LastRead(raw, off, TRAILER);
  }

  /** The entry of a file of the walk: directories and the hook script are executable, mode 755,
      everything else is mode 644. */
  ghost predicate IsEntryOf(e: Entry, f: File, ino: nat) {
    && e.name == f.name && e.ino == ino
    && match f
       case Dir(_) => e.mode == 0x41ED && e.nlink == 2 && e.data == []
       case Regular(name, data) =>
         && e.data == data && e.nlink == 1 && (e.mode == 0x81ED || e.mode == 0x81A4)
         && (e.mode == 0x81ED <==> name == Ascii("scripts/init-premount/bond"))
  }

  lemma EntryMeans(f: File, ino: nat)
    ensures IsEntryOf(EntryOf(f, ino), f, ino)
  {
    hide Ascii;
  }

  /** The overlay archive of any list of files reads back as exactly those files, in order, with
      inodes counting up from one. */
  lemma OverlayRoundTrip(fs: seq<File>)
    requires |fs| < U32_END - 1
    requires forall i :: 0 <= i < |fs| ==>
      && !IsTrailer(fs[i].name) && |fs[i].name| + 1 < U32_END && (fs[i].Regular? ==> |fs[i].data| < U32_END)
    ensures var es := Parse(Archive(EntriesOf(fs)), 0);
      es.Some? && |es.value| == |fs| && forall i :: 0 <= i < |fs| ==> IsEntryOf(es.value[i], fs[i], i + 1)
  {
    hide Archive, IsTrailer, Parse, IsEntryOf;
    var es := EntriesOf(fs);
    assert Archive(es)[0..] == Archive(es);
    ArchiveRoundTrip(Archive(es), 0, es);
    forall i | 0 <= i < |fs|
      ensures IsEntryOf(es[i], fs[i], i + 1)
    {
      EntryMeans(fs[i], i + 1);
    }
  }
}
