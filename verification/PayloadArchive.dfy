/** Rewriting self-extracting shell archives: a shell header, a marker line, and a base64
    payload holding a compressed tar archive. */
module PayloadArchive {
  import opened Bytes
  import opened Wrappers
  import opened LineWrap
  import Rewriter
  import Text

  const MARKER := "_____PAYLOAD_____"
  const WHITE: set<char> := {' ', '\t', '\r', '\n'}

  /** A tar entry; meta is everything of its header but the type and the size. */
  datatype TarEntry = TarEntry(meta: string, regular: bool, size: nat, content: string)

  /** What reading on in an archive yields: an entry, or an error. */
  datatype TarItem = Item(entry: TarEntry) | Broken

  /** The library codecs. unpack starts decompression and reads items until the end or the first
      error; writable says whether the tar writer takes an entry; pack writes entries and closes
      both writers, which may fail. digest is the MD5 sum in hexadecimal. */
  datatype Codecs = Codecs(
    encode: seq<byte> -> string, decode: string -> Option<seq<byte>>,
    unpack: seq<byte> -> Option<seq<TarItem>>, writable: TarEntry -> bool,
    pack: seq<TarEntry> -> Option<seq<byte>>, digest: seq<byte> -> string)

  predicate Whole(items: seq<TarItem>) { forall i :: 0 <= i < |items| ==> items[i].Item? }

  function EntriesOf(items: seq<TarItem>): (es: seq<TarEntry>)
    requires Whole(items)
    ensures |es| == |items|
  {
    seq(|items|, i requires 0 <= i < |items| => items[i].entry)
  }

  function ItemsOf(es: seq<TarEntry>): (items: seq<TarItem>)
    ensures Whole(items) && EntriesOf(items) == es
  {
    seq(|es|, i requires 0 <= i < |es| => Item(es[i]))
  }

  predicate IsGzip(b: seq<byte>) { |b| >= 2 && b[0] == 0x1f && b[1] == 0x8b }

  predicate IsHex(c: char) { '0' <= c <= '9' || 'a' <= c <= 'f' || 'A' <= c <= 'F' }

  ghost predicate CodecsOk(c: Codecs) {
    && (forall b :: c.decode(c.encode(b)) == Some(b))
    && (forall b, x :: x in c.encode(b) ==> x !in WHITE)
    && (forall es :: c.pack(es).Some? ==> IsGzip(c.pack(es).value) && c.unpack(c.pack(es).value) == Some(ItemsOf(es)))
    && (forall b :: |c.digest(b)| == 32)
    && (forall b, x :: x in c.digest(b) ==> IsHex(x))
  }

  // ---- finding the marker ----

  predicate LineStart(s: string, i: nat)
    requires i <= |s|
  {
    i == 0 || s[i - 1] == '\n'
  }

  predicate LineEnd(s: string, i: nat)
    requires i <= |s|
  {
    i == |s| || s[i] == '\n'
  }

  /** The end of the marker line that starts at i, if there is one; a carriage return belongs to it. */
  function MarkerAt(s: string, i: nat): (e: Option<nat>)
    requires i <= |s|
    ensures e.Some? ==> i + 17 <= e.value <= |s|
  {
    if !LineStart(s, i) || !(MARKER <= s[i..]) then None
    else if i + 17 < |s| && s[i + 17] == '\r' && LineEnd(s, i + 18) then Some(i + 18)
    else if LineEnd(s, i + 17) then Some(i + 17)
    else None
  }

  /** The first marker line from i on. */
  function FindMarker(s: string, i: nat): (r: Option<(nat, nat)>)
    requires i <= |s|
    ensures r.Some? ==> i <= r.value.0 <= |s| && MarkerAt(s, r.value.0) == Some(r.value.1)
    ensures r.Some? ==> forall j :: i <= j < r.value.0 ==> MarkerAt(s, j).None?
    ensures r.None? ==> forall j :: i <= j <= |s| ==> MarkerAt(s, j).None?
    decreases |s| - i
  {
    match MarkerAt(s, i)
    case Some(e) => Some((i, e))
    case None => if i == |s| then None else FindMarker(s, i + 1)
  }

  /** An archive up to the reading of its entries. */
  datatype Opened = Opened(header: string, gz: seq<byte>, items: seq<TarItem>)

  function OpenArchive(c: Codecs, s: string): (o: Option<Opened>)
  {
    match FindMarker(s, 0)
    case None => None
    case Some((start, end)) =>
      match c.decode(Strip(s[end..], WHITE))
      case None => None
      case Some(gz) =>
        if !IsGzip(gz) then None
        else
          match c.unpack(gz)
          case None => None
          case Some(items) => Some(Opened(s[..start], gz, items))
  }

  /** The three parts of an archive. */
  datatype Parts = Parts(header: string, gz: seq<byte>, entries: seq<TarEntry>)

  /** A reader of whole archives. */
  function ReadArchive(c: Codecs, s: string): (p: Option<Parts>)
  {
    match OpenArchive(c, s)
    case None => None
    case Some(o) => if Whole(o.items) then Some(Parts(o.header, o.gz, EntriesOf(o.items))) else None
  }

  // ---- rewriting ----

  /** Regular files are substituted and their size adjusted; everything else is kept. */
  function Mapped(e: TarEntry, sub: string -> string): TarEntry {
    if e.regular then e.(content := sub(e.content), size := |sub(e.content)|) else e
  }

  function MappedAll(es: seq<TarEntry>, sub: string -> string): (r: seq<TarEntry>)
    ensures |r| == |es|
  {
    seq(|es|, i requires 0 <= i < |es| => Mapped(es[i], sub))
  }

  /** MD5SUM= and a quoted digest, 41 characters. */
  predicate IsSum(s: string) {
    && |s| >= 41 && s[..7] == "MD5SUM=" && (s[7] == '\'' || s[7] == '"') && (s[40] == '\'' || s[40] == '"')
    && forall i :: 8 <= i < 40 ==> IsHex(s[i])
  }

  function SumText(d: string): string { "MD5SUM='" + d + "'" }

  /** Replaces the sum at every line start; bol says whether s begins a line. */
  function ReplaceSums(s: string, bol: bool, d: string): (r: string)
    decreases |s|
  {
    if s == "" then ""
    else if bol && IsSum(s) then SumText(d) + ReplaceSums(s[41..], false, d)
    else [s[0]] + ReplaceSums(s[1..], s[0] == '\n', d)
  }

  function EndLine(s: string): (r: string)
    ensures r != "" && r[|r| - 1] == '\n' && s <= r <= s + "\n"
  {
    if s != "" && s[|s| - 1] == '\n' then s else s + "\n"
  }

  function Assemble(header: string, text: string): string {
    EndLine(EndLine(header) + MARKER + "\n" + Wrapped(text, 76, 0))
  }

  function NewHeader(c: Codecs, sub: string -> string, header: string, gz: seq<byte>): string {
    ReplaceSums(sub(header), true, c.digest(gz))
  }

  predicate AllWritable(c: Codecs, es: seq<TarEntry>) { forall i :: 0 <= i < |es| ==> c.writable(es[i]) }

  /** The entries copied from reader to writer, unless one of them fails to be read or written. */
  function Copied(c: Codecs, items: seq<TarItem>, sub: string -> string): (es: Option<seq<TarEntry>>) {
    if Whole(items) && AllWritable(c, MappedAll(EntriesOf(items), sub)) then Some(MappedAll(EntriesOf(items), sub))
    else None
  }

  /** rewriteData: the archive rewritten as a whole, or, if anything fails, the text substituted. */
  function Rewrite(c: Codecs, sub: string -> string, input: string): (r: string)
  {
    if input == "" then input
    else
      match OpenArchive(c, input)
      case None => sub(input)
      case Some(o) =>
        match Copied(c, o.items, sub)
        case None => sub(input)
        case Some(es) =>
          match c.pack(es)
          case None => sub(input)
          case Some(gz) => Assemble(NewHeader(c, sub, o.header, gz), c.encode(gz))
  }

  /** The new payload of an archive, if it can be written. */
  function Repacked(c: Codecs, sub: string -> string, p: Parts): (gz: Option<seq<byte>>) {
    if AllWritable(c, MappedAll(p.entries, sub)) then c.pack(MappedAll(p.entries, sub)) else None
  }

  /** All or nothing: an archive that can be read and written again is rewritten as a whole; every
      other input is substituted as a whole. */
  lemma AllOrNothing(c: Codecs, sub: string -> string, input: string)
    requires input != ""
    ensures Rewrite(c, sub, input) ==
      match ReadArchive(c, input)
      case None => sub(input)
      case Some(p) =>
        match Repacked(c, sub, p)
        case None => sub(input)
        case Some(gz) => Assemble(NewHeader(c, sub, p.header, gz), c.encode(gz))
  {
    hide OpenArchive, Assemble, NewHeader;
  }

  lemma CopyStep(c: Codecs, items: seq<TarItem>, i: nat, sub: string -> string)
    requires i < |items| && Whole(items[..i]) && items[i].Item?
    ensures Whole(items[..i + 1])
    ensures MappedAll(EntriesOf(items[..i + 1]), sub) ==
      MappedAll(EntriesOf(items[..i]), sub) + [Mapped(items[i].entry, sub)]
    ensures Whole(items) ==> MappedAll(EntriesOf(items), sub)[i] == Mapped(items[i].entry, sub)
  {
    assert forall j :: 0 <= j < i ==> items[..i + 1][j] == items[..i][j];
  }

  // ---- the rewritten archive reads back ----

  /** Inside whole lines, nothing after them decides where the marker is. */
  lemma MarkerInLines(p: string, rest: string, i: nat)
    requires p != "" && p[|p| - 1] == '\n' && i < |p|
    ensures MarkerAt(p + rest, i) == MarkerAt(p, i)
  {
    var s := p + rest;
    assert s[|p| - 1] == '\n';
    if MARKER <= s[i..] {
      assert MARKER <= p[i..];
    }
    if MARKER <= p[i..] {
      assert MARKER <= s[i..];
    }
  }

  /** After whole lines without a marker, the marker is found where it was put. */
  lemma {:induction false} MarkerFound(p: string, rest: string, i: nat)
    requires p != "" && p[|p| - 1] == '\n' && i <= |p|
    requires FindMarker(p, 0).None?
    ensures FindMarker(p + MARKER + "\n" + rest, i) == Some((|p|, |p| + 17))
    decreases |p| - i
  {
    var s := p + MARKER + "\n" + rest;
    if i < |p| {
      assert s == p + (MARKER + "\n" + rest);
      MarkerInLines(p, MARKER + "\n" + rest, i);
      MarkerFound(p, rest, i + 1);
    } else {
      assert s[i..] == MARKER + ("\n" + rest);
      assert s[|p| + 17] == '\n';
    }
  }

  lemma StripWhite(text: string)
    requires forall x :: x in text ==> x !in WHITE
    ensures Strip("\n" + Wrapped(text, 76, 0), WHITE) == text
    ensures Strip("\n" + Wrapped(text, 76, 0) + "\n", WHITE) == text
  {
    var w := Wrapped(text, 76, 0);
    UnwrapRestores(text, 76, 0, WHITE);
    StripNothing(text, WHITE);
    StripCons(NL, w, WHITE);
    StripCons(NL, w + "\n", WHITE);
    StripEnd(w, WHITE);
    hide Wrapped, Strip;
    assert "\n" + w + "\n" == "\n" + (w + "\n");
  }

  lemma {:induction false} StripEnd(s: string, drop: set<char>)
    requires NL in drop
    ensures Strip(s + "\n", drop) == Strip(s, drop)
  {
    if s != "" {
      StripEnd(s[1..], drop);
      StripCons(s[0], s[1..] + "\n", drop);
      assert s + "\n" == [s[0]] + (s[1..] + "\n");
    }
  }

  /** What follows the marker of an assembled archive. */
  lemma AssembledParts(header: string, text: string) returns (rest: string)
    requires forall x :: x in text ==> x !in WHITE
    ensures Assemble(header, text) == EndLine(header) + MARKER + "\n" + rest
    ensures Strip("\n" + rest, WHITE) == text
  {
    StripWhite(text);
    var w := Wrapped(text, 76, 0);
    hide Wrapped, Strip;
    var whole := EndLine(header) + MARKER + "\n" + w;
    if whole[|whole| - 1] == '\n' {
      rest := w;
    } else {
      rest := w + "\n";
      assert whole + "\n" == EndLine(header) + MARKER + "\n" + rest;
      assert "\n" + rest == "\n" + w + "\n";
    }
  }

  /** A marker line among whole lines is found before anything that follows them. */
  lemma MarkerFirst(p: string, rest: string)
    requires p != "" && p[|p| - 1] == '\n' && FindMarker(p, 0).Some?
    ensures FindMarker(p + rest, 0).Some? && FindMarker(p + rest, 0).value.0 < |p|
  {
    var at := FindMarker(p, 0).value.0;
    MarkerInLines(p, rest, at);
  }

  /** Reading, given where the marker is and what follows it. */
  lemma ReadAt(c: Codecs, s: string, start: nat, gz: seq<byte>, es: seq<TarEntry>)
    requires start + 17 <= |s| && FindMarker(s, 0) == Some((start, start + 17))
    requires c.decode(Strip(s[start + 17..], WHITE)) == Some(gz)
    requires IsGzip(gz) && c.unpack(gz) == Some(ItemsOf(es))
    ensures ReadArchive(c, s) == Some(Parts(s[..start], gz, es))
  {
    hide FindMarker, Strip;
  }

  /** The header read is the text before the marker. */
  lemma ReadHeader(c: Codecs, s: string)
    ensures ReadArchive(c, s).Some? ==>
      FindMarker(s, 0).Some? && |ReadArchive(c, s).value.header| == FindMarker(s, 0).value.0
  {
    hide Strip, MarkerAt;
  }

  lemma PackedReadsBack(c: Codecs, es: seq<TarEntry>)
    requires CodecsOk(c) && c.pack(es).Some?
    ensures IsGzip(c.pack(es).value) && c.unpack(c.pack(es).value) == Some(ItemsOf(es))
    ensures c.decode(c.encode(c.pack(es).value)) == Some(c.pack(es).value)
    ensures forall x :: x in c.encode(c.pack(es).value) ==> x !in WHITE
  {
  }

  lemma CutAt(p: string, m: string, rest: string)
    ensures (p + m + "\n" + rest)[|p| + |m|..] == "\n" + rest
    ensures (p + m + "\n" + rest)[..|p|] == p
    ensures p + m + "\n" + rest == p + (m + "\n" + rest)
  {
  }

  lemma ReadsBackIf(c: Codecs, header: string, es: seq<TarEntry>)
    requires CodecsOk(c) && c.pack(es).Some? && FindMarker(EndLine(header), 0).None?
    ensures ReadArchive(c, Assemble(header, c.encode(c.pack(es).value)))
         == Some(Parts(EndLine(header), c.pack(es).value, es))
  {
    PackedReadsBack(c, es);
    var gz, p := c.pack(es).value, EndLine(header);
    hide CodecsOk, Strip, IsGzip, Assemble, EndLine, ReadArchive;
    var rest := AssembledParts(header, c.encode(gz));
    MarkerFound(p, rest, 0);
    hide FindMarker;
    CutAt(p, MARKER, rest);
    ReadAt(c, Assemble(header, c.encode(gz)), |p|, gz, es);
  }

  lemma ReadsBackOnlyIf(c: Codecs, header: string, text: string, gz: seq<byte>, es: seq<TarEntry>)
    requires FindMarker(EndLine(header), 0).Some?
    requires forall x :: x in text ==> x !in WHITE
    ensures ReadArchive(c, Assemble(header, text)) != Some(Parts(EndLine(header), gz, es))
  {
    var p := EndLine(header);
    hide Strip, Assemble, EndLine, ReadArchive;
    var rest := AssembledParts(header, text);
    MarkerFirst(p, MARKER + "\n" + rest);
    hide FindMarker;
    CutAt(p, MARKER, rest);
    ReadHeader(c, Assemble(header, text));
  }

  /** A written archive reads back as what was put into it exactly when the header has no marker
      line of its own. */
  lemma AssembledReadsBack(c: Codecs, header: string, es: seq<TarEntry>)
    requires CodecsOk(c) && c.pack(es).Some?
    ensures ReadArchive(c, Assemble(header, c.encode(c.pack(es).value)))
         == Some(Parts(EndLine(header), c.pack(es).value, es))
       <==> FindMarker(EndLine(header), 0).None?
  {
    PackedReadsBack(c, es);
    hide CodecsOk, ReadArchive, Assemble, EndLine, FindMarker;
    if FindMarker(EndLine(header), 0).None? {
      ReadsBackIf(c, header, es);
    } else {
      ReadsBackOnlyIf(c, header, c.encode(c.pack(es).value), c.pack(es).value, es);
    }
  }

  // ---- the whole of it, with its writer ----

  method WrapPayload(text: string) returns (r: string)
    ensures r == Wrapped(text, 76, 0)
  {
    var writer := new LineWrapWriter(76);
    var n := writer.Write(text);
    r := writer.out;
  }

  method FinishLine(s: string) returns (r: string)
    ensures r == EndLine(s)
  {
    r := s;
    if r == "" || r[|r| - 1] != '\n' {
      r := r + "\n";
    }
  }

  /** Header, marker and wrapped payload, each on lines of its own. */
  method WriteArchive(header: string, text: string) returns (r: string)
    ensures r == Assemble(header, text)
  {
    var payload := WrapPayload(text);
    hide Wrapped, EndLine;
    r := FinishLine(header);
    r := r + MARKER;
    r := r + "\n";
    r := r + payload;
    r := FinishLine(r);
  }

  /** The substitutions of a request: the rack addresses, then the configured rules. */
  function Subs(base: string, rules: seq<Rewriter.Rule>): string -> string {
    s => Rewriter.ApplySubs(s, base, rules)
  }

  /** The loop over the tar entries. */
  method RewriteEntries(c: Codecs, items: seq<TarItem>, base: string, rules: seq<Rewriter.Rule>)
    returns (r: Option<seq<TarEntry>>)
    ensures r == Copied(c, items, Subs(base, rules))
  {
    ghost var sub := Subs(base, rules);
    var out: seq<TarEntry> := [];
    for i := 0 to |items|
      invariant Whole(items[..i]) && out == MappedAll(EntriesOf(items[..i]), sub) && AllWritable(c, out)
    {
      if items[i].Broken? {
        return None;
      }
      var hdr := items[i].entry;
      if hdr.regular {
        var newBytes := Rewriter.SubstituteAll(hdr.content, base, rules);
        hdr := hdr.(size := |newBytes|, content := newBytes);
      }
      CopyStep(c, items, i, sub);
      if !c.writable(hdr) {
        return None;
      }
      out := out + [hdr];
    }
    assert items[..|items|] == items;
    r := Some(out);
  }

  method RewriteData(c: Codecs, baseUrl: string, rules: seq<Rewriter.Rule>, input: string) returns (r: string)
    ensures r == Rewrite(c, Subs(Text.TrimSlashes(baseUrl), rules), input)
  {
    if |input| == 0 {
      return input;
    }
    var base := Text.TrimSlashes(baseUrl);
    var plain := Rewriter.SubstituteAll(input, base, rules);
    var archive := OpenArchive(c, input);
    if archive.None? {
      return plain;
    }
    var entries := RewriteEntries(c, archive.value.items, base, rules);
    if entries.None? {
      return plain;
    }
    var packed := c.pack(entries.value);
    if packed.None? {
      return plain;
    }
    var header := Rewriter.SubstituteAll(archive.value.header, base, rules);
    header := ReplaceSums(header, true, c.digest(packed.value));
    r := WriteArchive(header, c.encode(packed.value));
  }
}
