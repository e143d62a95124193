/** What a rewritten self-extracting archive holds: its entries, its sums, its marker. */
module PayloadTheorems {
  import opened Bytes
  import opened Wrappers
  import opened PayloadArchive
  import opened Rewriter

  // ---- first lines ----

  function FirstLine(s: string): (l: string) {
    if s == "" || s[0] == '\n' then "" else [s[0]] + FirstLine(s[1..])
  }

  lemma {:induction false} FirstLineMeans(s: string)
    ensures FirstLine(s) <= s && LineEnd(s, |FirstLine(s)|) && '\n' !in FirstLine(s)
  {
    if s != "" && s[0] != '\n' {
      FirstLineMeans(s[1..]);
    }
  }

  lemma {:induction false} FirstLineIs(s: string, n: nat)
    requires n <= |s| && LineEnd(s, n) && '\n' !in s[..n]
    ensures FirstLine(s) == s[..n]
  {
    if n > 0 {
      assert s[0] == s[..n][0];
      assert s[1..][..n - 1] == s[..n][1..];
      FirstLineIs(s[1..], n - 1);
    }
  }

  lemma FirstLineCons(x: char, s: string)
    ensures FirstLine([x] + s) == if x == '\n' then "" else [x] + FirstLine(s)
  {
    assert ([x] + s)[1..] == s;
  }

  /** A first line keeps whatever begins it. */
  lemma {:induction false} FirstLineAppend(w: string, s: string)
    requires '\n' !in w
    ensures FirstLine(w + s) == w + FirstLine(s)
  {
    if w == "" {
      assert w + s == s;
    } else {
      FirstLineAppend(w[1..], s);
      FirstLineCons(w[0], w[1..] + s);
      assert w + s == [w[0]] + (w[1..] + s);
    }
  }

  // ---- marker lines ----

  predicate IsMarkerLine(l: string) { l == MARKER || l == MARKER + "\r" }

  predicate HasMarker(s: string, bol: bool) {
    (bol && IsMarkerLine(FirstLine(s))) || (s != "" && HasMarker(s[1..], s[0] == '\n'))
  }

  lemma MarkerIsLine(s: string)
    ensures MarkerAt(s, 0).Some? <==> IsMarkerLine(FirstLine(s))
  {
    FirstLineMeans(s);
    assert s[0..] == s;
    var l := FirstLine(s);
    if MARKER <= s {
      assert '\n' !in MARKER;
      assert s[..17] == MARKER;
      if LineEnd(s, 17) {
        FirstLineIs(s, 17);
      }
      if 17 < |s| && s[17] == '\r' && LineEnd(s, 18) {
        assert s[..18] == MARKER + "\r";
        FirstLineIs(s, 18);
      }
    }
  }

  lemma MarkerAtSuffix(s: string, i: nat)
    requires i <= |s| && LineStart(s, i)
    ensures MarkerAt(s, i).Some? <==> MarkerAt(s[i..], 0).Some?
  {
    assert s[i..][0..] == s[i..];
  }

  lemma {:induction false} HasMarkerMeans(s: string, i: nat)
    requires i <= |s|
    ensures FindMarker(s, i).Some? <==> HasMarker(s[i..], LineStart(s, i))
    decreases |s| - i
  {
    if LineStart(s, i) {
      MarkerAtSuffix(s, i);
      MarkerIsLine(s[i..]);
    }
    hide FirstLine, IsMarkerLine;
    if i < |s| {
      HasMarkerMeans(s, i + 1);
      assert s[i..][1..] == s[i + 1..];
    }
  }

  lemma HasMarkerCons(x: char, s: string, bol: bool)
    ensures HasMarker([x] + s, bol) <==> (bol && IsMarkerLine(FirstLine([x] + s))) || HasMarker(s, x == '\n')
  {
    assert ([x] + s)[1..] == s;
  }

  /** Text without a newline in the middle of a line has no marker line. */
  lemma {:induction false} HasMarkerSkip(w: string, s: string)
    requires '\n' !in w
    ensures HasMarker(w + s, false) == HasMarker(s, false)
  {
    if w == "" {
      assert w + s == s;
    } else {
      HasMarkerSkip(w[1..], s);
      HasMarkerCons(w[0], w[1..] + s, false);
      assert w + s == [w[0]] + (w[1..] + s);
    }
  }

  lemma HasMarkerLine(w: string, s: string, bol: bool)
    requires w != "" && '\n' !in w && w[0] != '_'
    ensures HasMarker(w + s, bol) == HasMarker(s, false)
  {
    FirstLineAppend(w, s);
    HasMarkerSkip(w[1..], s);
    HasMarkerCons(w[0], w[1..] + s, bol);
    assert w + s == [w[0]] + (w[1..] + s);
    assert FirstLine(w + s)[0] == w[0];
  }

  lemma {:induction false} EndLineMarker(s: string, bol: bool)
    ensures HasMarker(s + "\n", bol) == HasMarker(s, bol)
  {
    FirstLineEnd(s);
    assert FirstLine("") == "";
    hide FirstLine;
    if s == "" {
      assert s + "\n" == "\n";
      HasMarkerCons('\n', "", bol);
      FirstLineCons('\n', "");
    } else {
      EndLineMarker(s[1..], s[0] == '\n');
      HasMarkerCons(s[0], s[1..] + "\n", bol);
      assert s + "\n" == [s[0]] + (s[1..] + "\n");
    }
  }

  lemma {:induction false} FirstLineEnd(s: string)
    ensures FirstLine(s + "\n") == FirstLine(s)
  {
    if s != "" {
      FirstLineEnd(s[1..]);
      FirstLineCons(s[0], s[1..] + "\n");
      assert s + "\n" == [s[0]] + (s[1..] + "\n");
    }
  }

  // ---- replacing sums ----

  lemma SumNoNewline(s: string)
    requires IsSum(s)
    ensures '\n' !in s[..41] && s[0] == 'M'
  {
    assert forall i :: 0 <= i < 7 ==> s[i] == s[..7][i];
    assert forall i :: 0 <= i < 7 ==> "MD5SUM="[i] != '\n';
  }

  lemma {:induction false} ReplacedFirstLine(s: string, d: string)
    ensures FirstLine(ReplaceSums(s, false, d)) == FirstLine(s)
  {
    if s != "" && s[0] != '\n' {
      ReplacedFirstLine(s[1..], d);
      FirstLineCons(s[0], ReplaceSums(s[1..], false, d));
    }
  }

  predicate IsDigest(d: string) {
    |d| == 32 && forall x :: x in d ==> IsHex(x)
  }

  lemma SumTextShape(d: string)
    requires IsDigest(d)
    ensures |SumText(d)| == 41 && '\n' !in SumText(d) && SumText(d)[0] == 'M'
    ensures SumText(d)[8..40] == d
  {
  }

  /** Replacing sums neither makes nor removes a marker line. */
  lemma {:induction false} ReplacedMarker(s: string, bol: bool, d: string)
    requires IsDigest(d)
    ensures HasMarker(ReplaceSums(s, bol, d), bol) == HasMarker(s, bol)
    decreases |s|
  {
    if s != "" {
      if bol && IsSum(s) {
        SumNoNewline(s);
        SumTextShape(d);
        ReplacedMarker(s[41..], false, d);
        hide IsSum, SumText, IsDigest;
        HasMarkerLine(s[..41], s[41..], bol);
        HasMarkerLine(SumText(d), ReplaceSums(s[41..], false, d), bol);
        assert s == s[..41] + s[41..];
      } else {
        ReplacedMarker(s[1..], s[0] == '\n', d);
        ReplacedFirstLine(s[1..], d);
        var r := ReplaceSums(s[1..], s[0] == '\n', d);
        FirstLineCons(s[0], r);
        FirstLineCons(s[0], s[1..]);
        HasMarkerCons(s[0], r, bol);
        HasMarkerCons(s[0], s[1..], bol);
        hide HasMarker, FirstLine, IsMarkerLine, IsSum;
        assert s == [s[0]] + s[1..];
      }
    }
  }

  // ---- the sums after replacing ----

  predicate SumsAre(s: string, bol: bool, d: string) {
    s == "" || ((bol && IsSum(s) ==> s[8..40] == d) && SumsAre(s[1..], s[0] == '\n', d))
  }

  lemma SumsCons(x: char, s: string, bol: bool, d: string)
    requires bol && IsSum([x] + s) ==> ([x] + s)[8..40] == d
    requires SumsAre(s, x == '\n', d)
    ensures SumsAre([x] + s, bol, d)
  {
    assert ([x] + s)[1..] == s;
  }

  /** Whether a line has a sum is decided by that line. */
  lemma IsSumLine(s: string)
    ensures IsSum(s) <==> IsSum(FirstLine(s))
  {
    FirstLineMeans(s);
    if IsSum(s) {
      SumNoNewline(s);
      FirstLineAppend(s[..41], s[41..]);
      assert s == s[..41] + s[41..];
      assert FirstLine(s)[..7] == s[..7];
    }
    if IsSum(FirstLine(s)) {
      assert FirstLine(s)[..7] == s[..7];
    }
  }

  lemma {:induction false} SumsSkip(w: string, s: string, d: string)
    requires '\n' !in w && SumsAre(s, false, d)
    ensures SumsAre(w + s, false, d)
  {
    if w == "" {
      assert w + s == s;
    } else {
      SumsSkip(w[1..], s, d);
      hide IsSum;
      SumsCons(w[0], w[1..] + s, false, d);
      assert w + s == [w[0]] + (w[1..] + s);
    }
  }

  lemma {:induction false} SumsReplaced(s: string, bol: bool, d: string)
    requires IsDigest(d)
    ensures SumsAre(ReplaceSums(s, bol, d), bol, d)
    decreases |s|
  {
    if s != "" {
      if bol && IsSum(s) {
        SumsReplaced(s[41..], false, d);
        SumTextShape(d);
        SumFirst(SumText(d), ReplaceSums(s[41..], false, d), d);
      } else {
        SumsReplaced(s[1..], s[0] == '\n', d);
        NotSum(s, bol, d);
        hide SumsAre, IsSum;
        SumsCons(s[0], ReplaceSums(s[1..], s[0] == '\n', d), bol, d);
      }
    }
  }

  lemma SumFirst(w: string, s: string, d: string)
    requires |w| == 41 && '\n' !in w && w[8..40] == d && SumsAre(s, false, d)
    ensures SumsAre(w + s, true, d)
  {
    SumsSkip(w[1..], s, d);
    hide IsSum, SumsAre;
    assert (w + s)[8..40] == w[8..40];
    assert w + s == [w[0]] + (w[1..] + s);
    SumsCons(w[0], w[1..] + s, true, d);
  }

  lemma NotSum(s: string, bol: bool, d: string)
    requires s != "" && !(bol && IsSum(s))
    ensures !(bol && IsSum([s[0]] + ReplaceSums(s[1..], s[0] == '\n', d)))
  {
    if bol {
      var r := ReplaceSums(s[1..], s[0] == '\n', d);
      IsSumLine(s);
      IsSumLine([s[0]] + r);
      ReplacedFirstLine(s[1..], d);
      FirstLineCons(s[0], r);
      FirstLineCons(s[0], s[1..]);
      hide FirstLine, IsSum, ReplaceSums;
      assert s == [s[0]] + s[1..];
    }
  }

  lemma {:induction false} SumsEndLine(s: string, bol: bool, d: string)
    requires SumsAre(s, bol, d)
    ensures SumsAre(s + "\n", bol, d)
  {
    IsSumLine(s);
    IsSumLine(s + "\n");
    FirstLineEnd(s);
    hide FirstLine;
    if s == "" {
      assert s + "\n" == ['\n'] + "";
      SumsCons('\n', "", bol, d);
    } else {
      SumsEndLine(s[1..], s[0] == '\n', d);
      assert s + "\n" == [s[0]] + (s[1..] + "\n");
      assert |s| >= 41 ==> (s + "\n")[8..40] == s[8..40];
      SumsCons(s[0], s[1..] + "\n", bol, d);
    }
  }

  lemma {:induction false} SumsMean(s: string, i: nat, d: string)
    requires SumsAre(s, true, d) && i <= |s|
    ensures SumsAre(s[i..], LineStart(s, i), d)
  {
    if i == 0 {
      assert s[0..] == s;
    } else {
      SumsMean(s, i - 1, d);
      assert s[i - 1..][1..] == s[i..];
    }
  }

  /** Every sum in the new header, at whatever line, is the digest given. */
  lemma SumsMatch(h: string, d: string, i: nat)
    requires IsDigest(d)
    requires i <= |EndLine(ReplaceSums(h, true, d))|
    requires LineStart(EndLine(ReplaceSums(h, true, d)), i) && IsSum(EndLine(ReplaceSums(h, true, d))[i..])
    ensures EndLine(ReplaceSums(h, true, d))[i + 8..i + 40] == d
  {
    var r := ReplaceSums(h, true, d);
    SumsReplaced(h, true, d);
    SumsEndLine(r, true, d);
    hide ReplaceSums, SumsAre, IsSum, IsDigest;
    SumsOf(EndLine(r), i, d);
  }

  lemma SumsOf(e: string, i: nat, d: string)
    requires SumsAre(e, true, d) && i <= |e| && LineStart(e, i) && IsSum(e[i..])
    ensures i + 40 <= |e| && e[i + 8..i + 40] == d
  {
    SumsMean(e, i, d);
    assert e[i..][8..40] == e[i + 8..i + 40];
  }

  // ---- substituting rack addresses ----

  lemma {:induction false} SubstitutedFirstLine(s: string, base: string)
    requires ':' in base && '\n' !in base
    ensures ':' in FirstLine(Substitute(s, base)) || FirstLine(Substitute(s, base)) == FirstLine(s)
    decreases |s|
  {
    if s != "" {
      match MatchHere(s)
      case Some(n) =>
        FirstLineAppend(base, Substitute(s[n..], base));
      case None =>
        SubstitutedFirstLine(s[1..], base);
        FirstLineCons(s[0], Substitute(s[1..], base));
        FirstLineCons(s[0], s[1..]);
        hide MatchHere, FirstLine;
        SubstituteAt(s, base);
        assert s == [s[0]] + s[1..];
    }
  }

  lemma MatchNoNewline(s: string, n: nat)
    requires MatchHere(s) == Some(n)
    ensures n <= |s| && n > 0 && '\n' !in s[..n] && s[0] == 'h'
  {
    MatchMeans(s, n);
    hide MatchHere;
    assert forall i :: 0 <= i < 7 ==> s[i] == SCHEME[i] != '\n';
  }

  lemma MarkerNoColon(l: string)
    requires IsMarkerLine(l)
    ensures ':' !in l
  {
  }

  /** Substituting rack addresses makes no marker line. */
  lemma {:induction false} SubstitutedMarker(s: string, bol: bool, base: string)
    requires ':' in base && '\n' !in base && base[0] != '_'
    ensures HasMarker(Substitute(s, base), bol) ==> HasMarker(s, bol)
    decreases |s|
  {
    if s != "" {
      SubstituteAt(s, base);
      match MatchHere(s)
      case Some(n) =>
        MatchNoNewline(s, n);
        SubstitutedMarker(s[n..], false, base);
        hide MatchHere, Substitute, HasMarker;
        HasMarkerLine(base, Substitute(s[n..], base), bol);
        HasMarkerLine(s[..n], s[n..], bol);
        assert s == s[..n] + s[n..];
      case None =>
        SubstitutedMarker(s[1..], s[0] == '\n', base);
        SubstitutedFirstLine(s, base);
        var r := Substitute(s[1..], base);
        HasMarkerCons(s[0], r, bol);
        HasMarkerCons(s[0], s[1..], bol);
        hide MatchHere, Substitute, HasMarker, FirstLine;
        if IsMarkerLine(FirstLine([s[0]] + r)) {
          MarkerNoColon(FirstLine([s[0]] + r));
        }
        hide IsMarkerLine;
        assert s == [s[0]] + s[1..];
    }
  }

  // ---- the results ----

  lemma NewHeaderMarker(c: Codecs, sub: string -> string, header: string, gz: seq<byte>)
    requires CodecsOk(c)
    ensures IsDigest(c.digest(gz))
    ensures FindMarker(EndLine(NewHeader(c, sub, header, gz)), 0).None? <==> FindMarker(sub(header), 0).None?
  {
    assert IsDigest(c.digest(gz));
    var r := NewHeader(c, sub, header, gz);
    ReplacedMarker(sub(header), true, c.digest(gz));
    EndLineMarker(r, true);
    hide CodecsOk, IsDigest, HasMarker, ReplaceSums, FindMarker;
    HasMarkerMeans(EndLine(r), 0);
    HasMarkerMeans(sub(header), 0);
    assert EndLine(r)[0..] == EndLine(r);
    assert sub(header)[0..] == sub(header);
  }

  /** A rewritten archive reads back with every entry rewritten, and with the substituted
      header, exactly when the substitutions made no marker line in the header. */
  lemma RewrittenReadsBack(c: Codecs, sub: string -> string, input: string, p: Parts, gz: seq<byte>)
    requires CodecsOk(c) && ReadArchive(c, input) == Some(p) && Repacked(c, sub, p) == Some(gz)
    ensures ReadArchive(c, Rewrite(c, sub, input))
         == Some(Parts(EndLine(NewHeader(c, sub, p.header, gz)), gz, MappedAll(p.entries, sub)))
       <==> FindMarker(sub(p.header), 0).None?
  {
    NotEmpty(c, input);
    AllOrNothing(c, sub, input);
    NewHeaderMarker(c, sub, p.header, gz);
    hide CodecsOk, MappedAll, FindMarker, NewHeader, Assemble, ReadArchive, Rewrite;
    AssembledReadsBack(c, NewHeader(c, sub, p.header, gz), MappedAll(p.entries, sub));
  }

  lemma NotEmpty(c: Codecs, input: string)
    ensures ReadArchive(c, input).Some? ==> input != ""
  {
  }

  /** Then every sum in the header that is read is the digest of the payload that is read. */
  lemma RewrittenSums(c: Codecs, sub: string -> string, input: string, p: Parts, gz: seq<byte>, q: Parts, i: nat)
    requires CodecsOk(c) && ReadArchive(c, input) == Some(p) && Repacked(c, sub, p) == Some(gz)
    requires FindMarker(sub(p.header), 0).None? && ReadArchive(c, Rewrite(c, sub, input)) == Some(q)
    requires i <= |q.header| && LineStart(q.header, i) && IsSum(q.header[i..])
    ensures q.header[i + 8..i + 40] == c.digest(q.gz)
  {
    RewrittenReadsBack(c, sub, input, p, gz);
    NewHeaderMarker(c, sub, p.header, gz);
    hide CodecsOk, FindMarker, ReadArchive, Rewrite, IsSum, EndLine, IsDigest;
    SumsMatch(sub(p.header), c.digest(gz), i);
  }

  /** Before the first marker line there is none. */
  lemma NoneBefore(s: string, start: nat, i: nat)
    requires FindMarker(s, 0).Some? && FindMarker(s, 0).value.0 == start && i <= start
    ensures MarkerAt(s[..start], i).None?
  {
    if i < start {
      assert s[..start] + s[start..] == s;
      hide FindMarker;
      MarkerInLines(s[..start], s[start..], i);
    }
  }

  /** The header of an archive has no marker line: the first one ends it. */
  lemma HeaderClean(c: Codecs, input: string)
    ensures ReadArchive(c, input).Some? ==> !HasMarker(ReadArchive(c, input).value.header, true)
  {
    if ReadArchive(c, input).Some? {
      var start := FindMarker(input, 0).value.0;
      var h := input[..start];
      assert h == ReadArchive(c, input).value.header;
      hide ReadArchive, MarkerAt, HasMarker;
      forall i | 0 <= i <= |h|
        ensures MarkerAt(h, i).None?
      {
        NoneBefore(input, start, i);
      }
      HasMarkerMeans(h, 0);
      assert h[0..] == h;
    }
  }

  /** A proxy address with a scheme, on one line; or none, and then nothing is substituted. */
  predicate IsAddress(base: string) {
    base == "" || (':' in base && '\n' !in base && '$' !in base && base[0] != '_')
  }

  /** Without configured rules the archive always reads back. */
  lemma ProxyArchive(c: Codecs, base: string, input: string, p: Parts, gz: seq<byte>)
    requires CodecsOk(c) && IsAddress(base) && ReadArchive(c, input) == Some(p)
    requires Repacked(c, Subs(base, []), p) == Some(gz)
    ensures ReadArchive(c, Rewrite(c, Subs(base, []), input)) ==
      Some(Parts(EndLine(NewHeader(c, Subs(base, []), p.header, gz)), gz, MappedAll(p.entries, Subs(base, []))))
  {
    var sub := Subs(base, []);
    HeaderClean(c, input);
    if base != "" {
      SubstitutedMarker(p.header, true, base);
    }
    HasMarkerMeans(sub(p.header), 0);
    assert sub(p.header)[0..] == sub(p.header);
    assert sub(p.header) == if base != "" then Substitute(p.header, base) else p.header;
    hide CodecsOk, MappedAll, FindMarker, NewHeader, ReadArchive, Rewrite, HasMarker, Substitute, Subs;
    RewrittenReadsBack(c, sub, input, p, gz);
  }

  // ---- a rule that breaks an archive ----

  const MARKING: seq<Rule> := [Rule("#", MARKER)]

  lemma Marking()
    ensures Subs("", MARKING)("#\n") == MARKER + "\n"
  {
    var nl, h := "\n", "#\n";
    assert nl[0] != '#' && h[0] == '#' && h[1..] == nl && nl[1..] == "";
    assert !("#" <= nl) && "#" <= h;
    assert ReplaceAll("", "#", MARKER) == "";
    assert ReplaceAll(nl, "#", MARKER) == [nl[0]] + "";
    assert ReplaceAll(h, "#", MARKER) == MARKER + nl;
    assert |MARKING| == 1 && MARKING[0] == Rule("#", MARKER) && MARKING[..0] == [];
    assert ApplyRules(h, []) == h;
    assert ApplyRules(h, MARKING) == ApplyRule(ApplyRules(h, MARKING[..0]), MARKING[0]);
    assert ApplySubs(h, "", MARKING) == ApplyRules(h, MARKING);
  }

  /** An archive with the header line #, and the rule that replaces # by the marker: the archive
      reads well, its rewritten form does not. */
  lemma RuleBreaksArchive(c: Codecs)
    requires CodecsOk(c) && c.pack([]).Some?
    ensures var sub, gz := Subs("", MARKING), c.pack([]).value;
      var input := Assemble("#\n", c.encode(gz));
      && ReadArchive(c, input) == Some(Parts("#\n", gz, []))
      && Repacked(c, sub, Parts("#\n", gz, [])) == Some(gz)
      && ReadArchive(c, Rewrite(c, sub, input)) != Some(Parts(EndLine(NewHeader(c, sub, "#\n", gz)), gz, []))
  {
    var sub, gz := Subs("", MARKING), c.pack([]).value;
    NoMarkerThere();
    Marking();
    assert FindMarker(sub("#\n"), 0).Some?;
    assert MappedAll([], sub) == [];
    assert EndLine("#\n") == "#\n";
    hide CodecsOk, ReadArchive, Assemble, Rewrite, NewHeader, EndLine, FindMarker, MappedAll, Subs;
    AssembledReadsBack(c, "#\n", []);
    RewrittenReadsBack(c, sub, Assemble("#\n", c.encode(gz)), Parts("#\n", gz, []), gz);
  }

  lemma NoMarkerThere()
    ensures FindMarker("#\n", 0).None? && FindMarker(MARKER + "\n", 0).Some?
  {
    var s := MARKER + "\n";
    assert s[0..] == s && |s| == 18 && s[17] == '\n';
    assert MarkerAt(s, 0) == Some(17);
  }
}
