/** What rewriting does to the checksum lines of an archive's header and to its entries. */
module PayloadSums {
  import opened Bytes
  import opened Wrappers
  import opened LineWrap
  import opened PayloadArchive
  import PayloadTheorems

  const HEX: set<char> :=
    {'0', '1', '2', '3', '4', '5', '6', '7', '8', '9', 'a', 'b', 'c', 'd', 'e', 'f', 'A', 'B', 'C', 'D', 'E', 'F'}

  /** A line starts at j; bol says whether s begins one. */
  ghost predicate StartsLine(s: string, bol: bool, j: nat)
    requires j <= |s|
  {
    if j == 0 then bol else s[j - 1] == '\n'
  }

  /** At j a line starts with MD5SUM= and 32 hexadecimal digits between quotes. */
  ghost predicate SumAt(s: string, bol: bool, j: nat) {
    && j + 41 <= |s| && StartsLine(s, bol, j) && s[j..j + 7] == "MD5SUM="
    && s[j + 7] in "'\"" && s[j + 40] in "'\"" && forall i :: j + 8 <= i < j + 40 ==> s[i] in HEX
  }

  lemma HexMeans(c: char)
    ensures IsHex(c) <==> c in HEX
  {
  }

  lemma SumMeans(s: string)
    ensures IsSum(s) <==> SumAt(s, true, 0)
  {
    if |s| >= 41 {
      assert s[0..7] == s[..7];
      forall i | 0 <= i < |s| ensures IsHex(s[i]) <==> s[i] in HEX { HexMeans(s[i]); }
    }
  }

  lemma SumLater(s: string, t: string, k: nat, bol: bool, bolT: bool, j: nat)
    requires k >= 1 && k <= |s| && t == s[k..] && bolT == (s[k - 1] == '\n') && j >= k
    ensures SumAt(s, bol, j) <==> SumAt(t, bolT, j - k)
  {
    if j + 41 <= |s| {
      assert s[j..j + 7] == t[j - k..j - k + 7];
      assert forall i :: k <= i < |s| ==> s[i] == t[i - k];
    }
  }

  lemma NoOverlap(s: string, bol: bool, j: nat)
    requires IsSum(s) && 1 <= j < 41
    ensures !SumAt(s, bol, j)
  {
    PayloadTheorems.SumNoNewline(s);
    assert s[j - 1] == s[..41][j - 1];
    hide IsSum;
  }

  lemma QuoteNotNewline(s: string)
    requires IsSum(s)
    ensures s[40] != '\n'
  {
  }

  lemma SumLength(d: string)
    requires |d| == 32
    ensures |SumText(d)| == 41
  {
  }

  lemma {:induction false} ReplacedLength(s: string, bol: bool, d: string)
    requires |d| == 32
    ensures |ReplaceSums(s, bol, d)| == |s|
    decreases |s|
  {
    SumLength(d);
    hide IsSum, SumText;
    if s != "" {
      if bol && IsSum(s) {
        SumSized(s);
        ReplacedLength(s[41..], false, d);
      } else {
        ReplacedLength(s[1..], s[0] == '\n', d);
      }
    }
  }

  lemma SumSized(s: string)
    requires IsSum(s)
    ensures |s| >= 41
  {
  }

  lemma InTail<T>(a: seq<T>, b: seq<T>, j: nat, n: nat)
    requires j >= |a| && j + n <= |a| + |b|
    ensures (a + b)[j..j + n] == b[j - |a|..j - |a| + n]
  {
  }

  /** Every checksum line gets the new digest, in single quotes. */
  lemma {:induction false} SumReplaced(s: string, bol: bool, d: string, j: nat)
    requires |d| == 32 && SumAt(s, bol, j)
    ensures j + 41 <= |ReplaceSums(s, bol, d)| && ReplaceSums(s, bol, d)[j..j + 41] == "MD5SUM='" + d + "'"
    decreases |s|
  {
    SumLength(d);
    SumMeans(s);
    ReplacedLength(s, bol, d);
    if bol && IsSum(s) {
      var r := ReplaceSums(s[41..], false, d);
      if j == 0 {
        assert (SumText(d) + r)[0..41] == SumText(d);
      } else {
        if j < 41 {
          NoOverlap(s, bol, j);
          assert false;
        }
        QuoteNotNewline(s);
        SumLater(s, s[41..], 41, bol, false, j);
        hide SumAt, IsSum;
        SumReplaced(s[41..], false, d, j - 41);
        InTail(SumText(d), r, j, 41);
      }
    } else {
      var r := ReplaceSums(s[1..], s[0] == '\n', d);
      SumLater(s, s[1..], 1, bol, s[0] == '\n', j);
      hide SumAt, IsSum;
      SumReplaced(s[1..], s[0] == '\n', d, j - 1);
      InTail([s[0]], r, j, 41);
    }
  }

  /** Everything outside the checksum lines stays where it is. */
  lemma {:induction false} ElseKept(s: string, bol: bool, d: string, i: nat)
    requires |d| == 32 && i < |s| && forall j: nat :: j <= i < j + 41 ==> !SumAt(s, bol, j)
    ensures i < |ReplaceSums(s, bol, d)| && ReplaceSums(s, bol, d)[i] == s[i]
    decreases |s|
  {
    SumLength(d);
    SumMeans(s);
    ReplacedLength(s, bol, d);
    if bol && IsSum(s) {
      assert i >= 41 by {
        assert SumAt(s, bol, 0);
      }
      QuoteNotNewline(s);
      hide IsSum, SumText;
      forall j: nat | j <= i - 41 < j + 41
        ensures !SumAt(s[41..], false, j)
      {
        SumLater(s, s[41..], 41, bol, false, j + 41);
      }
      ElseKept(s[41..], false, d, i - 41);
    } else if i > 0 {
      hide IsSum;
      var t, broken := s[1..], s[0] == '\n';
      forall j: nat | j <= i - 1 < j + 41
        ensures !SumAt(t, broken, j)
      {
        SumLater(s, t, 1, bol, broken, j + 1);
      }
      ElseKept(t, broken, d, i - 1);
    }
  }

  /** A rewritten entry: its header stays but for the size, which is that of its content; a regular
      file is substituted, anything else stays as it is. */
  lemma EntryMeans(es: seq<TarEntry>, sub: string -> string, i: nat)
    requires i < |es|
    ensures var e, r := es[i], MappedAll(es, sub)[i];
      && r.meta == e.meta && r.regular == e.regular
      && (e.regular ==> r.content == sub(e.content) && r.size == |r.content|)
      && (!e.regular ==> r == e)
  {
  }

  /** Only input with a marker line whose payload decodes to gzip data is opened; the header is
      the text before the first marker line. */
  lemma OpenedMeans(c: Codecs, s: string)
    requires ReadArchive(c, s).Some?
    ensures var p := ReadArchive(c, s).value;
      && p.header <= s && MarkerAt(s, |p.header|).Some? && (forall j :: 0 <= j < |p.header| ==> MarkerAt(s, j).None?)
      && |p.gz| >= 2 && p.gz[..2] == [0x1f, 0x8b]
  {
    hide MarkerAt, Strip;
    assert FindMarker(s, 0).Some?;
  }

  /** An assembled archive: the header, the marker on a line of its own, and the payload on lines of
      76 characters and a last shorter one. */
  lemma AssembledLines(header: string, text: string)
    ensures Assemble(header, text) == EndLine(EndLine(header) + "_____PAYLOAD_____" + "\n" + ByLines(text, 76))
  {
    LinesExact(text, 76);
    hide Wrapped, ByLines, EndLine;
  }
}
