/** ASCII text helpers shared by the printers and readers. */
module Text {

  function LowerChar(c: char): char {
    if 'A' <= c <= 'Z' then (c as int + 32) as char else c
  }

  /** ASCII lower case. */
  function ToLower(s: string): (r: string)
    ensures |r| == |s|
    ensures forall i :: 0 <= i < |s| ==> r[i] == LowerChar(s[i])
  {
    seq(|s|, i requires 0 <= i < |s| => LowerChar(s[i]))
  }

  /** The space, and the tab, newline, vertical tab, form feed and carriage return. */
  predicate IsSpace(c: char) {
    c == ' ' || '\t' <= c <= '\r'
  }

  /** s without the slashes at its end. */
  function TrimSlashes(s: string): (r: string)
    ensures r <= s && (r == "" || r[|r| - 1] != '/')
  {
    if s != "" && s[|s| - 1] == '/' then TrimSlashes(s[..|s| - 1]) else s
  }

  function TrimLeft(s: string): (r: string)
    ensures r == "" || !IsSpace(r[0])
  {
    if s != "" && IsSpace(s[0]) then TrimLeft(s[1..]) else s
  }

  function TrimEnd(s: string): (r: string)
    ensures r <= s && (r == "" || !IsSpace(r[|r| - 1]))
  {
    if s != "" && IsSpace(s[|s| - 1]) then TrimEnd(s[..|s| - 1]) else s
  }

  function TrimSpace(s: string): string {
    TrimEnd(TrimLeft(s))
  }

  /** Two characters that differ at most in ASCII case. */
  ghost predicate SameLetter(a: char, b: char) {
    || a == b
    || (65 <= a as int <= 90 && b as int == a as int + 32)
    || (65 <= b as int <= 90 && a as int == b as int + 32)
  }

  ghost predicate SameLetters(a: string, b: string) {
    |a| == |b| && forall i :: 0 <= i < |a| ==> SameLetter(a[i], b[i])
  }

  /** Lower case identifies exactly the texts that differ at most in ASCII case. */
  lemma LowerMeans(a: string, b: string)
    ensures ToLower(a) == ToLower(b) <==> SameLetters(a, b)
  {
    var x, y := ToLower(a), ToLower(b);
    forall i | 0 <= i < |a| && i < |b|
      ensures x[i] == y[i] <==> SameLetter(a[i], b[i])
    {
      LowerCharMeans(a[i], b[i]);
    }
    if x == y {
      assert forall i :: 0 <= i < |a| ==> x[i] == y[i];
    }
  }

  lemma LowerCharMeans(a: char, b: char)
    ensures LowerChar(a) == LowerChar(b) <==> SameLetter(a, b)
  {
  }

  ghost predicate White(c: char) { c as int in {9, 10, 11, 12, 13, 32} }

  ghost predicate Blank(s: string) { forall i :: 0 <= i < |s| ==> White(s[i]) }

  /** s starts and ends, if it is not empty, with something other than white space. */
  ghost predicate Tight(s: string) { s != "" ==> !White(s[0]) && !White(s[|s| - 1]) }

  lemma {:induction false} TrimLeftParts(s: string) returns (p: string)
    ensures Blank(p) && s == p + TrimLeft(s) && (TrimLeft(s) != "" ==> !White(TrimLeft(s)[0]))
    decreases |s|
  {
    if s != "" && IsSpace(s[0]) {
      p := TrimLeftParts(s[1..]);
      p := [s[0]] + p;
    } else {
      p := "";
    }
  }

  lemma {:induction false} TrimEndParts(s: string) returns (q: string)
    ensures Blank(q) && s == TrimEnd(s) + q && (TrimEnd(s) != "" ==> !White(TrimEnd(s)[|TrimEnd(s)| - 1]))
    decreases |s|
  {
    if s != "" && IsSpace(s[|s| - 1]) {
      q := TrimEndParts(s[..|s| - 1]);
      q := q + [s[|s| - 1]];
    } else {
      q := "";
    }
  }

  /** Trimming takes white space off both ends and nothing else, and leaves none there. */
  lemma TrimParts(s: string) returns (p: string, q: string)
    ensures Blank(p) && Blank(q) && s == p + TrimSpace(s) + q && Tight(TrimSpace(s))
  {
    p := TrimLeftParts(s);
    q := TrimEndParts(TrimLeft(s));
    hide TrimLeft, TrimEnd;
    var t, l := TrimSpace(s), TrimLeft(s);
    assert t != "" ==> t[0] == l[0];
  }

  lemma TightUnique(p: string, m: string, q: string, p': string, m': string, q': string)
    requires Blank(p) && Blank(q) && Blank(p') && Blank(q') && Tight(m) && Tight(m') && p + m + q == p' + m' + q'
    requires m != "" && m' != ""
    ensures |p| >= |p'| && |p| + |m| <= |p'| + |m'|
  {
    var s := p + m + q;
    assert s[|p|] == m[0] && s[|p| + |m| - 1] == m[|m| - 1];
    forall i | 0 <= i < |p'|
      ensures White(s[i])
    {
      assert s[i] == p'[i];
    }
    forall i | |p'| + |m'| <= i < |s|
      ensures White(s[i])
    {
      assert s[i] == q'[i - |p'| - |m'|];
    }
  }

  lemma NotBlank(p: string, m: string, q: string)
    requires Tight(m) && m != ""
    ensures !Blank(p + m + q)
  {
    assert (p + m + q)[|p|] == m[0];
  }

  lemma BlankParts(p: string, m: string, q: string)
    requires Blank(p) && Blank(q) && m == ""
    ensures Blank(p + m + q)
  {
  }

  lemma Middle(p: string, m: string, q: string, p': string, m': string, q': string)
    requires p + m + q == p' + m' + q' && |p| == |p'| && |m| == |m'|
    ensures m == m'
  {
    assert m == (p + m + q)[|p|..|p| + |m|];
    assert m' == (p' + m' + q')[|p'|..|p'| + |m'|];
  }

  /** White space around a text does not survive trimming. */
  lemma TrimIs(p: string, m: string, q: string)
    requires Blank(p) && Blank(q) && Tight(m)
    ensures TrimSpace(p + m + q) == m
  {
    var s := p + m + q;
    var a, b := TrimParts(s);
    var t := TrimSpace(s);
    hide TrimSpace, Blank;
    if m == "" {
      BlankParts(p, m, q);
      if t != "" {
        NotBlank(a, t, b);
        assert false;
      }
    } else {
      if t == "" {
        BlankParts(a, t, b);
        NotBlank(p, m, q);
        assert false;
      }
      TightUnique(p, m, q, a, t, b);
      TightUnique(a, t, b, p, m, q);
      Middle(p, m, q, a, t, b);
    }
  }

  /** Only slashes go. */
  lemma {:induction false} TrimSlashesParts(s: string)
    ensures TrimSlashes(s) <= s && forall i :: |TrimSlashes(s)| <= i < |s| ==> s[i] == '/'
    decreases |s|
  {
    if s != "" && s[|s| - 1] == '/' {
      TrimSlashesParts(s[..|s| - 1]);
    }
  }

  /** Decimal digits of n. */
  function Dec(n: nat): (s: string)
    ensures |s| >= 1
    ensures forall i :: 0 <= i < |s| ==> '0' <= s[i] <= '9'
  {
    if n < 10 then [DigitChar(n)] else Dec(n / 10) + [DigitChar(n % 10)]
  }

  function DigitChar(d: nat): (c: char)
    requires d < 10
    ensures '0' <= c <= '9' && c as int == d + 48
  {
    (d + 48) as char
  }

  lemma {:induction false} DecLength(n: nat)
    ensures |Dec(n)| == 1 <==> n < 10
  {
  }

  lemma {:induction false} DecInjective(m: nat, n: nat)
    requires Dec(m) == Dec(n)
    ensures m == n
    decreases m
  {
    DecLength(m);
    DecLength(n);
    if m >= 10 {
      var a, b := Dec(m), Dec(n);
      assert a[..|a| - 1] == Dec(m / 10) && b[..|b| - 1] == Dec(n / 10);
      DecInjective(m / 10, n / 10);
      assert a[|a| - 1] == DigitChar(m % 10) && b[|b| - 1] == DigitChar(n % 10);
      assert m % 10 == n % 10;
    } else {
      assert Dec(m)[0] as int == m + 48 && Dec(n)[0] as int == n + 48;
    }
  }

  // ---- words ----

  /** Words separated by single spaces. */
  function Join(ws: seq<string>): string {
    if ws == [] then "" else if |ws| == 1 then ws[0] else ws[0] + " " + Join(ws[1..])
  }

  predicate NoSpace(s: string) { forall i :: 0 <= i < |s| ==> !IsSpace(s[i]) }

  predicate OneLine(s: string) { '\n' !in s }

  predicate IsWord(w: string) { w != "" && NoSpace(w) }

  /** A line cut at its white space; w is the word being read. */
  function Tokens(line: string, w: string): (ws: seq<string>)
    decreases |line|
  {
    if line == "" then (if w == "" then [] else [w])
    else if IsSpace(line[0]) then (if w == "" then [] else [w]) + Tokens(line[1..], "")
    else Tokens(line[1..], w + [line[0]])
  }

  lemma {:induction false} TokensWord(a: string, rest: string, w: string)
    requires NoSpace(a)
    ensures Tokens(a + rest, w) == Tokens(rest, w + a)
    decreases |a|
  {
    if a == "" {
      assert a + rest == rest && w + a == w;
    } else {
      TokensWord(a[1..], rest, w + [a[0]]);
      assert (a + rest)[1..] == a[1..] + rest;
      assert w + [a[0]] + a[1..] == w + a;
    }
  }

  /** Proper words joined by spaces read back as those words. */
  lemma {:induction false} TokensJoin(ws: seq<string>)
    requires forall i :: 0 <= i < |ws| ==> IsWord(ws[i])
    ensures Tokens(Join(ws), "") == ws
    decreases |ws|
  {
    if |ws| == 1 {
      TokensWord(ws[0], "", "");
      assert ws[0] + "" == ws[0] && "" + ws[0] == ws[0];
    } else if |ws| > 1 {
      var rest := " " + Join(ws[1..]);
      TokensJoin(ws[1..]);
      TokensWord(ws[0], rest, "");
      assert ws[0] + " " + Join(ws[1..]) == ws[0] + rest && "" + ws[0] == ws[0];
      assert rest[1..] == Join(ws[1..]);
    }
  }

  /** A line can be cut at any of its spaces first. */
  lemma {:induction false} TokensSplit(a: string, b: string, w: string)
    ensures Tokens(a + " " + b, w) == Tokens(a, w) + Tokens(b, "")
    decreases |a|
  {
    var s := a + " " + b;
    if a == "" {
      assert s[1..] == b;
    } else {
      assert s[1..] == a[1..] + " " + b;
      if IsSpace(a[0]) {
        TokensSplit(a[1..], b, "");
      } else {
        TokensSplit(a[1..], b, w + [a[0]]);
      }
    }
  }

  lemma NoSpaceConcat(a: string, b: string)
    ensures NoSpace(a + b) <==> NoSpace(a) && NoSpace(b)
  {
    if NoSpace(a + b) {
      assert forall i :: 0 <= i < |a| ==> a[i] == (a + b)[i];
      assert forall i :: 0 <= i < |b| ==> b[i] == (a + b)[|a| + i];
    }
  }

  /** Text cut at every c, empty pieces kept. */
  function Cut(s: string, c: char): (r: seq<string>)
    ensures |r| >= 1
    decreases |s|
  {
    if s == "" then [""]
    else if s[0] == c then [""] + Cut(s[1..], c)
    else
      var r := Cut(s[1..], c);
      [[s[0]] + r[0]] + r[1..]
  }

  lemma CutCons(x: char, s: string, c: char)
    ensures Cut([x] + s, c) == if x == c then [""] + Cut(s, c) else [[x] + Cut(s, c)[0]] + Cut(s, c)[1..]
  {
    assert ([x] + s)[1..] == s;
  }

  lemma Around<T>(a: seq<T>, c: T, rest: seq<T>)
    ensures a + [c] + rest == if a == [] then [c] + rest else [a[0]] + (a[1..] + [c] + rest)
    ensures a == if a == [] then [] else [a[0]] + a[1..]
  {
  }

  lemma FirstReplaced<T>(x: T, p: seq<T>, q: seq<T>)
    requires p != []
    ensures [x] + (p + q)[1..] == [x] + p[1..] + q && (p + q)[0] == p[0]
  {
  }

  lemma CutEmpty(c: char)
    ensures Cut("", c) == [""]
  {
  }

  /** Text cut around a c is cut in two. */
  lemma {:induction false} CutConcat(a: string, rest: string, c: char)
    ensures Cut(a + [c] + rest, c) == Cut(a, c) + Cut(rest, c)
    decreases |a|
  {
    hide Cut;
    Around(a, c, rest);
    if a == "" {
      CutEmpty(c);
      CutCons(c, rest, c);
    } else {
      CutConcat(a[1..], rest, c);
      CutCons(a[0], a[1..], c);
      CutCons(a[0], a[1..] + [c] + rest, c);
      var p, q := Cut(a[1..], c), Cut(rest, c);
      FirstReplaced([a[0]] + p[0], p, q);
      FirstReplaced("", [""] + p, q);
    }
  }
}
