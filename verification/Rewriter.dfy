/** Replacing rack addresses in text: the regular expression http://<host>:5248 and its
    replacement by the proxy address. */
module Rewriter {
  import opened Wrappers

  const SCHEME := "http://"
  const PORT := ":5248"

  /** A character of the host part: no slash, colon, white space or quote. */
  predicate IsHostChar(c: char) {
    c != '/' && c != ':' && c != ' ' && !('\t' <= c <= '\r') && c != '"' && c != '\'' && c != '`'
  }

  /** The number of host characters at the start of s. */
  function HostRun(s: string): (n: nat)
    ensures n <= |s|
    ensures forall i :: 0 <= i < n ==> IsHostChar(s[i])
    ensures n < |s| ==> !IsHostChar(s[n])
  {
    if s != "" && IsHostChar(s[0]) then
      var n := HostRun(s[1..]);
      assert forall i :: 0 < i < 1 + n ==> s[i] == s[1..][i - 1];
      1 + n
    else 0
  }

  /** The length of the match at the start of s, if there is one. */
  function MatchHere(s: string): (n: Option<nat>)
    ensures n.Some? ==> 13 <= n.value <= |s|
  {
    if !(SCHEME <= s) then None
    else
      var k := HostRun(s[7..]);
      if k >= 1 && PORT <= s[7 + k..] then Some(7 + k + 5) else None
  }

  /** ReplaceAll: leftmost matches first, not overlapping, base inserted as it is. That is what
      happens to a base without dollar signs; others refer to groups of the match. */
  function Substitute(s: string, base: string): (r: string)
    decreases |s|
  {
    if s == "" then ""
    else
      match MatchHere(s)
      case Some(n) => base + Substitute(s[n..], base)
      case None => [s[0]] + Substitute(s[1..], base)
  }

  /** A configured replacement. */
  datatype Rule = Rule(from: string, to: string)

  /** Every occurrence of from, leftmost first and not overlapping, replaced by to. */
  function ReplaceAll(s: string, from: string, to: string): (r: string)
    requires from != ""
    decreases |s|
  {
    if |s| < |from| then s
    else if from <= s then to + ReplaceAll(s[|from|..], from, to)
    else [s[0]] + ReplaceAll(s[1..], from, to)
  }

  function ApplyRule(s: string, rule: Rule): string {
    if rule.from == "" then s else ReplaceAll(s, rule.from, rule.to)
  }

  /** The rules in order, each on what the one before left. */
  function ApplyRules(s: string, rules: seq<Rule>): string {
    if rules == [] then s else ApplyRule(ApplyRules(s, rules[..|rules| - 1]), rules[|rules| - 1])
  }

  function ApplySubs(s: string, base: string, rules: seq<Rule>): string {
    ApplyRules(if base != "" then Substitute(s, base) else s, rules)
  }

  method SubstituteAll(text: string, base: string, rules: seq<Rule>) returns (data: string)
    ensures data == ApplySubs(text, base, rules)
  {
    data := text;
    if base != "" {
      data := Substitute(data, base);
    }
    ghost var start := data;
    for i := 0 to |rules|
      invariant data == ApplyRules(start, rules[..i])
    {
      if rules[i].from != "" {
        data := ReplaceAll(data, rules[i].from, rules[i].to);
      }
      assert rules[..i + 1][..i] == rules[..i];
    }
    assert rules[..|rules|] == rules;
  }

  ghost predicate Clean(s: string) {
    forall i :: 0 <= i <= |s| ==> MatchHere(s[i..]).None?
  }

  // ---- matches as a property of characters ----

  ghost predicate MatchTo(s: string, e: nat) {
    && 13 <= e <= |s| && SCHEME <= s
    && (forall i :: 7 <= i < e - 5 ==> IsHostChar(s[i]))
    && s[e - 5] == ':' && s[e - 4] == '5' && s[e - 3] == '2' && s[e - 2] == '4' && s[e - 1] == '8'
  }

  lemma MatchMeans(s: string, e: nat)
    ensures MatchHere(s) == Some(e) <==> MatchTo(s, e)
  {
    if SCHEME <= s {
      var t := s[7..];
      var k := HostRun(t);
      assert forall i :: 7 <= i < |s| ==> s[i] == t[i - 7];
      if MatchTo(s, e) {
        assert !IsHostChar(t[e - 12]);
        assert k < |t| ==> t[k] == s[k + 7];
        assert k == e - 12;
        assert s[7 + k..][0] == ':';
      }
      if 7 + k + 5 <= |s| {
        var u := s[7 + k..];
        assert u[0] == s[7 + k] && u[1] == s[8 + k] && u[2] == s[9 + k] && u[3] == s[10 + k] && u[4] == s[11 + k];
      }
    }
  }

  /** The part of s before its first match is copied; then comes the replacement. */
  function LiteralLen(s: string): (n: nat)
    ensures n <= |s|
    decreases |s|
  {
    if s == "" || MatchHere(s).Some? then 0 else 1 + LiteralLen(s[1..])
  }

  lemma {:induction false} SubstituteShape(s: string, base: string)
    ensures var n, r := LiteralLen(s), Substitute(s, base);
      && n <= |r| && r[..n] == s[..n]
      && (n == |s| ==> r == s)
      && (n < |s| ==> base <= r[n..])
    decreases |s|
  {
    hide MatchHere;
    if s != "" && MatchHere(s).None? {
      SubstituteShape(s[1..], base);
      ShiftShape(s[0], s[1..], Substitute(s[1..], base), LiteralLen(s[1..]));
      assert s == [s[0]] + s[1..];
    }
  }

  lemma ShiftShape(c: char, s: string, r: string, n: nat)
    requires n <= |r| && n <= |s| && r[..n] == s[..n]
    ensures ([c] + r)[..n + 1] == ([c] + s)[..n + 1] && ([c] + r)[n + 1..] == r[n..]
  {
  }

  // ---- replacing ----

  lemma {:induction false} SubstituteAt(s: string, base: string)
    requires s != ""
    ensures Substitute(s, base) ==
      if MatchHere(s).Some? then base + Substitute(s[MatchHere(s).value..], base) else [s[0]] + Substitute(s[1..], base)
  {
  }

  lemma MatchCopied(s: string, r: string, n: nat, e: nat)
    requires n <= |r| && n <= |s| && r[..n] == s[..n] && e <= n && MatchTo(r, e)
    ensures MatchTo(s, e)
  {
    assert forall i :: 0 <= i < n ==> r[i] == r[..n][i] && s[i] == s[..n][i];
  }

  lemma CleanCons(c: char, s: string)
    requires Clean(s) && MatchHere([c] + s).None?
    ensures Clean([c] + s)
  {
    var t := [c] + s;
    forall i | 0 <= i <= |t|
      ensures MatchHere(t[i..]).None?
    {
      if i == 0 {
        assert t[0..] == t;
      } else {
        assert t[i..] == s[i - 1..];
      }
    }
  }

  lemma CleanAppend(base: string, s: string)
    requires Clean(s) && forall i :: 0 <= i < |base| ==> MatchHere((base + s)[i..]).None?
    ensures Clean(base + s)
  {
    var t := base + s;
    forall i | 0 <= i <= |t|
      ensures MatchHere(t[i..]).None?
    {
      if i >= |base| {
        assert t[i..] == s[i - |base|..];
      }
    }
  }

  // ---- a fixed address ----

  const RACK := "http://x:5248"

  lemma RackAddress(rest: string)
    ensures MatchHere(RACK + rest) == Some(13)
  {
    var s := RACK + rest;
    assert s[7] == 'x' && IsHostChar('x');
    MatchMeans(s, 13);
  }

  /** No address starts after the start of an address. */
  lemma {:induction false} SuffixCopied(k: nat, base: string)
    requires 1 <= k <= 13
    ensures Substitute(RACK[k..], base) == RACK[k..]
    decreases 13 - k
  {
    if k < 13 {
      SuffixCopied(k + 1, base);
      assert |RACK[k..]| < 13;
      SubstituteAt(RACK[k..], base);
      assert RACK[k..][1..] == RACK[k + 1..];
    }
  }

  lemma RackCut(k: nat)
    requires 1 <= k <= 7
    ensures SCHEME[..k] + RACK[k..] == RACK
  {
    assert RACK[..7] == SCHEME;
    assert RACK[..k] == RACK[..7][..k];
    assert RACK[..k] + RACK[k..] == RACK;
  }

  // ---- bases that leave no address ----

  /** s begins an address: it has one at its start, or text that follows could complete one. */
  predicate Begins(s: string) {
    if |s| <= 7 then s <= SCHEME
    else if !(SCHEME <= s) then false
    else
      var k := HostRun(s[7..]);
      7 + k == |s| || (k >= 1 && (s[7 + k..] <= PORT || PORT <= s[7 + k..]))
  }

  /** No address can reach into base from before, or start in it. */
  ghost predicate Sealed(base: string) {
    && (forall i :: 0 <= i < |base| ==> !Begins(base[i..]))
    && (forall j :: 1 <= j < 13 ==> !Begins(RACK[..j] + base))
  }

  /** The characters of text that begins an address. */
  lemma BeginsMeans(s: string)
    requires |s| > 7 && SCHEME <= s
    ensures Begins(s) <==> exists k :: 0 <= k <= |s| - 7 && BeginsAt(s, k)
  {
    var t := s[7..];
    var k := HostRun(t);
    assert forall i :: 7 <= i < |s| ==> s[i] == t[i - 7];
    if Begins(s) {
      assert BeginsAt(s, k);
    }
    if m :| 0 <= m <= |s| - 7 && BeginsAt(s, m) {
      assert m <= k;
      assert m < k ==> !IsHostChar(s[7 + m]);
      assert m == k;
    }
  }

  /** A scheme, k host characters, and then the end, a part of the port, or the port. */
  ghost predicate BeginsAt(s: string, k: nat)
    requires 7 + k <= |s|
  {
    && (forall i :: 7 <= i < 7 + k ==> IsHostChar(s[i]))
    && (7 + k == |s| || (k >= 1 && (s[7 + k..] <= PORT || PORT <= s[7 + k..])))
  }

  /** Any beginning of an address begins an address. */
  lemma MatchBegins(s: string, t: string, e: nat)
    requires s != "" && MatchTo(s + t, e)
    ensures Begins(s)
  {
    var u := s + t;
    assert u[..|s|] == s;
    if |s| <= 7 {
      assert s == SCHEME[..|s|];
    } else {
      assert forall i :: 0 <= i < |s| ==> s[i] == u[i];
      assert SCHEME <= s;
      BeginsMeans(s);
      if |s| <= e - 5 {
        assert BeginsAt(s, |s| - 7);
      } else {
        var v := s[e - 5..];
        assert forall i :: 0 <= i < |v| ==> v[i] == u[e - 5 + i];
        assert BeginsAt(s, e - 12);
      }
    }
  }

  lemma MatchFrom(r: string, h: nat)
    requires h >= 1 && 12 + h <= |r| && SCHEME <= r && (forall i :: 7 <= i < 7 + h ==> IsHostChar(r[i]))
    requires r[7 + h..12 + h] == PORT
    ensures MatchHere(r).Some?
  {
    var p := r[7 + h..12 + h];
    assert r[7 + h] == p[0] && r[8 + h] == p[1] && r[9 + h] == p[2] && r[10 + h] == p[3] && r[11 + h] == p[4];
    MatchMeans(r, 12 + h);
  }

  lemma CompletedPort(s: string, h: nat, t: string)
    requires h >= 1 && 7 + h <= |s| && |s| > 7 && SCHEME <= s && (forall i :: 7 <= i < 7 + h ==> IsHostChar(s[i]))
    requires PORT <= s[7 + h..] + t
    ensures MatchHere(s + t).Some?
  {
    var r := s + t;
    assert r[7 + h..] == s[7 + h..] + t;
    assert r[7 + h..12 + h] == r[7 + h..][..5];
    hide MatchHere;
    MatchFrom(r, h);
  }

  /** What begins an address can be completed by the end of one. */
  lemma Completed(s: string) returns (k: nat)
    requires s != "" && Begins(s)
    ensures 1 <= k <= 13 && MatchHere(s + RACK[k..]).Some?
  {
    if |s| <= 7 {
      k := |s|;
      RackCut(k);
      RackAddress("");
      assert s == SCHEME[..k] && RACK + "" == RACK;
    } else {
      BeginsMeans(s);
      hide Begins, MatchHere;
      var h :| 0 <= h <= |s| - 7 && BeginsAt(s, h);
      var u := s[7 + h..];
      if |u| <= 5 {
        k := 8 + |u|;
        PortCut(|u|);
        assert u == PORT[..|u|];
      } else {
        k := 13;
        assert u + RACK[k..] == u;
      }
      CompletedPort(s, h, RACK[k..]);
    }
  }

  lemma PortCut(n: nat)
    requires n <= 5
    ensures PORT[..n] + RACK[8 + n..] == PORT
  {
    assert RACK[8..] == PORT;
    assert RACK[8 + n..] == RACK[8..][n..];
  }

  /** The text before z, if it ends in the host part, may be another one that does. */
  lemma OtherHost(x: string, y: string, z: string, e: nat)
    requires MatchTo(x + z, e) && 8 <= |x| <= e - 5
    requires |y| == 8 && SCHEME <= y && IsHostChar(y[7])
    ensures MatchTo(y + z, e - |x| + 8)
  {
    var u, v := x + z, y + z;
    assert forall i :: 8 <= i < |v| ==> v[i] == u[i + |x| - 8];
    assert v[..8] == y;
    assert SCHEME <= v;
  }

  /** Likewise if it ends in the port. */
  lemma OtherPort(x: string, y: string, z: string, e: nat, m: nat)
    requires MatchTo(x + z, e) && 1 <= m <= 4 && |x| == e - 5 + m
    requires |y| == 8 + m && SCHEME <= y && IsHostChar(y[7]) && forall i :: 8 <= i < |y| ==> y[i] == PORT[i - 8]
    ensures MatchTo(y + z, 13)
  {
    var u, v := x + z, y + z;
    assert forall i :: |y| <= i < |v| ==> v[i] == u[i + |x| - |y|];
    assert forall i :: 0 <= i < |y| ==> v[i] == y[i];
    assert SCHEME <= v;
  }

  lemma RackParts()
    ensures |RACK| == 13 && RACK[..7] == SCHEME && IsHostChar(RACK[7]) && RACK[8..] == PORT
  {
  }

  lemma RackPrefix(j: nat)
    requires 8 <= j < 13
    ensures SCHEME <= RACK[..j] && IsHostChar(RACK[..j][7])
    ensures forall i :: 8 <= i < j ==> RACK[..j][i] == PORT[i - 8]
  {
    RackParts();
    assert RACK[..j][..7] == RACK[..7];
    assert forall i :: 8 <= i < j ==> RACK[..j][i] == RACK[8..][i - 8];
  }

  lemma SchemePrefix(x: string, z: string, e: nat)
    requires MatchTo(x + z, e) && |x| <= 7
    ensures x == RACK[..|x|]
  {
    RackParts();
    assert (x + z)[..|x|] == x;
    assert (x + z)[..7] == SCHEME;
    assert SCHEME[..|x|] == RACK[..7][..|x|] == RACK[..|x|];
  }

  lemma BeginsBy(j: nat, base: string, rest: string, e: nat)
    requires 1 <= j < 13 && MatchTo(RACK[..j] + (base + rest), e)
    ensures Begins(RACK[..j] + base)
  {
    var y := RACK[..j];
    assert y + (base + rest) == (y + base) + rest && y + base != "";
    hide MatchTo, Begins;
    MatchBegins(y + base, rest, e);
  }

  /** Where text in front of base begins an address together with it, so does a part of a fixed
      address. */
  lemma SomeRack(x: string, base: string, rest: string, e: nat) returns (j: nat)
    requires x != "" && MatchTo(x + (base + rest), e) && |x| < e
    ensures 1 <= j < 13 && Begins(RACK[..j] + base)
  {
    var z := base + rest;
    if |x| <= 7 {
      SchemePrefix(x, z, e);
      hide MatchTo, Begins;
      j := |x|;
      BeginsBy(j, base, rest, e);
    } else {
      hide MatchTo, Begins;
      j := if |x| <= e - 5 then 8 else 8 + (|x| - (e - 5));
      RackPrefix(j);
      if |x| <= e - 5 {
        OtherHost(x, RACK[..j], z, e);
        BeginsBy(j, base, rest, e - |x| + 8);
      } else {
        OtherPort(x, RACK[..j], z, e, j - 8);
        BeginsBy(j, base, rest, 13);
      }
    }
  }

  /** A literal character starts no match in the output of a sealed base. */
  lemma SealedLiteral(s: string, base: string)
    requires s != "" && MatchHere(s).None? && Sealed(base)
    ensures MatchHere(Substitute(s, base)).None?
  {
    var n, r := LiteralLen(s), Substitute(s, base);
    SubstituteShape(s, base);
    assert n > 0;
    hide MatchHere, Substitute, LiteralLen, MatchTo, Begins;
    if n < |s| && MatchHere(r).Some? {
      var e := MatchHere(r).value;
      MatchMeans(r, e);
      if e <= n {
        MatchCopied(s, r, n, e);
        MatchMeans(s, e);
      } else {
        var rest := r[n + |base|..];
        assert r == s[..n] + (base + rest);
        var j := SomeRack(s[..n], base, rest, e);
      }
    }
  }

  /** With a sealed base no rack address is left, for every input. */
  lemma {:induction false} SealedClean(s: string, base: string)
    requires Sealed(base) && '$' !in base
    ensures Clean(Substitute(s, base))
    decreases |s|
  {
    if s != "" {
      SubstituteAt(s, base);
      if MatchHere(s).Some? {
        var rest := Substitute(s[MatchHere(s).value..], base);
        SealedClean(s[MatchHere(s).value..], base);
        forall i | 0 <= i < |base|
          ensures MatchHere((base + rest)[i..]).None?
        {
          NotWithin(base, rest, i);
        }
        CleanAppend(base, rest);
      } else {
        SealedClean(s[1..], base);
        SealedLiteral(s, base);
        CleanCons(s[0], Substitute(s[1..], base));
      }
    }
  }

  lemma NotWithin(base: string, rest: string, i: nat)
    requires Sealed(base) && i < |base|
    ensures MatchHere((base + rest)[i..]).None?
  {
    var u := (base + rest)[i..];
    assert u == base[i..] + rest;
    if MatchHere(u).Some? {
      MatchMeans(u, MatchHere(u).value);
      hide MatchTo, Begins, MatchHere;
      MatchBegins(base[i..], rest, MatchHere(u).value);
    }
  }

  /** No address starts in a part of an address that another one follows. */
  lemma PartFollowed(i: nat, j: nat, rest: string)
    requires i < j < 13
    ensures MatchHere(RACK[i..j] + (RACK + rest)).None?
  {
    var u := RACK[i..j] + (RACK + rest);
    assert u[0] == RACK[i] && u[j - i] == 'h';
    if i > 0 {
      assert RACK[i] != 'h';
      assert !(SCHEME <= u);
    } else {
      assert forall m :: 0 <= m < j ==> u[m] == RACK[m];
      assert u[j + 4] == ':' && u[j + 5] == '/';
      forall e: nat
        ensures !MatchTo(u, e)
      {
        PartNoMatch(u, j, e);
      }
      if MatchHere(u).Some? {
        MatchMeans(u, MatchHere(u).value);
      }
    }
  }

  lemma PartNoMatch(u: string, j: nat, e: nat)
    requires 1 <= j < 13 && j + 6 <= |u| && (forall m :: 0 <= m < j ==> u[m] == RACK[m])
    requires u[j] == 'h' && u[j + 1] == u[j + 2] == 't' && u[j + 3] == 'p' && u[j + 4] == ':' && u[j + 5] == '/'
    ensures !MatchTo(u, e)
  {
    if j < 7 {
      assert SCHEME[j] != 'h';
    } else if j > 8 {
      assert u[8] == ':';
    }
  }

  lemma RackReplaced(rest: string, base: string)
    ensures Substitute(RACK + rest, base) == base + Substitute(rest, base)
  {
    RackAddress(rest);
    SubstituteAt(RACK + rest, base);
    assert (RACK + rest)[13..] == rest;
  }

  lemma CharCopied(c: char, t: string, base: string)
    requires MatchHere([c] + t).None?
    ensures Substitute([c] + t, base) == [c] + Substitute(t, base)
  {
    SubstituteAt([c] + t, base);
    assert ([c] + t)[1..] == t;
  }

  lemma {:induction false} PartCopied(i: nat, j: nat, rest: string, base: string)
    requires i <= j < 13
    ensures Substitute(RACK[i..j] + (RACK + rest), base) == RACK[i..j] + (base + Substitute(rest, base))
    decreases j - i
  {
    hide MatchHere, Substitute;
    if i == j {
      assert RACK[i..j] + (RACK + rest) == RACK + rest;
      RackReplaced(rest, base);
    } else {
      PartFollowed(i, j, rest);
      PartCopied(i + 1, j, rest, base);
      var t := RACK[i + 1..j] + (RACK + rest);
      assert RACK[i..j] == [RACK[i]] + RACK[i + 1..j];
      assert RACK[i..j] + (RACK + rest) == [RACK[i]] + t;
      CharCopied(RACK[i], t, base);
      assert [RACK[i]] + (RACK[i + 1..j] + (base + Substitute(rest, base))) == RACK[i..j] + (base + Substitute(rest, base));
    }
  }

  lemma NotCleanAt(r: string, i: nat)
    requires i <= |r| && MatchHere(r[i..]).Some?
    ensures !Clean(r)
  {
  }

  lemma LeftBefore(base: string, j: nat) returns (s: string)
    requires 1 <= j < 13 && Begins(RACK[..j] + base)
    ensures !Clean(Substitute(s, base))
  {
    hide MatchHere, Substitute, Begins, Clean;
    var x := RACK[0..j];
    assert x == RACK[..j] && x + base != "";
    var k := Completed(x + base);
    s := x + (RACK + RACK[k..]);
    PartCopied(0, j, RACK[k..], base);
    SuffixCopied(k, base);
    var r := Substitute(s, base);
    assert r == (x + base) + RACK[k..] && r[0..] == r;
    NotCleanAt(r, 0);
  }

  lemma LeftInside(base: string, i: nat) returns (s: string)
    requires i < |base| && Begins(base[i..])
    ensures !Clean(Substitute(s, base))
  {
    hide MatchHere, Substitute, Begins, Clean;
    var k := Completed(base[i..]);
    s := RACK + RACK[k..];
    RackReplaced(RACK[k..], base);
    SuffixCopied(k, base);
    var r := Substitute(s, base);
    assert r[i..] == base[i..] + RACK[k..];
    NotCleanAt(r, i);
  }

  /** With a base that is not sealed, some input leaves an address. */
  lemma UnsealedLeaves(base: string) returns (s: string)
    requires !Sealed(base) && '$' !in base
    ensures !Clean(Substitute(s, base))
  {
    hide Begins, Clean, Substitute;
    if j :| 1 <= j < 13 && Begins(RACK[..j] + base) {
      s := LeftBefore(base, j);
    } else {
      var i :| 0 <= i < |base| && Begins(base[i..]);
      s := LeftInside(base, i);
    }
  }

  /** For every base without dollar signs, every input is cleaned of rack addresses if and only if
      the base is sealed. */
  lemma SealedExactly(base: string)
    requires '$' !in base
    ensures (forall s: string :: Clean(Substitute(s, base))) <==> Sealed(base)
  {
    if Sealed(base) {
      forall s: string
        ensures Clean(Substitute(s, base))
      {
        SealedClean(s, base);
      }
    } else {
      var s := UnsealedLeaves(base);
    }
  }

  /** A base that is only a scheme and a host, as the proxy makes it from a request without a
      port, is not sealed. */
  lemma HostOnlyUnsealed(host: string)
    requires host != "" && forall c :: c in host ==> IsHostChar(c)
    ensures !Sealed(SCHEME + host)
  {
    var base := SCHEME + host;
    assert base[0..] == base && base[7..] == host;
    assert forall i :: 0 <= i < |host| ==> host[i] in host;
    assert Begins(base[0..]);
  }

  // ---- proxy addresses ----

  /** http://host/path with a host and a path that have no colon. */
  ghost predicate IsProxyBase(base: string, host: string, path: string) {
    && base == SCHEME + host + "/" + path && host != "" && path != ""
    && ':' !in host && '/' !in host && ':' !in path
  }

  /** The end of base could be the beginning of an address. */
  ghost predicate EndsLikeScheme(base: string) {
    exists k :: 1 <= k <= 7 && k <= |base| && base[|base| - k..] == SCHEME[..k]
  }

  /** The only colon of base is that of its scheme. */
  lemma OneColon(base: string, host: string, path: string, j: nat)
    requires IsProxyBase(base, host, path) && j < |base|
    ensures base[j] == ':' <==> j == 4
  {
    assert base[j] == if j < 7 then SCHEME[j] else if j < 7 + |host| then host[j - 7]
                      else if j == 7 + |host| then '/' else path[j - 8 - |host|];
  }

  /** After a scheme and host characters there is something other than the port. */
  lemma NoPort(s: string, h: nat)
    requires 7 < |s| && 7 + h < |s| && !IsHostChar(s[7 + h]) && (forall i :: 7 <= i < 7 + h ==> IsHostChar(s[i]))
    requires s[7 + h] == ':' ==> 8 + h < |s| && s[8 + h] != '5'
    ensures !Begins(s)
  {
    if SCHEME <= s {
      BeginsMeans(s);
      forall k | 0 <= k <= |s| - 7
        ensures !BeginsAt(s, k)
      {
        var u := s[7 + k..];
        assert k < |s| - 7 ==> u[0] == s[7 + k];
        assert k < |s| - 8 ==> u[1] == s[8 + k];
      }
    }
  }

  /** No address starts inside such a base, unless its end is the beginning of one. */
  lemma ProxyInside(base: string, host: string, path: string, i: nat)
    requires IsProxyBase(base, host, path) && !EndsLikeScheme(base) && i < |base|
    ensures !Begins(base[i..])
  {
    var s := base[i..];
    if |s| <= 7 {
      assert s == base[|base| - |s|..];
      assert |SCHEME| == 7 && SCHEME[..|s|] != base[|base| - |s|..];
    } else if i > 0 {
      OneColon(base, host, path, i + 4);
      assert s[4] == base[i + 4] && SCHEME[4] == ':';
    } else {
      assert s == base;
      var h := HostRun(base[7..]);
      assert base[7 + |host|] == '/';
      assert base[7..][|host|] == '/';
      assert h <= |host|;
      OneColon(base, host, path, 7 + h);
      assert forall j :: 7 <= j < 7 + h ==> base[j] == base[7..][j - 7];
      assert base[7 + h] == base[7..][h];
      NoPort(base, h);
    }
  }

  /** No address reaches into such a base. */
  lemma ProxyBefore(base: string, host: string, path: string, j: nat)
    requires IsProxyBase(base, host, path) && 1 <= j < 13
    ensures !Begins(RACK[..j] + base)
  {
    var s := RACK[..j] + base;
    assert base[..7] == SCHEME;
    assert s[j] == base[0] == base[..7][0] == 'h';
    assert base[1] == base[..7][1] == 't' && base[2] == base[..7][2] == 't' && base[3] == base[..7][3] == 'p';
    assert base[4] == base[..7][4] == ':' && base[5] == base[..7][5] == '/';
    if j < 7 {
      assert SCHEME[j] != 'h';
    } else if j <= 8 {
      assert forall i :: j <= i < j + 6 ==> s[i] == base[i - j];
      assert j == 8 ==> s[7] == 'x';
      NoPort(s, j + 4 - 7);
    } else {
      PortBroken(s, j);
    }
  }

  lemma PortBroken(s: string, j: nat)
    requires 9 <= j < 13 && j < |s| && s[j] == 'h' && s[..j] == RACK[..j]
    ensures !Begins(s)
  {
    RackParts();
    assert s[7] == s[..j][7] && s[8] == s[..j][8];
    if SCHEME <= s {
      BeginsMeans(s);
      assert !IsHostChar(':') && s[8] == RACK[8..][0] == ':' && PORT[j - 8] != 'h';
      forall k | 0 <= k <= |s| - 7
        ensures !BeginsAt(s, k)
      {
        var u := s[7 + k..];
        assert k < |s| - 7 ==> u[0] == s[7 + k];
        assert k == 1 ==> u[j - 8] == 'h';
      }
    }
  }

  /** For bases of the form http://host/path the condition is about the end alone. */
  lemma SealedProxy(base: string, host: string, path: string)
    requires IsProxyBase(base, host, path)
    ensures Sealed(base) <==> !EndsLikeScheme(base)
  {
    if EndsLikeScheme(base) {
      var k :| 1 <= k <= 7 && k <= |base| && base[|base| - k..] == SCHEME[..k];
      assert Begins(base[|base| - k..]);
    } else {
      forall i | 0 <= i < |base| ensures !Begins(base[i..]) { ProxyInside(base, host, path, i); }
      forall j | 1 <= j < 13 ensures !Begins(RACK[..j] + base) { ProxyBefore(base, host, path, j); }
    }
  }
}
