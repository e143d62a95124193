/** What the text replacements do, in terms of the pieces they keep and the parts they replace. */
module Replacement {
  import opened Wrappers
  import opened Rewriter

  /** The pieces with sep between each two. */
  ghost function Weave(ps: seq<string>, sep: string): string {
    if ps == [] then "" else if |ps| == 1 then ps[0] else ps[0] + sep + Weave(ps[1..], sep)
  }

  /** The pieces with the parts between them. */
  ghost function Mix(ps: seq<string>, parts: seq<string>): string
    requires |ps| == |parts| + 1
  {
    if parts == [] then ps[0] else ps[0] + parts[0] + Mix(ps[1..], parts[1..])
  }

  ghost predicate OccursAt(s: string, x: string, i: nat) {
    i + |x| <= |s| && s[i..i + |x|] == x
  }

  /** x does not occur in s. */
  ghost predicate Absent(s: string, x: string) { forall i: nat :: i < |s| ==> !OccursAt(s, x, i) }

  /** In p followed by x, nothing before the end of p is an occurrence of x. */
  ghost predicate FirstAfter(p: string, x: string) { forall i: nat :: i < |p| ==> !OccursAt(p + x, x, i) }

  /** The pieces between the occurrences of x, each occurrence the leftmost one that is left. */
  ghost predicate Pieces(ps: seq<string>, x: string) {
    ps != [] && Absent(ps[|ps| - 1], x) && forall k :: 0 <= k < |ps| - 1 ==> FirstAfter(ps[k], x)
  }

  // ---- literal replacements ----

  lemma WeaveCons(ps: seq<string>, sep: string)
    requires ps != []
    ensures Weave([""] + ps, sep) == sep + Weave(ps, sep)
  {
    assert ([""] + ps)[1..] == ps;
    assert "" + sep == sep;
  }

  lemma WeaveLonger(c: char, ps: seq<string>, sep: string)
    requires ps != []
    ensures Weave([[c] + ps[0]] + ps[1..], sep) == [c] + Weave(ps, sep)
  {
    var qs := [[c] + ps[0]] + ps[1..];
    assert qs[1..] == ps[1..];
  }

  lemma PiecesCons(ps: seq<string>, x: string)
    requires Pieces(ps, x)
    ensures Pieces([""] + ps, x)
  {
    var qs := [""] + ps;
    forall k | 0 <= k < |qs| - 1
      ensures FirstAfter(qs[k], x)
    {
      assert k > 0 ==> qs[k] == ps[k - 1];
    }
  }

  lemma AbsentLonger(c: char, p: string, x: string)
    requires Absent(p, x) && !(x <= [c] + p)
    ensures Absent([c] + p, x)
  {
    var s := [c] + p;
    forall i: nat | i < |s|
      ensures !OccursAt(s, x, i)
    {
      if i + |x| <= |s| {
        if i == 0 {
          assert s[0..|x|] == s[..|x|];
        } else {
          assert s[i..i + |x|] == p[i - 1..i - 1 + |x|];
          assert !OccursAt(p, x, i - 1);
        }
      }
    }
  }

  lemma FirstLonger(c: char, p: string, x: string)
    requires FirstAfter(p, x) && !(x <= [c] + p + x)
    ensures FirstAfter([c] + p, x)
  {
    var s := [c] + p + x;
    forall i: nat | i < |p| + 1
      ensures !OccursAt(s, x, i)
    {
      if i + |x| <= |s| {
        if i == 0 {
          assert s[0..|x|] == s[..|x|];
        } else {
          assert s[i..i + |x|] == (p + x)[i - 1..i - 1 + |x|];
          assert !OccursAt(p + x, x, i - 1);
        }
      }
    }
  }

  lemma NotAtStart(c: char, ps: seq<string>, x: string)
    requires ps != [] && x != "" && !(x <= [c] + Weave(ps, x))
    ensures |ps| == 1 ==> !(x <= [c] + ps[0])
    ensures |ps| > 1 ==> !(x <= [c] + ps[0] + x)
  {
    if |ps| > 1 {
      var s, t := [c] + ps[0] + x, [c] + Weave(ps, x);
      assert t == s + Weave(ps[1..], x);
      assert t[..|x|] == s[..|x|];
    }
  }

  lemma PiecesLonger(c: char, ps: seq<string>, x: string)
    requires Pieces(ps, x) && x != "" && !(x <= [c] + Weave(ps, x))
    ensures Pieces([[c] + ps[0]] + ps[1..], x)
  {
    NotAtStart(c, ps, x);
    var qs := [[c] + ps[0]] + ps[1..];
    hide Weave, Absent, FirstAfter;
    if |ps| == 1 {
      AbsentLonger(c, ps[0], x);
    } else {
      FirstLonger(c, ps[0], x);
      assert qs[|qs| - 1] == ps[|ps| - 1];
      assert forall k :: 0 < k < |qs| - 1 ==> qs[k] == ps[k];
    }
  }

  lemma AbsentShort(s: string, x: string)
    requires |s| < |x|
    ensures Absent(s, x)
  {
  }

  /** Replacing all: the text is cut at its occurrences of from, each the leftmost that is left, the
      pieces stay, and every from becomes a to. */
  lemma {:induction false} ReplaceAllMeans(s: string, from: string, to: string) returns (ps: seq<string>)
    requires from != ""
    ensures Pieces(ps, from) && Weave(ps, from) == s && ReplaceAll(s, from, to) == Weave(ps, to)
    decreases |s|
  {
    if |s| < |from| {
      ps := [s];
      AbsentShort(s, from);
    } else if from <= s {
      var qs := ReplaceAllMeans(s[|from|..], from, to);
      ps := [""] + qs;
      assert s == from + s[|from|..];
      WeaveCons(qs, from);
      WeaveCons(qs, to);
      PiecesCons(qs, from);
    } else {
      var qs := ReplaceAllMeans(s[1..], from, to);
      ps := [[s[0]] + qs[0]] + qs[1..];
      assert s == [s[0]] + s[1..];
      WeaveLonger(s[0], qs, from);
      WeaveLonger(s[0], qs, to);
      PiecesLonger(s[0], qs, from);
    }
  }

  /** Text without from is left as it is. */
  lemma ReplaceAbsent(s: string, from: string, to: string)
    requires from != "" && Absent(s, from)
    ensures ReplaceAll(s, from, to) == s
  {
    var ps := ReplaceAllMeans(s, from, to);
    if |ps| > 1 {
      assert s == ps[0] + from + Weave(ps[1..], from);
      assert s[|ps[0]|..|ps[0]| + |from|] == from;
      assert OccursAt(s, from, |ps[0]|);
    }
  }

  // ---- the rules ----

  /** The rules work one after the other, each on what the ones before it left; a rule with nothing
      to look for does nothing. */
  lemma {:induction false} RulesInOrder(s: string, first: Rule, rest: seq<Rule>)
    ensures ApplyRules(s, []) == s
    ensures ApplyRules(s, [first] + rest) ==
            ApplyRules(if first.from == "" then s else ReplaceAll(s, first.from, first.to), rest)
    decreases |rest|
  {
    var all := [first] + rest;
    if rest == [] {
      assert all[..0] == [];
    } else {
      RulesInOrder(s, first, rest[..|rest| - 1]);
      assert all[..|all| - 1] == [first] + rest[..|rest| - 1];
    }
  }

  // ---- rack addresses ----

  /** A host character is anything but white space, quotes of the three kinds, the slash and the colon. */
  lemma HostCharMeans(c: char)
    ensures IsHostChar(c) <==> c as int !in {9, 10, 11, 12, 13, 32, 34, 39, 47, 58, 96}
  {
  }

  /** The address parts are addresses, and no address starts in a piece, read up to the end of the text. */
  ghost predicate Addresses(ps: seq<string>, parts: seq<string>)
    requires |ps| == |parts| + 1
    decreases |parts|
  {
    && (forall i :: 0 <= i < |ps[0]| ==> MatchHere(Mix(ps, parts)[i..]).None?)
    && (parts != [] ==> MatchTo(parts[0], |parts[0]|) && Addresses(ps[1..], parts[1..]))
  }

  lemma MixCons(part: string, ps: seq<string>, parts: seq<string>)
    requires |ps| == |parts| + 1
    ensures Mix([""] + ps, [part] + parts) == part + Mix(ps, parts)
  {
    assert ([""] + ps)[1..] == ps && ([part] + parts)[1..] == parts;
    assert "" + part == part;
  }

  lemma MixLonger(c: char, ps: seq<string>, parts: seq<string>)
    requires |ps| == |parts| + 1
    ensures Mix([[c] + ps[0]] + ps[1..], parts) == [c] + Mix(ps, parts)
  {
    var qs := [[c] + ps[0]] + ps[1..];
    assert qs[1..] == ps[1..];
  }

  lemma AddressesCons(part: string, ps: seq<string>, parts: seq<string>)
    requires |ps| == |parts| + 1 && Addresses(ps, parts) && MatchTo(part, |part|)
    ensures Addresses([""] + ps, [part] + parts)
  {
    assert ([""] + ps)[1..] == ps && ([part] + parts)[1..] == parts;
  }

  lemma AddressesLonger(c: char, ps: seq<string>, parts: seq<string>)
    requires |ps| == |parts| + 1 && Addresses(ps, parts) && MatchHere([c] + Mix(ps, parts)).None?
    ensures Addresses([[c] + ps[0]] + ps[1..], parts)
  {
    var qs := [[c] + ps[0]] + ps[1..];
    MixLonger(c, ps, parts);
    var s, t := Mix(ps, parts), Mix(qs, parts);
    hide MatchHere, MatchTo, Mix;
    forall i | 0 <= i < |qs[0]|
      ensures MatchHere(t[i..]).None?
    {
      if i == 0 {
        assert t[0..] == t;
      } else {
        assert t[i..] == s[i - 1..];
      }
    }
    assert qs[1..] == ps[1..];
  }

  lemma MatchedPart(s: string, n: nat)
    requires MatchHere(s) == Some(n)
    ensures n <= |s| && MatchTo(s[..n], n)
  {
    MatchMeans(s, n);
    assert s[..n][..7] == s[..7];
  }

  lemma NoAddress(base: string)
    ensures Addresses([""], []) && Mix([""], []) == "" && Substitute("", base) == "" == Weave([""], base)
  {
  }

  lemma AddressReplaced(s: string, n: nat, base: string, qs: seq<string>, rest: seq<string>)
    requires MatchHere(s) == Some(n) && n <= |s| && |qs| == |rest| + 1 && Addresses(qs, rest)
    requires Mix(qs, rest) == s[n..] && Substitute(s[n..], base) == Weave(qs, base)
    ensures var ps, parts := [""] + qs, [s[..n]] + rest;
      Addresses(ps, parts) && Mix(ps, parts) == s && Substitute(s, base) == Weave(ps, base)
  {
    hide MatchHere, Substitute, Mix, Weave, Addresses, MatchTo;
    SubstituteAt(s, base);
    MatchedPart(s, n);
    AddressesCons(s[..n], qs, rest);
    MixCons(s[..n], qs, rest);
    WeaveCons(qs, base);
    assert s == s[..n] + s[n..];
  }

  lemma LetterCopied(s: string, base: string, qs: seq<string>, rest: seq<string>)
    requires s != "" && MatchHere(s).None? && |qs| == |rest| + 1 && Addresses(qs, rest)
    requires Mix(qs, rest) == s[1..] && Substitute(s[1..], base) == Weave(qs, base)
    ensures var ps := [[s[0]] + qs[0]] + qs[1..];
      Addresses(ps, rest) && Mix(ps, rest) == s && Substitute(s, base) == Weave(ps, base)
  {
    hide MatchHere, Substitute, Mix, Weave, Addresses;
    SubstituteAt(s, base);
    assert s == [s[0]] + s[1..];
    AddressesLonger(s[0], qs, rest);
    MixLonger(s[0], qs, rest);
    WeaveLonger(s[0], qs, base);
  }

  /** Substitution: the text is cut at its rack addresses, leftmost first, the pieces stay, and every
      address becomes the base. */
  lemma {:induction false} SubstituteMeans(s: string, base: string) returns (ps: seq<string>, parts: seq<string>)
    ensures |ps| == |parts| + 1 && Addresses(ps, parts) && Mix(ps, parts) == s && Substitute(s, base) == Weave(ps, base)
    decreases |s|
  {
    hide MatchHere, Substitute, Mix, Weave, Addresses;
    if s == "" {
      ps, parts := [""], [];
      NoAddress(base);
    } else if MatchHere(s).Some? {
      var n := MatchHere(s).value;
      var qs, rest := SubstituteMeans(s[n..], base);
      ps, parts := [""] + qs, [s[..n]] + rest;
      AddressReplaced(s, n, base, qs, rest);
    } else {
      var qs, rest := SubstituteMeans(s[1..], base);
      ps, parts := [[s[0]] + qs[0]] + qs[1..], rest;
      LetterCopied(s, base, qs, rest);
    }
  }

  /** Without a base only the rules act; with one, they act on the text with the addresses replaced. */
  lemma SubsMeans(s: string, base: string, rules: seq<Rule>) returns (ps: seq<string>, parts: seq<string>)
    ensures base == "" ==> ApplySubs(s, base, rules) == ApplyRules(s, rules)
    ensures |ps| == |parts| + 1 && Addresses(ps, parts) && Mix(ps, parts) == s
    ensures base != "" ==> ApplySubs(s, base, rules) == ApplyRules(Weave(ps, base), rules)
  {
    hide Addresses, Mix, Weave, ApplyRules;
    ps, parts := SubstituteMeans(s, base);
  }
}
