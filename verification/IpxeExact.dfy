/** When exactly printed lines and scripts are read as they were meant. */
module IpxeExact {
  import opened Text
  import opened Nodes
  import opened IpxeLang
  import opened IpxeScript
  import opened IpxeText
  import opened IpxeReader

  // ---- printing undoes reading ----

  lemma PushPrint(c: char, w: Word)
    ensures Push(c, w).Print() == [c] + w.Print()
  {
    if w.Lit? {
      assert [c] + w.text + w.rest.Print() == [c] + (w.text + w.rest.Print());
    }
  }

  lemma ReadsStep(s: string, nested: bool)
    requires s != "" && !(nested && s[0] == '}')
    requires |s| >= 2 && s[0] == '$' && s[1] == '{' ==> ReadUpTo(s[2..], true).1 == ""
    ensures ReadUpTo(s, nested) == (Push(s[0], ReadUpTo(s[1..], nested).0), ReadUpTo(s[1..], nested).1)
  {
  }

  lemma ReadsRef(s: string, nested: bool)
    requires |s| >= 2 && s[0] == '$' && s[1] == '{' && ReadUpTo(s[2..], true).1 != ""
    ensures var (n, rest) := ReadUpTo(s[2..], true);
      ReadUpTo(s, nested) == (Ref(n, ReadUpTo(rest[1..], nested).0), ReadUpTo(rest[1..], nested).1)
  {
  }

  lemma RefText(n: string, r: string, end: string, rest: string)
    requires rest != "" && rest[0] == '}' && r + end == rest[1..]
    ensures "${" + n + "}" + r + end == "${" + (n + rest)
  {
    assert rest == "}" + (r + end);
    assert "${" + n + "}" + r + end == "${" + (n + ("}" + (r + end)));
  }

  lemma TwoAgain(s: string)
    requires |s| >= 2 && s[0] == '$' && s[1] == '{'
    ensures s == "${" + s[2..]
  {
  }

  lemma RefPrints(s: string, nested: bool, n: Word, rest: string)
    requires |s| >= 2 && s[0] == '$' && s[1] == '{' && ReadUpTo(s[2..], true) == (n, rest) && rest != ""
    requires n.Print() + rest == s[2..]
    requires ReadUpTo(rest[1..], nested).0.Print() + ReadUpTo(rest[1..], nested).1 == rest[1..]
    ensures ReadUpTo(s, nested).0.Print() + ReadUpTo(s, nested).1 == s
  {
    ReadsRef(s, nested);
    hide ReadUpTo;
    var (r, end) := ReadUpTo(rest[1..], nested);
    RefText(n.Print(), r.Print(), end, rest);
    TwoAgain(s);
    assert Ref(n, r).Print() == "${" + n.Print() + "}" + r.Print();
  }

  lemma CharPrints(s: string, nested: bool)
    requires s != "" && !(nested && s[0] == '}')
    requires |s| >= 2 && s[0] == '$' && s[1] == '{' ==> ReadUpTo(s[2..], true).1 == ""
    requires ReadUpTo(s[1..], nested).0.Print() + ReadUpTo(s[1..], nested).1 == s[1..]
    ensures ReadUpTo(s, nested).0.Print() + ReadUpTo(s, nested).1 == s
  {
    ReadsStep(s, nested);
    hide ReadUpTo, Push;
    var (w, end) := ReadUpTo(s[1..], nested);
    PushPrint(s[0], w);
    FirstAgain(s, w.Print(), end);
  }

  lemma FirstAgain(s: string, p: string, end: string)
    requires s != "" && p + end == s[1..]
    ensures [s[0]] + p + end == s
  {
    assert [s[0]] + p + end == [s[0]] + (p + end);
  }

  /** What is read, printed, and what is left make up the text. */
  lemma {:induction false} PrintUndoes(s: string, nested: bool)
    ensures ReadUpTo(s, nested).0.Print() + ReadUpTo(s, nested).1 == s
    decreases |s|
  {
    hide ReadUpTo;
    if s == "" || (nested && s[0] == '}') {
      ReadsNothing(s, nested);
      assert Empty.Print() + s == s;
    } else if |s| >= 2 && s[0] == '$' && s[1] == '{' && ReadUpTo(s[2..], true).1 != "" {
      var (n, rest) := ReadUpTo(s[2..], true);
      PrintUndoes(s[2..], true);
      PrintUndoes(rest[1..], nested);
      RefPrints(s, nested, n, rest);
    } else {
      PrintUndoes(s[1..], nested);
      CharPrints(s, nested);
    }
  }

  lemma ReadPrints(s: string)
    ensures ReadWord(s).Print() == s
  {
    PrintUndoes(s, false);
    hide ReadUpTo;
    assert ReadUpTo(s, false).0.Print() + "" == ReadUpTo(s, false).0.Print();
  }

  // ---- text with and without references ----

  /** An opening of a reference and a closing brace after it. */
  predicate HasRef(s: string) {
    exists i, j :: 0 <= i && i + 2 <= j < |s| && s[i] == '$' && s[i + 1] == '{' && s[j] == '}'
  }

  lemma HasRefLater(s: string)
    requires s != ""
    ensures HasRef(s[1..]) ==> HasRef(s)
    ensures HasRef(s) && !(|s| >= 2 && s[0] == '$' && s[1] == '{') ==> HasRef(s[1..])
  {
    var t := s[1..];
    assert forall i :: 0 <= i < |t| ==> t[i] == s[i + 1];
    if i, j :| 0 <= i && i + 2 <= j < |t| && t[i] == '$' && t[i + 1] == '{' && t[j] == '}' {
      assert s[i + 1] == '$' && s[i + 1 + 1] == '{' && s[j + 1] == '}';
    }
    if i, j :| 0 < i && i + 2 <= j < |s| && s[i] == '$' && s[i + 1] == '{' && s[j] == '}' {
      assert t[i - 1] == '$' && t[i - 1 + 1] == '{' && t[j - 1] == '}';
    }
  }

  lemma HasRefNow(s: string)
    requires |s| >= 2 && s[0] == '$' && s[1] == '{'
    ensures HasRef(s) <==> '}' in s[2..] || HasRef(s[1..])
  {
    HasRefLater(s);
    var t := s[2..];
    if '}' in t {
      var j :| 0 <= j < |t| && t[j] == '}';
      assert s[0] == '$' && s[0 + 1] == '{' && s[j + 2] == '}';
    }
    if i, j :| 0 <= i && i + 2 <= j < |s| && s[i] == '$' && s[i + 1] == '{' && s[j] == '}' {
      if i == 0 {
        assert t[j - 2] == '}';
      } else {
        var u := s[1..];
        assert u[i - 1] == '$' && u[i - 1 + 1] == '{' && u[j - 1] == '}';
      }
    }
  }

  /** Without a closing brace, the name of a reference does not end. */
  lemma NotClosed(s: string)
    requires '}' !in s
    ensures ReadUpTo(s, true).1 == ""
  {
    PrintUndoes(s, true);
    hide ReadUpTo;
    StartIsIn(ReadUpTo(s, true).0.Print(), ReadUpTo(s, true).1);
  }

  lemma StartIsIn(a: string, b: string)
    ensures b != "" ==> b[0] in a + b
  {
    if b != "" {
      assert (a + b)[|a|] == b[0];
    }
  }

  lemma PushV(c: char, s: string)
    ensures Push(c, V(s)) == V([c] + s)
  {
    if s == "" {
      assert [c] + s == [c];
    }
  }

  /** Text without a reference is read as it is. */
  lemma {:induction false} NoRefReads(s: string)
    requires !HasRef(s)
    ensures ReadUpTo(s, false) == (V(s), "")
  {
    if s != "" {
      HasRefLater(s);
      if |s| >= 2 && s[0] == '$' && s[1] == '{' {
        HasRefNow(s);
        NotClosed(s[2..]);
      }
      ReadsStep(s, false);
      hide ReadUpTo, HasRef;
      NoRefReads(s[1..]);
      PushV(s[0], s[1..]);
      assert s == [s[0]] + s[1..];
    }
  }

  /** If the name of a reference takes in all of a and more, any closing brace in a closes a
      reference in a. */
  lemma {:induction false} AllTaken(a: string, s: string)
    requires ReadUpTo(a + s, true).1 == "" && '}' in a
    ensures HasRef(a)
    decreases |a|
  {
    var t := a + s;
    assert t[0] == a[0] && t[1..] == a[1..] + s;
    if a[0] == '}' {
      ReadsNothing(t, true);
      assert false;
    }
    if |a| >= 2 && a[0] == '$' && a[1] == '{' {
      HasRefNow(a);
      assert a == [a[0], a[1]] + a[2..];
    } else {
      assert a == [a[0]] + a[1..];
      DollarLast(a, s);
      ReadsStep(t, true);
      hide ReadUpTo;
      AllTaken(a[1..], s);
      HasRefLater(a);
    }
  }

  lemma DollarLast(a: string, s: string)
    requires '}' in a && a[0] != '}' && !(|a| >= 2 && a[0] == '$' && a[1] == '{')
    ensures !(|a + s| >= 2 && (a + s)[0] == '$' && (a + s)[1] == '{')
  {
    assert |a| >= 2;
  }

  /** The text a word begins with. */
  function Lead(w: Word): string { if w.Lit? then w.text else "" }

  /** Where there is a reference in t, the text read first ends before it. */
  lemma {:induction false} LeadShort(t: string, s: string)
    requires HasRef(t)
    ensures |Lead(ReadUpTo(t + s, false).0)| < |t|
    decreases |t|
  {
    var u := t + s;
    assert |t| >= 3 && u[0] == t[0] && u[1] == t[1];
    assert u[1..] == t[1..] + s && u[2..] == t[2..] + s;
    HasRefLater(t);
    if t[0] == '$' && t[1] == '{' {
      HasRefNow(t);
      if ReadUpTo(u[2..], true).1 != "" {
        ReadsRef(u, false);
      } else {
        if '}' in t[2..] {
          AllTaken(t[2..], s);
          assert t[2..] == t[1..][1..];
          HasRefLater(t[1..]);
        }
        ReadsStep(u, false);
        LeadShort(t[1..], s);
      }
    } else {
      ReadsStep(u, false);
      LeadShort(t[1..], s);
    }
  }

  /** Exactly the text without references is read as it is. */
  lemma ReadAsIs(s: string)
    ensures ReadWord(s) == V(s) <==> !HasRef(s)
  {
    if HasRef(s) {
      LeadShort(s, "");
      assert s + "" == s;
    } else {
      NoRefReads(s);
    }
  }

  // ---- lines ----

  function Length(xs: Lines): nat {
    match xs
    case Nil => 0
    case Cons(_, tail) => 1 + Length(tail)
  }

  predicate InLines(l: Line, xs: Lines) {
    match xs
    case Nil => false
    case Cons(h, tail) => h == l || InLines(l, tail)
  }

  /** The number of lines read from text whose lines are all ended. */
  lemma {:induction false} LinesRead(s: string)
    requires s == "" || s[|s| - 1] == '\n'
    ensures Length(ReadText(s)) == Count(s, '\n')
    decreases |s|
  {
    if s != "" {
      var n := LineLength(s);
      assert s[..|s|] == s && n < |s|;
      var rest := s[n + 1..];
      LinesRead(rest);
      CountNone(s[..n], '\n');
      CountConcat(s[..n], "\n", '\n');
      CountConcat(s[..n] + "\n", rest, '\n');
      hide Count, ReadLine;
      assert s == s[..n] + "\n" + rest;
      assert Count("\n", '\n') == 1 by { OneNewline(); }
    }
  }

  lemma OneNewline()
    ensures Count("\n", '\n') == 1
  {
    assert "\n"[1..] == "";
  }

  lemma {:induction false} LinesPrinted(xs: Lines)
    ensures Count(TextOf(xs), '\n') >= Length(xs)
    ensures TextOf(xs) == "" || TextOf(xs)[|TextOf(xs)| - 1] == '\n'
    ensures forall l :: InLines(l, xs) && '\n' in LineText(l) ==> Count(TextOf(xs), '\n') > Length(xs)
  {
    match xs
    case Nil =>
    case Cons(h, tail) =>
      LinesPrinted(tail);
      TextCons(h, tail);
      CountConcat(LineText(h), "\n", '\n');
      CountConcat(LineText(h) + "\n", TextOf(tail), '\n');
      OneNewline();
      CountNone(LineText(h), '\n');
      hide Count, LineText, TextOf;
  }

  /** A script that reads back has no newline inside a line. */
  lemma OneLineNeeded(xs: Lines, l: Line)
    requires ReadText(TextOf(xs)) == xs && InLines(l, xs)
    ensures '\n' !in LineText(l)
  {
    LinesPrinted(xs);
    LinesRead(TextOf(xs));
  }

  /** A line that is one line and is read as it was meant. */
  predicate LineExact(l: Line) { OneLine(LineText(l)) && ReadLine(LineText(l)) == l }

  predicate AllExact(xs: Lines) {
    match xs
    case Nil => true
    case Cons(l, tail) => LineExact(l) && AllExact(tail)
  }

  predicate AllOneLine(xs: Lines) {
    match xs
    case Nil => true
    case Cons(l, tail) => OneLine(LineText(l)) && AllOneLine(tail)
  }

  lemma {:induction false} AllOneLineFrom(xs: Lines)
    requires forall l :: InLines(l, xs) ==> OneLine(LineText(l))
    ensures AllOneLine(xs)
  {
    hide LineText;
    match xs
    case Nil =>
    case Cons(l, tail) =>
      assert InLines(l, xs) && forall m :: InLines(m, tail) ==> InLines(m, xs);
      AllOneLineFrom(tail);
  }

  lemma {:induction false} OneLinesRead(xs: Lines)
    requires AllOneLine(xs)
    ensures ReadText(TextOf(xs)) == xs <==> AllExact(xs)
  {
    match xs
    case Nil =>
    case Cons(l, tail) =>
      OneLinesRead(tail);
      FirstLineReads(LineText(l), TextOf(tail));
      TextCons(l, tail);
      hide LineText, ReadLine, ReadText, TextOf;
  }

  lemma {:induction false} ExactOneLine(xs: Lines)
    requires AllExact(xs)
    ensures AllOneLine(xs)
  {
    hide LineText, ReadLine;
    match xs
    case Nil =>
    case Cons(_, tail) => ExactOneLine(tail);
  }

  /** A printed script reads back if and only if each of its lines does. */
  lemma TextExact(xs: Lines)
    ensures ReadText(TextOf(xs)) == xs <==> AllExact(xs)
  {
    hide LineText, ReadText, TextOf, LineExact;
    if ReadText(TextOf(xs)) == xs {
      forall l | InLines(l, xs)
        ensures OneLine(LineText(l))
      {
        OneLineNeeded(xs, l);
      }
      AllOneLineFrom(xs);
      OneLinesRead(xs);
    } else if AllExact(xs) {
      ExactOneLine(xs);
      OneLinesRead(xs);
    }
  }

  lemma {:induction false} ExactAppend(xs: Lines, ys: Lines)
    ensures AllExact(Append(xs, ys)) <==> AllExact(xs) && AllExact(ys)
  {
    hide LineExact;
    match xs
    case Nil =>
    case Cons(_, tail) => ExactAppend(tail, ys);
  }

  lemma ExactIf(b: bool, l: Line, tail: Lines)
    ensures AllExact(If(b, l, tail)) <==> (b ==> LineExact(l)) && AllExact(tail)
  {
    hide LineExact;
  }

  lemma OkExact(l: Line)
    requires LineOk(l)
    ensures LineExact(l)
  {
    hide LineOk, LineText, ReadLine;
    LineReads(l);
    LineOneLine(l);
  }

  lemma {:induction false} AllOkExact(xs: Lines)
    requires LinesOk(xs)
    ensures AllExact(xs)
  {
    hide LineOk, LineExact;
    match xs
    case Nil =>
    case Cons(l, tail) =>
      OkExact(l);
      AllOkExact(tail);
  }

  /** A comment is read as it was meant if and only if it is on one line. */
  lemma NoteExact(t: string)
    requires t != "" && t[0] == '#'
    ensures LineExact(Note(t)) <==> OneLine(t)
  {
    if OneLine(t) {
      hide LineExact;
      OkExact(Note(t));
    }
  }

  // ---- the words of a command ----

  /** The words up to the first separator or comment. */
  function HeadOf(ws: seq<string>): (h: seq<string>)
    ensures h <= ws
    decreases |ws|
  {
    if ws == [] || (ws[0] != "" && ws[0][0] == '#') || IsSeparator(ws[0]) then []
    else
      assert ws == [ws[0]] + ws[1..];
      [ws[0]] + HeadOf(ws[1..])
  }

  lemma {:induction false} FirstCommand(ws: seq<string>, acc: seq<string>)
    ensures ReadClauses(ws, acc).cmd == ReadCmd(acc + HeadOf(ws))
    decreases |ws|
  {
    hide ReadCmd;
    if HeadOf(ws) == [] {
      assert acc + [] == acc;
    } else {
      FirstCommand(ws[1..], acc + [ws[0]]);
      assert acc + [ws[0]] + HeadOf(ws[1..]) == acc + ([ws[0]] + HeadOf(ws[1..]));
    }
  }

  lemma HeadCons(w: string, ws: seq<string>)
    requires PlainWord(w)
    ensures HeadOf([w] + ws) == [w] + HeadOf(ws)
  {
    assert ([w] + ws)[1..] == ws;
  }

  lemma {:induction false} TokensProper(l: string, w: string)
    requires NoSpace(w)
    ensures AllWords(Tokens(l, w))
    decreases |l|
  {
    if l != "" {
      if IsSpace(l[0]) {
        TokensProper(l[1..], "");
      } else {
        TokensProper(l[1..], w + [l[0]]);
      }
    }
  }

  /** All words of the text stand for themselves. */
  predicate AllHead(ws: seq<string>) { HeadOf(ws) == ws }

  lemma {:induction false} PlainHead(ws: seq<string>)
    requires AllWords(ws)
    ensures AllPlain(ws) <==> AllHead(ws)
    decreases |ws|
  {
    if ws != [] {
      assert forall i :: 0 <= i < |ws[1..]| ==> ws[1..][i] == ws[i + 1];
      PlainHead(ws[1..]);
      assert ws == [ws[0]] + ws[1..];
    }
  }

  // ---- set lines ----

  /** A value that is read as it was meant: words separated by single spaces, none of them a
      separator or the start of a comment, and no reference. */
  predicate ValueOk(v: string) {
    Join(Tokens(v, "")) == v && AllPlain(Tokens(v, "")) && !HasRef(v)
  }

  lemma OneToken(w: string)
    requires IsWord(w)
    ensures Tokens(w, "") == [w]
  {
    TokensJoin([w]);
  }

  lemma SetLineText(name: Word, v: string)
    ensures LineText(Do(Set(name, V(v)))) == "set" + " " + (name.Print() + " " + v)
  {
    var p := name.Print();
    assert V(v).Print() == v;
    var ws := ["set", p, v];
    assert ws[1..] == [p, v] && [p, v][1..] == [v];
    assert Join([p, v]) == p + " " + v;
    assert Join(ws) == "set" + " " + Join(ws[1..]);
  }

  lemma SetTokens(p: string, v: string)
    requires IsWord(p)
    ensures Tokens("set" + " " + (p + " " + v), "") == ["set"] + ([p] + Tokens(v, ""))
  {
    Keywords();
    OneToken("set");
    OneToken(p);
    hide Tokens, IsWord;
    TokensSplit("set", p + " " + v, "");
    TokensSplit(p, v, "");
  }

  lemma SetCmd(name: Word, h: seq<string>)
    requires ArgOk(name) && ':' !in name.Print()
    ensures ReadCmd(["set"] + ([name.Print()] + h)) == Set(name, ReadWord(Join(h)))
  {
    var p := name.Print();
    ArgReads(name);
    NotTyped(p);
    Verbs();
    var ws := ["set"] + ([p] + h);
    assert ws[2..] == h;
    hide ArgOk, PlainWord, VerbOf, ReadWord, Join, IsTyped;
  }

  /** How a set line is read. */
  lemma SetRead(name: Word, v: string)
    requires ArgOk(name) && ':' !in name.Print()
    ensures var l := ReadLine(LineText(Do(Set(name, V(v)))));
      && l == Run(ReadClauses(["set"] + ([name.Print()] + Tokens(v, "")), []))
      && l.clauses.cmd == Set(name, ReadWord(Join(HeadOf(Tokens(v, "")))))
  {
    var p, tv := name.Print(), Tokens(v, "");
    var ws := ["set"] + ([p] + tv);
    ArgReads(name);
    Keywords();
    SetLineText(name, v);
    hide ArgOk;
    SetTokens(p, v);
    assert ws[0] == "set" && "set"[0] == 's';
    FirstCommand(ws, []);
    HeadCons("set", [p] + tv);
    HeadCons(p, tv);
    hide PlainWord, Tokens, HeadOf, ReadClauses, ReadCmd, LineText, Join, ReadWord;
    assert [] + HeadOf(ws) == HeadOf(ws);
    SetCmd(name, HeadOf(tv));
  }

  lemma WordsPrefix(h: seq<string>, ws: seq<string>)
    requires h <= ws && AllWords(ws)
    ensures AllWords(h)
  {
    assert forall i :: 0 <= i < |h| ==> h[i] == ws[i];
  }

  lemma SetOnlyIf(name: Word, v: string)
    requires ArgOk(name) && ':' !in name.Print() && LineExact(Do(Set(name, V(v))))
    ensures ValueOk(v)
  {
    SetRead(name, v);
    var tv := Tokens(v, "");
    var h := HeadOf(tv);
    TokensProper(v, "");
    hide ArgOk, LineText, ReadLine, ReadClauses, ReadWord, Tokens, HeadOf;
    assert ReadWord(Join(h)) == V(v);
    ReadPrints(Join(h));
    assert V(v).Print() == v;
    WordsPrefix(h, tv);
    TokensJoin(h);
    assert h == tv;
    PlainHead(tv);
    ReadAsIs(v);
  }

  lemma ValueOneLine(v: string)
    requires ValueOk(v)
    ensures OneLine(v)
  {
    TokensProper(v, "");
    hide Tokens, Join;
    JoinOneLine(Tokens(v, ""));
  }

  lemma PlainLast(ws: seq<string>)
    requires AllPlain(ws)
    ensures ReadClauses(ws, []) == Last(ReadCmd(ws))
  {
    hide ReadCmd, AllPlain;
    PlainRead(ws, [], []);
    assert ws + [] == ws && [] + ws == ws;
    assert ReadClauses([], ws) == Last(ReadCmd(ws));
  }

  lemma SetIf(name: Word, v: string)
    requires ArgOk(name) && ':' !in name.Print() && ValueOk(v)
    ensures LineExact(Do(Set(name, V(v))))
  {
    SetRead(name, v);
    SetLineText(name, v);
    ValueOneLine(v);
    ArgReads(name);
    Keywords();
    ReadAsIs(v);
    var p, tv := name.Print(), Tokens(v, "");
    var ws := ["set"] + ([p] + tv);
    assert OneLine("set" + " " + (p + " " + v));
    hide ArgOk, LineText, ReadLine, ReadClauses, ReadWord, Tokens, HeadOf, PlainWord, Join, ReadCmd, IsWord;
    PlainLast(ws);
    SetCmd(name, tv);
  }

  /** A set line is read as it was meant if and only if its value is. */
  lemma SetExact(name: Word, v: string)
    requires ArgOk(name) && ':' !in name.Print()
    ensures LineExact(Do(Set(name, V(v)))) <==> ValueOk(v)
  {
    hide ArgOk, LineExact, ValueOk;
    if LineExact(Do(Set(name, V(v)))) {
      SetOnlyIf(name, v);
    }
    if ValueOk(v) {
      SetIf(name, v);
    }
  }

  // ---- the chain line ----

  /** A proxy address that is read as it was meant: one word that starts no comment, with no
      reference in it. */
  predicate BaseOk(base: string) { NoSpace(base) && !HasRef(base) && (base == "" || base[0] != '#') }

  /** Text without a closing brace does not end the name of a reference. */
  lemma {:induction false} OpenTaken(a: string, s: string)
    requires '}' !in a && s != "" && s[0] != '{' && ReadUpTo(s, true).1 == ""
    ensures ReadUpTo(a + s, true).1 == ""
    decreases |a|
  {
    if a == "" {
      assert a + s == s;
    } else {
      var t := a + s;
      assert a == [a[0]] + a[1..];
      assert t[0] == a[0] && t[1..] == a[1..] + s && (|a| == 1 ==> t[1] == s[0]);
      hide ReadUpTo;
      OpenTaken(a[1..], s);
      if |a| >= 2 && a[0] == '$' && a[1] == '{' {
        assert a == [a[0], a[1]] + a[2..];
        OpenTaken(a[2..], s);
        assert t[2..] == a[2..] + s;
      }
      ReadsStep(t, true);
    }
  }

  /** Text without a reference, before more that closes none of its openings. */
  lemma {:induction false} OpenReads(t: string, s: string)
    requires !HasRef(t) && s != "" && s[0] != '{' && ReadUpTo(s, true).1 == ""
    ensures ReadUpTo(t + s, false) == (PushAll(t, ReadUpTo(s, false).0), ReadUpTo(s, false).1)
    decreases |t|
  {
    hide ReadUpTo;
    if t == "" {
      assert t + s == s;
    } else {
      var u := t + s;
      assert u[0] == t[0] && u[1..] == t[1..] + s && (|t| == 1 ==> u[1] == s[0]);
      HasRefLater(t);
      if |t| >= 2 && t[0] == '$' && t[1] == '{' {
        HasRefNow(t);
        OpenTaken(t[2..], s);
        assert u[2..] == t[2..] + s;
      }
      ReadsStep(u, false);
      hide HasRef;
      OpenReads(t[1..], s);
      PushMore(t[0], t[1..], ReadUpTo(s, false).0);
      hide PushAll;
      assert [t[0]] + t[1..] == t;
    }
  }

  const CFG := "/ipxe.cfg-"

  /** What follows the proxy address. */
  function CfgWord(): Word { Lit(CFG, MacRef(Empty)) }

  lemma CfgTexts()
    ensures TextOk(CFG) && '}' !in CFG && TextOk("net") && TextOk("nic") && TextOk("/mac")
    ensures '}' !in "net" && '}' !in "nic" && '}' !in "/mac"
  {
  }

  lemma CfgOk(nested: bool)
    ensures WordOk(CfgWord(), nested)
  {
    CfgTexts();
    hide TextOk;
    assert WordOk(Empty, true) && WordOk(Empty, nested);
    assert WordOk(W("/mac"), true) && WordOk(W("nic"), true);
    assert WordOk(Ref(W("nic"), W("/mac")), true);
    assert WordOk(NetNic(W("/mac")), true);
    assert WordOk(MacRef(Empty), nested);
  }

  lemma CfgStart()
    ensures var p := CfgWord().Print(); |p| > 10 && p[0] == '/' && p[10] == '$'
  {
    var m := MacRef(Empty).Print();
    assert m[0] == '$';
    assert CfgWord().Print() == CFG + m;
  }

  lemma UrlPrint(base: string)
    ensures ChainUrl(base).Print() == base + CfgWord().Print()
  {
    var m := MacRef(Empty).Print();
    assert base + CFG + m == base + (CFG + m);
  }

  /** The address of the script is read as it was meant if and only if it has no reference. */
  lemma UrlReads(base: string)
    ensures ReadWord(ChainUrl(base).Print()) == ChainUrl(base) <==> !HasRef(base)
  {
    UrlPrint(base);
    var p := CfgWord().Print();
    if HasRef(base) {
      LeadShort(base, p);
      hide ReadUpTo;
      assert |Lead(ChainUrl(base))| >= |base|;
    } else {
      CfgStart();
      CfgOk(true);
      CfgOk(false);
      hide ReadUpTo, HasRef;
      WordReadsBack(CfgWord(), true, "");
      WordReadsBack(CfgWord(), false, "");
      assert p + "" == p;
      OpenReads(base, p);
      assert PushAll(base, CfgWord()) == ChainUrl(base) by { UrlPushed(base); }
    }
  }

  lemma UrlPushed(base: string)
    ensures PushAll(base, CfgWord()) == ChainUrl(base)
  {
    if base == "" {
      assert base + CFG == CFG;
    }
  }

  const AFTER: seq<string> := ["&&", "goto", "os_done", "||"]

  lemma ChainLineText(base: string)
    ensures LineText(Branch(Chain(ChainUrl(base)), "os_done")) ==
      "chain" + " " + ("--autofree" + " " + (ChainUrl(base).Print() + " " + Join(AFTER)))
  {
    var q := ChainUrl(base).Print();
    var ws := ["chain", "--autofree", q] + AFTER;
    var rest := OrElse(Goto("os_done"), Last(Nop));
    assert ClauseWords(Last(Nop)) == [];
    assert ClauseWords(rest) == ["goto", "os_done"] + ["||"] + [];
    assert ClauseWords(AndThen(Chain(ChainUrl(base)), rest)) == ["chain", "--autofree", q] + ["&&"] + ClauseWords(rest) == ws;
    hide ClauseWords;
    JoinStep(ws);
    JoinStep(ws[1..]);
    JoinStep(ws[1..][1..]);
    assert ws[1..] == ["--autofree", q] + AFTER && ws[1..][1..] == [q] + AFTER && ws[1..][1..][1..] == AFTER;
    hide Join;
  }

  lemma JoinStep(ws: seq<string>)
    ensures |ws| > 1 ==> Join(ws) == ws[0] + " " + Join(ws[1..])
  {
  }

  lemma AfterWords()
    ensures AllWords(AFTER) && Tokens(Join(AFTER), "") == AFTER
  {
    Separators();
    Keywords();
    assert IsWord("os_done");
    hide IsWord, PlainWord, Tokens, Join, IsSeparator;
    TokensJoin(AFTER);
  }

  lemma ChainTokens(base: string)
    ensures Tokens(LineText(Branch(Chain(ChainUrl(base)), "os_done")), "") ==
      ["chain"] + (["--autofree"] + (Tokens(ChainUrl(base).Print(), "") + AFTER))
  {
    var q := ChainUrl(base).Print();
    ChainLineText(base);
    AfterWords();
    Keywords();
    OneToken("chain");
    OneToken("--autofree");
    hide Tokens, Join, LineText, PlainWord;
    TokensSplit("chain", "--autofree" + " " + (q + " " + Join(AFTER)), "");
    TokensSplit("--autofree", q + " " + Join(AFTER), "");
    TokensSplit(q, Join(AFTER), "");
  }

  lemma ChainCmd(h: seq<string>)
    ensures ReadCmd(["chain"] + (["--autofree"] + h)) ==
      if |h| == 1 then Chain(ReadWord(h[0])) else Unknown(["chain"] + (["--autofree"] + h))
  {
    Verbs();
    hide VerbOf, ReadWord;
  }

  /** How the chain line is read. */
  lemma ChainRead(base: string)
    ensures var l := ReadLine(LineText(Branch(Chain(ChainUrl(base)), "os_done")));
      var h := HeadOf(Tokens(ChainUrl(base).Print(), "") + AFTER);
      && l == Run(ReadClauses(["chain"] + (["--autofree"] + (Tokens(ChainUrl(base).Print(), "") + AFTER)), []))
      && l.clauses.cmd == if |h| == 1 then Chain(ReadWord(h[0])) else Unknown(["chain"] + (["--autofree"] + h))
  {
    var tq := Tokens(ChainUrl(base).Print(), "");
    var ws := ["chain"] + (["--autofree"] + (tq + AFTER));
    ChainTokens(base);
    Keywords();
    assert ws[0] == "chain" && "chain"[0] == 'c';
    FirstCommand(ws, []);
    HeadCons("chain", ["--autofree"] + (tq + AFTER));
    HeadCons("--autofree", tq + AFTER);
    hide PlainWord, Tokens, HeadOf, ReadClauses, ReadCmd, LineText, ReadWord;
    assert [] + HeadOf(ws) == HeadOf(ws);
    ChainCmd(HeadOf(tq + AFTER));
  }

  lemma {:induction false} SomeToken(l: string, w: string)
    requires w != "" || exists i :: 0 <= i < |l| && !IsSpace(l[i])
    ensures Tokens(l, w) != []
    decreases |l|
  {
    if l != "" {
      if IsSpace(l[0]) {
        if w == "" {
          var i :| 0 <= i < |l| && !IsSpace(l[i]);
          assert l[1..][i - 1] == l[i];
          SomeToken(l[1..], "");
        }
      } else {
        SomeToken(l[1..], w + [l[0]]);
      }
    }
  }

  lemma HeadPlain(ws: seq<string>)
    requires ws != [] && HeadOf(ws) != [] && ws[0] != ""
    ensures HeadOf(ws)[0] == ws[0] && ws[0][0] != '#'
  {
  }

  lemma ChainOnlyIf(base: string)
    requires LineExact(Branch(Chain(ChainUrl(base)), "os_done"))
    ensures BaseOk(base)
  {
    ChainRead(base);
    var u := ChainUrl(base);
    var q := u.Print();
    var tq := Tokens(q, "");
    UrlPrint(base);
    CfgStart();
    assert q[|base|] == '/';
    SomeToken(q, "");
    TokensProper(q, "");
    hide LineText, ReadLine, ReadClauses, Tokens;
    var h := HeadOf(tq + AFTER);
    assert |h| == 1 && ReadWord(h[0]) == u;
    HeadPlain(tq + AFTER);
    hide HeadOf, ReadWord;
    assert h[0] == tq[0] && IsWord(tq[0]);
    ReadPrints(h[0]);
    assert tq[0] == q;
    NoSpaceConcat(base, CfgWord().Print());
    UrlReads(base);
    assert base != "" ==> q[0] == base[0];
  }

  lemma UrlPlain(base: string)
    requires BaseOk(base)
    ensures PlainWord(ChainUrl(base).Print())
  {
    UrlPrint(base);
    CfgStart();
    CfgOk(false);
    var p := CfgWord().Print();
    PrintNoSpace(CfgWord(), false);
    NoSpaceConcat(base, p);
    var q := base + p;
    assert q[0] == if base == "" then '/' else base[0];
    assert |q| > 2;
  }

  lemma ChainOneLine(base: string)
    requires BaseOk(base)
    ensures OneLine(LineText(Branch(Chain(ChainUrl(base)), "os_done")))
  {
    ChainLineText(base);
    UrlPlain(base);
    AfterWords();
    assert OneLine("chain") && OneLine("--autofree") && OneLine(ChainUrl(base).Print());
    hide BaseOk, LineText, Join, ChainUrl;
    JoinOneLine(AFTER);
  }

  lemma ChainClauses(q: string, u: Word)
    requires PlainWord(q) && ReadWord(q) == u
    ensures ReadClauses(["chain"] + (["--autofree"] + ([q] + AFTER)), []) ==
      AndThen(Chain(u), OrElse(Goto("os_done"), Last(Nop)))
  {
    Keywords();
    var ws := ["chain", "--autofree", q];
    assert ["chain"] + (["--autofree"] + ([q] + AFTER)) == ws + (["&&"] + ["goto", "os_done", "||"]);
    hide PlainWord, ReadWord, ReadClauses, ReadCmd;
    PlainRead(ws, ["&&"] + ["goto", "os_done", "||"], []);
    assert [] + ws == ws;
    BranchRest(ws);
    ChainWords(q, u);
  }

  lemma ChainIf(base: string)
    requires BaseOk(base)
    ensures LineExact(Branch(Chain(ChainUrl(base)), "os_done"))
  {
    var u := ChainUrl(base);
    var q := u.Print();
    ChainRead(base);
    UrlPlain(base);
    UrlReads(base);
    OneToken(q);
    hide LineText, Tokens, HeadOf, ReadWord, PlainWord, ReadClauses, HasRef, ChainUrl;
    ChainOneLine(base);
    ChainClauses(q, u);
  }

  lemma ChainWords(q: string, u: Word)
    requires ReadWord(q) == u
    ensures ReadCmd(["chain", "--autofree", q]) == Chain(u)
  {
    ChainCmd([q]);
    hide ReadCmd, ReadWord;
    assert ["chain"] + (["--autofree"] + [q]) == ["chain", "--autofree", q];
  }

  lemma BranchRest(ws: seq<string>)
    ensures ReadClauses(["&&"] + ["goto", "os_done", "||"], ws) == AndThen(ReadCmd(ws), OrElse(Goto("os_done"), Last(Nop)))
  {
    Separators();
    assert PlainWord("os_done");
    hide IsSeparator;
    SeparatorRead("&&", ["goto", "os_done", "||"], ws);
    assert CmdOk(Goto("os_done")) && CmdOk(Nop);
    CommandLast(Nop);
    hide ReadCmd, CmdOk, PlainWord, ReadClauses;
    CommandThen(Goto("os_done"), "||", []);
    assert CmdWords(Goto("os_done")) + ["||"] + [] == ["goto", "os_done", "||"];
  }

  /** The chain line is read as it was meant if and only if the proxy address is. */
  lemma ChainExact(base: string)
    ensures LineExact(Branch(Chain(ChainUrl(base)), "os_done")) <==> BaseOk(base)
  {
    hide LineExact, BaseOk;
    if LineExact(Branch(Chain(ChainUrl(base)), "os_done")) {
      ChainOnlyIf(base);
    }
    if BaseOk(base) {
      ChainIf(base);
    }
  }
}
