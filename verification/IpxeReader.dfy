/** Reading a script from its text: lines, words, references, commands and their separators. */
module IpxeReader {
  import opened Text
  import opened Nodes
  import opened IpxeLang
  import opened IpxeScript
  import opened IpxeText

  // ---- words ----

  /** w with c put before it. */
  function Push(c: char, w: Word): Word {
    if w.Lit? then Lit([c] + w.text, w.rest) else Lit([c], w)
  }

  /** Reads a word, up to the closing brace if it is the name of a reference; what is left comes
      second. The dollar sign of a reference that is not closed is plain text. */
  function ReadUpTo(s: string, nested: bool): (r: (Word, string))
    ensures |r.1| <= |s| && (r.1 != "" ==> nested && r.1[0] == '}')
    decreases |s|
  {
    if s == "" || (nested && s[0] == '}') then (Empty, s)
    else if |s| >= 2 && s[0] == '$' && s[1] == '{' then
      var (n, rest) := ReadUpTo(s[2..], true);
      if rest == "" then
        var (r, end) := ReadUpTo(s[1..], nested);
        (Push('$', r), end)
      else
        var (r, end) := ReadUpTo(rest[1..], nested);
        (Ref(n, r), end)
    else
      var (r, end) := ReadUpTo(s[1..], nested);
      (Push(s[0], r), end)
  }

  function ReadWord(s: string): Word { ReadUpTo(s, false).0 }

  function ReadWords(ws: seq<string>): (r: seq<Word>)
    ensures |r| == |ws|
  {
    seq(|ws|, i requires 0 <= i < |ws| => ReadWord(ws[i]))
  }

  // ---- commands ----

  datatype Verb = VSet | VIsset | VIseq | VGoto | VEcho | VInc | VChain | VDevice | VSleep | VExit | VOther

  function VerbOf(s: string): Verb {
    if s == "set" then VSet
    else if s == "isset" then VIsset
    else if s == "iseq" then VIseq
    else if s == "goto" then VGoto
    else if s == "echo" then VEcho
    else if s == "inc" then VInc
    else if s == "chain" then VChain
    else if s == "ifopen" || s == "ifclose" || s == "vcreate" || s == "vdestroy" then VDevice
    else if s == "sleep" then VSleep
    else if s == "exit" then VExit
    else VOther
  }

  predicate IsNumber(s: string) { s != "" && forall i :: 0 <= i < |s| ==> '0' <= s[i] <= '9' }

  function ReadNumber(s: string): nat
    requires forall i :: 0 <= i < |s| ==> '0' <= s[i] <= '9'
  {
    if s == "" then 0 else 10 * ReadNumber(s[..|s| - 1]) + (s[|s| - 1] as int - 48)
  }

  const INT := ":int32"

  predicate IsTyped(name: string) { |name| > 6 && name[|name| - 6..] == INT }

  /** A command with its arguments; the values of a set command are joined by spaces again. */
  function ReadCmd(ws: seq<string>): Cmd {
    if ws == [] then Nop
    else
      match VerbOf(ws[0])
      case VSet =>
        if |ws| == 1 then Unknown(ws)
        else if |ws| == 3 && IsTyped(ws[1]) && IsNumber(ws[2]) then SetInt(ws[1][..|ws[1]| - 6], ReadNumber(ws[2]))
        else Set(ReadWord(ws[1]), ReadWord(Join(ws[2..])))
      case VIsset => if |ws| == 2 then Isset(ReadWord(ws[1])) else Unknown(ws)
      case VIseq => if |ws| == 3 then Iseq(ReadWord(ws[1]), ReadWord(ws[2])) else Unknown(ws)
      case VGoto => if |ws| == 2 then Goto(ws[1]) else Unknown(ws)
      case VEcho => Echo(ReadWords(ws[1..]))
      case VInc => if |ws| == 2 then Inc(ws[1]) else Unknown(ws)
      case VChain => if |ws| == 3 && ws[1] == "--autofree" then Chain(ReadWord(ws[2])) else Unknown(ws)
      case VDevice => Device(ws[0], ReadWords(ws[1..]))
      case VSleep => if |ws| == 2 && IsNumber(ws[1]) then Sleep(ReadNumber(ws[1])) else Unknown(ws)
      case VExit => if |ws| == 2 && IsNumber(ws[1]) then Exit(ReadNumber(ws[1])) else Unknown(ws)
      case VOther => Unknown(ws)
  }

  // ---- lines ----

  predicate IsSeparator(w: string) { w == "&&" || w == "||" || w == ";" }

  /** The commands of a line; acc holds the words of the command being read. A word that starts
      with # starts a comment. */
  function ReadClauses(ws: seq<string>, acc: seq<string>): Clauses
    decreases |ws|
  {
    if ws == [] || (ws[0] != "" && ws[0][0] == '#') then Last(ReadCmd(acc))
    else if ws[0] == "&&" then AndThen(ReadCmd(acc), ReadClauses(ws[1..], []))
    else if ws[0] == "||" then OrElse(ReadCmd(acc), ReadClauses(ws[1..], []))
    else if ws[0] == ";" then Always(ReadCmd(acc), ReadClauses(ws[1..], []))
    else ReadClauses(ws[1..], acc + [ws[0]])
  }

  function ReadLine(l: string): Line {
    var ws := Tokens(l, "");
    if ws == [] then Note(l)
    else if ws[0] != "" && ws[0][0] == '#' then Note(l)
    else if ws[0] != "" && ws[0][0] == ':' then Label(ws[0][1..])
    else Run(ReadClauses(ws, []))
  }

  /** The length of the first line. */
  function LineLength(s: string): (n: nat)
    ensures n <= |s| && '\n' !in s[..n] && (n < |s| ==> s[n] == '\n')
  {
    if s == "" || s[0] == '\n' then 0
    else
      var n := 1 + LineLength(s[1..]);
      assert s[..n] == [s[0]] + s[1..][..n - 1];
      n
  }

  function ReadText(s: string): Lines
    decreases |s|
  {
    if s == "" then Nil
    else
      var n := LineLength(s);
      Cons(ReadLine(s[..n]), if n == |s| then Nil else ReadText(s[n + 1..]))
  }

  // ---- words read back ----

  /** Text that can stand in a word as it is. */
  predicate TextOk(t: string) { t != "" && forall i :: 0 <= i < |t| ==> !IsSpace(t[i]) && t[i] != '$' }

  /** Words as they are read: texts and references in turn, and no brace in the name of a
      reference but its own. */
  predicate WordOk(w: Word, nested: bool) {
    match w
    case Empty => true
    case Lit(t, r) => TextOk(t) && (nested ==> '}' !in t) && !r.Lit? && WordOk(r, nested)
    case Ref(n, r) => WordOk(n, true) && WordOk(r, nested)
  }

  function PushAll(t: string, w: Word): Word {
    if t == "" then w else if w.Lit? then Lit(t + w.text, w.rest) else Lit(t, w)
  }

  lemma ReadsNothing(s: string, nested: bool)
    requires s == "" || (nested && s[0] == '}')
    ensures ReadUpTo(s, nested) == (Empty, s)
  {
  }

  lemma ReadsChar(c: char, s: string, nested: bool)
    requires c != '$' && (nested ==> c != '}')
    ensures ReadUpTo([c] + s, nested) == (Push(c, ReadUpTo(s, nested).0), ReadUpTo(s, nested).1)
  {
    assert ([c] + s)[1..] == s;
  }

  lemma ReadsReference(t: string, n: string, name: Word, s: string, nested: bool)
    requires |t| >= 2 && t[0] == '$' && t[1] == '{' && t[2..] == n
    requires ReadUpTo(n, true) == (name, ['}'] + s)
    ensures ReadUpTo(t, nested) == (Ref(name, ReadUpTo(s, nested).0), ReadUpTo(s, nested).1)
  {
    assert (['}'] + s)[1..] == s;
  }

  lemma PushMore(c: char, t: string, w: Word)
    ensures Push(c, PushAll(t, w)) == PushAll([c] + t, w)
  {
    if w.Lit? {
      assert [c] + (t + w.text) == ([c] + t) + w.text;
      if t == "" {
        assert [c] + t == [c];
      }
    } else {
      if t == "" {
        assert [c] + t == [c];
      }
    }
  }

  lemma {:induction false} TextReads(t: string, s: string, nested: bool)
    requires (forall i :: 0 <= i < |t| ==> t[i] != '$') && (nested ==> '}' !in t)
    ensures ReadUpTo(t + s, nested) == (PushAll(t, ReadUpTo(s, nested).0), ReadUpTo(s, nested).1)
  {
    hide ReadUpTo, Push;
    if t == "" {
      assert t + s == s;
    } else {
      TextReads(t[1..], s, nested);
      ReadsChar(t[0], t[1..] + s, nested);
      PushMore(t[0], t[1..], ReadUpTo(s, nested).0);
      hide PushAll;
      assert t + s == [t[0]] + (t[1..] + s);
      assert [t[0]] + t[1..] == t;
    }
  }

  lemma LitReads(t: string, r: Word, p: string, rest: string, nested: bool)
    requires TextOk(t) && (nested ==> '}' !in t) && !r.Lit? && ReadUpTo(p + rest, nested) == (r, rest)
    ensures ReadUpTo(t + p + rest, nested) == (Lit(t, r), rest)
  {
    hide ReadUpTo;
    TextReads(t, p + rest, nested);
    assert t + p + rest == t + (p + rest);
  }

  lemma RefReads(n: Word, np: string, r: Word, p: string, rest: string, nested: bool)
    requires ReadUpTo(np + (['}'] + (p + rest)), true) == (n, ['}'] + (p + rest))
    requires ReadUpTo(p + rest, nested) == (r, rest)
    ensures ReadUpTo("${" + np + "}" + p + rest, nested) == (Ref(n, r), rest)
  {
    hide ReadUpTo;
    var t := "${" + np + "}" + p + rest;
    assert t[2..] == np + (['}'] + (p + rest));
    ReadsReference(t, t[2..], n, p + rest, nested);
  }

  lemma {:induction false} WordReadsBack(w: Word, nested: bool, rest: string)
    requires WordOk(w, nested) && (rest == "" || (nested && rest[0] == '}'))
    ensures ReadUpTo(w.Print() + rest, nested) == (w, rest)
    decreases w
  {
    hide ReadUpTo;
    match w
    case Empty =>
      assert w.Print() + rest == rest;
      ReadsNothing(rest, nested);
    case Lit(t, r) =>
      WordReadsBack(r, nested, rest);
      LitReads(t, r, r.Print(), rest, nested);
    case Ref(n, r) =>
      WordReadsBack(n, true, ['}'] + (r.Print() + rest));
      WordReadsBack(r, nested, rest);
      RefReads(n, n.Print(), r, r.Print(), rest, nested);
  }

  /** A word that stands for itself on a line. */
  predicate PlainWord(s: string) { IsWord(s) && s[0] != '#' && !IsSeparator(s) }

  predicate ArgOk(w: Word) {
    w != Empty && WordOk(w, false) && (w.Lit? ==> w.text[0] != '#' && (w.rest == Empty ==> !IsSeparator(w.text)))
  }

  lemma {:induction false} PrintNoSpace(w: Word, nested: bool)
    requires WordOk(w, nested)
    ensures NoSpace(w.Print())
  {
    match w
    case Empty =>
    case Lit(t, r) =>
      PrintNoSpace(r, nested);
      NoSpaceConcat(t, r.Print());
    case Ref(n, r) =>
      PrintNoSpace(n, true);
      PrintNoSpace(r, nested);
      NoSpaceConcat("${", n.Print());
      NoSpaceConcat("${" + n.Print(), "}");
      NoSpaceConcat("${" + n.Print() + "}", r.Print());
  }

  lemma ArgReads(w: Word)
    requires ArgOk(w)
    ensures PlainWord(w.Print()) && ReadWord(w.Print()) == w
  {
    PrintNoSpace(w, false);
    WordReadsBack(w, false, "");
    assert w.Print() + "" == w.Print();
    var p := w.Print();
    match w
    case Lit(t, r) =>
      assert p[0] == t[0];
      match r {
        case Empty => assert p == t;
        case Ref(n, x) =>
          assert p[|t|] == '$';
          assert '$' in p;
      }
    case Ref(n, r) =>
      assert p[0] == '$';
  }

  lemma ArgsRead(ws: seq<Word>)
    requires forall i :: 0 <= i < |ws| ==> ArgOk(ws[i])
    ensures forall i :: 0 <= i < |ws| ==> PlainWord(PrintAll(ws)[i])
    ensures ReadWords(PrintAll(ws)) == ws
  {
    forall i | 0 <= i < |ws|
      ensures PlainWord(PrintAll(ws)[i]) && ReadWord(PrintAll(ws)[i]) == ws[i]
    {
      ArgReads(ws[i]);
    }
  }

  lemma {:induction false} NumberReads(n: nat)
    ensures IsNumber(Dec(n)) && ReadNumber(Dec(n)) == n
  {
    if n >= 10 {
      NumberReads(n / 10);
      var d := Dec(n);
      assert d[..|d| - 1] == Dec(n / 10);
    } else {
      assert Dec(n)[..0] == "";
    }
  }

  // ---- commands read back ----

  predicate CmdOk(c: Cmd) {
    match c
    case Nop => true
    case Set(n, v) => ArgOk(n) && ArgOk(v) && ':' !in n.Print()
    case SetInt(n, _) => TextOk(n) && n[0] != '#'
    case Isset(x) => ArgOk(x)
    case Iseq(a, b) => ArgOk(a) && ArgOk(b)
    case Goto(l) => PlainWord(l)
    case Echo(ws) => forall i :: 0 <= i < |ws| ==> ArgOk(ws[i])
    case Inc(n) => PlainWord(n)
    case Chain(u) => ArgOk(u)
    case Device(verb, args) => VerbOf(verb) == VDevice && forall i :: 0 <= i < |args| ==> ArgOk(args[i])
    case Sleep(_) => true
    case Exit(_) => true
    case Unknown(_) => false
  }

  predicate AllPlain(ws: seq<string>) { forall i :: 0 <= i < |ws| ==> PlainWord(ws[i]) }

  predicate IsVerb(s: string) { PlainWord(s) && 'a' <= s[0] <= 'z' }

  lemma Keywords()
    ensures IsVerb("set") && IsVerb("isset") && IsVerb("iseq") && IsVerb("goto") && IsVerb("echo") && IsVerb("inc")
    ensures IsVerb("chain") && IsVerb("sleep") && IsVerb("exit") && PlainWord("--autofree")
  {
  }

  lemma DeviceKeywords()
    ensures IsVerb("ifopen") && IsVerb("ifclose") && IsVerb("vcreate") && IsVerb("vdestroy")
  {
  }

  lemma Verbs()
    ensures VerbOf("set") == VSet && VerbOf("isset") == VIsset && VerbOf("iseq") == VIseq && VerbOf("goto") == VGoto
    ensures VerbOf("echo") == VEcho && VerbOf("inc") == VInc && VerbOf("chain") == VChain
    ensures VerbOf("ifopen") == VerbOf("ifclose") == VerbOf("vcreate") == VerbOf("vdestroy") == VDevice
    ensures VerbOf("sleep") == VSleep && VerbOf("exit") == VExit
  {
  }

  lemma NumberPlain(n: nat)
    ensures PlainWord(Dec(n))
  {
    assert '0' <= Dec(n)[0] <= '9';
  }

  lemma TypedReads(n: string)
    requires TextOk(n) && n[0] != '#'
    ensures IsTyped(n + INT) && (n + INT)[..|n + INT| - 6] == n && PlainWord(n + INT)
  {
    var s := n + INT;
    assert s[|s| - 6..] == INT;
    assert NoSpace(INT);
    NoSpaceConcat(n, INT);
    assert s[|n|] == ':';
    assert ':' in s;
  }

  lemma SetReads(n: Word, v: Word)
    requires CmdOk(Set(n, v))
    ensures AllPlain(CmdWords(Set(n, v))) && ReadCmd(CmdWords(Set(n, v))) == Set(n, v)
  {
    ArgReads(n);
    ArgReads(v);
    Keywords();
    Verbs();
    var ws := CmdWords(Set(n, v));
    assert ws[2..] == [v.Print()];
    assert Join(ws[2..]) == v.Print();
    hide ArgOk, PlainWord, VerbOf, ReadWord, Join;
    NotTyped(ws[1]);
    hide IsTyped;
  }

  lemma NotTyped(s: string)
    requires ':' !in s
    ensures !IsTyped(s)
  {
    if |s| > 6 {
      var t := s[|s| - 6..];
      assert t[0] == s[|s| - 6] && INT[0] == ':';
      assert s[|s| - 6] in s;
    }
  }

  lemma SetIntReads(n: string, k: nat)
    requires CmdOk(SetInt(n, k))
    ensures AllPlain(CmdWords(SetInt(n, k))) && ReadCmd(CmdWords(SetInt(n, k))) == SetInt(n, k)
  {
    Keywords();
    Verbs();
    NumberReads(k);
    NumberPlain(k);
    TypedReads(n);
    hide TextOk, PlainWord, VerbOf, IsTyped, ReadNumber, IsNumber, Dec;
  }

  lemma WordsRead(verb: string, args: seq<Word>)
    requires IsVerb(verb) && forall i :: 0 <= i < |args| ==> ArgOk(args[i])
    ensures var ws := [verb] + PrintAll(args); AllPlain(ws) && ReadWords(ws[1..]) == args
  {
    ArgsRead(args);
    var ws := [verb] + PrintAll(args);
    assert ws[1..] == PrintAll(args);
  }

  lemma EchoReads(ws: seq<Word>)
    requires CmdOk(Echo(ws))
    ensures AllPlain(CmdWords(Echo(ws))) && ReadCmd(CmdWords(Echo(ws))) == Echo(ws)
  {
    Keywords();
    Verbs();
    hide ArgOk, PlainWord, VerbOf, ReadWords, PrintAll;
    WordsRead("echo", ws);
  }

  lemma DeviceReads(verb: string, args: seq<Word>)
    requires CmdOk(Device(verb, args))
    ensures AllPlain(CmdWords(Device(verb, args))) && IsVerb(verb)
    ensures ReadCmd(CmdWords(Device(verb, args))) == Device(verb, args)
  {
    DeviceVerb(verb);
    hide ArgOk, PlainWord, VerbOf, ReadWords, PrintAll;
    WordsRead(verb, args);
  }

  lemma DeviceVerb(verb: string)
    requires VerbOf(verb) == VDevice
    ensures IsVerb(verb)
  {
    DeviceKeywords();
    hide PlainWord;
  }

  lemma CompareReads(c: Cmd)
    requires CmdOk(c) && (c.Isset? || c.Iseq? || c.Chain?)
    ensures AllPlain(CmdWords(c)) && ReadCmd(CmdWords(c)) == c
  {
    hide ArgOk, PlainWord, VerbOf, ReadWord;
    Keywords();
    Verbs();
    if c.Isset? {
      ArgReads(c.word);
    } else if c.Iseq? {
      ArgReads(c.left);
      ArgReads(c.right);
    } else {
      ArgReads(c.url);
    }
  }

  lemma SimpleReads(c: Cmd)
    requires CmdOk(c) && (c.Goto? || c.Inc? || c.Sleep? || c.Exit?)
    ensures AllPlain(CmdWords(c)) && ReadCmd(CmdWords(c)) == c
  {
    hide PlainWord, VerbOf, ReadNumber, IsNumber, Dec;
    Keywords();
    Verbs();
    if c.Sleep? {
      NumberReads(c.seconds);
      NumberPlain(c.seconds);
    } else if c.Exit? {
      NumberReads(c.code);
      NumberPlain(c.code);
    }
  }

  lemma CmdReads(c: Cmd)
    requires CmdOk(c)
    ensures AllPlain(CmdWords(c)) && ReadCmd(CmdWords(c)) == c
  {
    hide ArgOk, PlainWord, VerbOf, TextOk;
    match c
    case Nop =>
    case Set(n, v) => SetReads(n, v);
    case SetInt(n, k) => SetIntReads(n, k);
    case Echo(ws) => EchoReads(ws);
    case Device(verb, args) => DeviceReads(verb, args);
    case Isset(_) => CompareReads(c);
    case Iseq(_, _) => CompareReads(c);
    case Chain(_) => CompareReads(c);
    case Goto(_) => SimpleReads(c);
    case Inc(_) => SimpleReads(c);
    case Sleep(_) => SimpleReads(c);
    case Exit(_) => SimpleReads(c);
  }

  lemma StartsWithVerb(c: Cmd)
    requires CmdOk(c) && c != Nop
    ensures CmdWords(c) != [] && IsVerb(CmdWords(c)[0])
  {
    Keywords();
    if c.Device? {
      DeviceVerb(c.verb);
    }
    hide ArgOk, IsVerb, VerbOf, TextOk, PlainWord;
  }

  // ---- lines read back ----

  predicate ClausesOk(c: Clauses) {
    match c
    case Last(cmd) => CmdOk(cmd)
    case AndThen(cmd, rest) => CmdOk(cmd) && ClausesOk(rest)
    case OrElse(cmd, rest) => CmdOk(cmd) && ClausesOk(rest)
    case Always(cmd, rest) => CmdOk(cmd) && ClausesOk(rest)
  }

  lemma {:induction false} PlainRead(a: seq<string>, rest: seq<string>, acc: seq<string>)
    requires AllPlain(a)
    ensures ReadClauses(a + rest, acc) == ReadClauses(rest, acc + a)
    decreases |a|
  {
    if a == [] {
      assert a + rest == rest && acc + a == acc;
    } else {
      assert forall i :: 0 <= i < |a[1..]| ==> a[1..][i] == a[i + 1];
      PlainRead(a[1..], rest, acc + [a[0]]);
      assert PlainWord(a[0]);
      assert (a + rest)[0] == a[0] && (a + rest)[1..] == a[1..] + rest;
      assert acc + [a[0]] + a[1..] == acc + a;
    }
  }

  lemma SeparatorRead(sep: string, rest: seq<string>, acc: seq<string>)
    requires IsSeparator(sep)
    ensures ReadClauses([sep] + rest, acc) ==
      if sep == "&&" then AndThen(ReadCmd(acc), ReadClauses(rest, []))
      else if sep == "||" then OrElse(ReadCmd(acc), ReadClauses(rest, []))
      else Always(ReadCmd(acc), ReadClauses(rest, []))
  {
    assert ([sep] + rest)[1..] == rest && ([sep] + rest)[0] == sep;
    hide ReadCmd;
  }

  lemma CommandThen(c: Cmd, sep: string, rest: seq<string>)
    requires CmdOk(c) && IsSeparator(sep)
    ensures ReadClauses(CmdWords(c) + [sep] + rest, []) ==
      if sep == "&&" then AndThen(c, ReadClauses(rest, []))
      else if sep == "||" then OrElse(c, ReadClauses(rest, []))
      else Always(c, ReadClauses(rest, []))
  {
    CmdReads(c);
    hide ReadClauses, ReadCmd, CmdOk, CmdWords, AllPlain, IsSeparator;
    PlainRead(CmdWords(c), [sep] + rest, []);
    SeparatorRead(sep, rest, [] + CmdWords(c));
    assert CmdWords(c) + [sep] + rest == CmdWords(c) + ([sep] + rest);
    assert [] + CmdWords(c) == CmdWords(c);
  }

  lemma Separators()
    ensures IsSeparator("&&") && IsSeparator("||") && IsSeparator(";") && "&&" != "||" && "&&" != ";" && "||" != ";"
    ensures IsWord("&&") && IsWord("||") && IsWord(";")
  {
  }

  lemma CommandLast(c: Cmd)
    requires CmdOk(c)
    ensures ReadClauses(CmdWords(c), []) == Last(c)
  {
    CmdReads(c);
    var ws := CmdWords(c);
    hide ReadCmd, CmdOk, CmdWords, AllPlain;
    PlainRead(ws, [], []);
    assert ws + [] == ws && [] + ws == ws;
    assert ReadClauses([], ws) == Last(ReadCmd(ws));
  }

  lemma {:induction false} ClausesRead(c: Clauses)
    requires ClausesOk(c)
    ensures ReadClauses(ClauseWords(c), []) == c
    decreases c
  {
    Separators();
    hide ReadClauses, IsSeparator, CmdOk;
    match c
    case Last(cmd) => CommandLast(cmd);
    case AndThen(cmd, rest) =>
      ClausesRead(rest);
      CommandThen(cmd, "&&", ClauseWords(rest));
    case OrElse(cmd, rest) =>
      ClausesRead(rest);
      CommandThen(cmd, "||", ClauseWords(rest));
    case Always(cmd, rest) =>
      ClausesRead(rest);
      CommandThen(cmd, ";", ClauseWords(rest));
  }

  predicate AllWords(ws: seq<string>) { forall i :: 0 <= i < |ws| ==> IsWord(ws[i]) }

  lemma PlainAreWords(c: Cmd)
    requires CmdOk(c)
    ensures AllWords(CmdWords(c))
  {
    CmdReads(c);
    hide CmdOk, CmdWords, ReadCmd;
  }

  lemma AllWordsConcat(a: seq<string>, sep: string, b: seq<string>)
    requires AllWords(a) && IsWord(sep) && AllWords(b)
    ensures AllWords(a + [sep] + b)
  {
  }

  lemma {:induction false} ClauseWordsProper(c: Clauses)
    requires ClausesOk(c)
    ensures AllWords(ClauseWords(c))
    decreases c
  {
    Separators();
    PlainAreWords(c.cmd);
    hide AllWords, CmdOk, CmdWords, IsWord;
    match c
    case Last(cmd) =>
    case AndThen(cmd, rest) =>
      ClauseWordsProper(rest);
      AllWordsConcat(CmdWords(cmd), "&&", ClauseWords(rest));
    case OrElse(cmd, rest) =>
      ClauseWordsProper(rest);
      AllWordsConcat(CmdWords(cmd), "||", ClauseWords(rest));
    case Always(cmd, rest) =>
      ClauseWordsProper(rest);
      AllWordsConcat(CmdWords(cmd), ";", ClauseWords(rest));
  }

  /** Lines that read back. A line of commands starts with a command. */
  predicate LineOk(l: Line) {
    match l
    case Label(n) => NoSpace(n)
    case Note(t) => t != "" && t[0] == '#' && '\n' !in t
    case Run(c) => ClausesOk(c) && c.cmd != Nop
  }

  lemma {:induction false} TokensHead(l: string, w: string)
    requires w != ""
    ensures Tokens(l, w) != [] && w <= Tokens(l, w)[0]
    decreases |l|
  {
    if l != "" && !IsSpace(l[0]) {
      TokensHead(l[1..], w + [l[0]]);
    }
  }

  lemma FirstWord(c: Clauses)
    requires ClausesOk(c) && c.cmd != Nop
    ensures ClauseWords(c) != [] && IsVerb(ClauseWords(c)[0])
  {
    StartsWithVerb(c.cmd);
    hide CmdOk, CmdWords, IsVerb;
  }

  lemma LineReads(l: Line)
    requires LineOk(l)
    ensures ReadLine(LineText(l)) == l
  {
    match l
    case Label(n) =>
      var t := ":" + n;
      assert NoSpace(t);
      TokensWord(t, "", "");
      assert t + "" == t && "" + t == t;
      assert Tokens(t, "") == [t];
      assert t[1..] == n;
    case Note(t) =>
      assert Tokens(t, "") == Tokens(t[1..], "" + [t[0]]);
      assert "" + [t[0]] == [t[0]];
      TokensHead(t[1..], [t[0]]);
      assert Tokens(t, "")[0][0] == t[0];
    case Run(c) =>
      ClauseWordsProper(c);
      FirstWord(c);
      ClausesRead(c);
      TokensJoin(ClauseWords(c));
      hide ReadClauses, ClausesOk, ClauseWords, Join, Tokens;
  }

  lemma {:induction false} JoinOneLine(ws: seq<string>)
    requires AllWords(ws)
    ensures '\n' !in Join(ws)
    decreases |ws|
  {
    if |ws| > 1 {
      assert forall i :: 0 <= i < |ws[1..]| ==> ws[1..][i] == ws[i + 1];
      JoinOneLine(ws[1..]);
    }
  }

  lemma LineOneLine(l: Line)
    requires LineOk(l)
    ensures '\n' !in LineText(l)
  {
    match l
    case Label(n) =>
    case Note(t) =>
    case Run(c) =>
      ClauseWordsProper(c);
      hide AllWords, ClausesOk, ClauseWords;
      JoinOneLine(ClauseWords(c));
  }

  // ---- scripts read back ----

  predicate LinesOk(xs: Lines) {
    match xs
    case Nil => true
    case Cons(l, tail) => LineOk(l) && LinesOk(tail)
  }

  lemma LengthOfLine(a: string, rest: string)
    requires '\n' !in a
    ensures LineLength(a + "\n" + rest) == |a|
  {
    var s := a + "\n" + rest;
    var n := LineLength(s);
    assert s[|a|] == '\n';
    assert forall i :: 0 <= i < |a| ==> s[i] == a[i];
    assert forall i :: 0 <= i < n ==> s[i] == s[..n][i];
  }

  /** Text is read line by line. */
  lemma FirstLineReads(a: string, rest: string)
    requires '\n' !in a
    ensures ReadText(a + "\n" + rest) == Cons(ReadLine(a), ReadText(rest))
  {
    var s := a + "\n" + rest;
    LengthOfLine(a, rest);
    assert s[..|a|] == a && s[|a| + 1..] == rest;
    hide ReadLine;
  }

  lemma {:induction false} LinesOkAppend(xs: Lines, ys: Lines)
    ensures LinesOk(Append(xs, ys)) <==> LinesOk(xs) && LinesOk(ys)
  {
    match xs
    case Nil =>
    case Cons(_, tail) => LinesOkAppend(tail, ys);
  }
}
