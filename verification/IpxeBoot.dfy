/** What the rendered boot script of a node does when it is read and run. */
module IpxeBoot {
  import opened Text
  import opened Nodes
  import opened IpxeLang
  import opened IpxeScript
  import opened IpxePass
  import opened IpxeLabels
  import opened IpxeText
  import opened IpxeReader
  import opened IpxeExact

  // ---- fields that do not change the script ----

  /** The conditions on the fields that the script holds. The host name stands in a comment, and
      so does the MAC address; the latter is also compared with if there is no PCI member. */
  ghost predicate SafeFields(n: Node, mac: string, base: string, fmt: string -> string) {
    && OneLine(n.hostname) && OneLine(mac) && (!HasPci(n) ==> ValueOk(ToLower(mac))) && BaseOk(base)
    && ValueOk(n.vlan) && ValueOk(n.ip) && ValueOk(n.netmask) && ValueOk(n.gw) && ValueOk(n.dns)
    && forall i :: 0 <= i < |n.bondMembers| && IsPciAddr(n.bondMembers[i]) ==> ValueOk(fmt(n.bondMembers[i]))
  }

  // ---- words of the script ----

  /** A fixed word. */
  predicate FieldOk(s: string) { TextOk(s) && s[0] != '#' && !IsSeparator(s) }

  lemma FieldWord(s: string)
    requires FieldOk(s)
    ensures ArgOk(W(s)) && W(s).Print() == s
  {
    assert WordOk(Empty, false);
    assert WordOk(W(s), false);
  }

  lemma FixedTexts()
    ensures TextOk("net") && TextOk("nic") && TextOk("/mac") && TextOk("/busloc:busdevfn") && TextOk("-") && TextOk("vlan")
    ensures '}' !in "net" && '}' !in "nic" && '}' !in "/mac" && '}' !in "/busloc:busdevfn" && '}' !in "vlan"
    ensures '}' !in "target_mac" && TextOk("target_mac")
  {
  }

  lemma FixedFields()
    ensures FieldOk("vlan") && FieldOk("target_mac") && FieldOk("--tag") && TextOk("(") && TextOk(")...")
    ensures FieldOk("Configuring") && FieldOk("Checking")
    ensures TextOk("/ip") && TextOk("/netmask") && TextOk("/gateway") && TextOk("/dns")
  {
  }

  lemma FixedWords()
    ensures FieldOk("no") && FieldOk("matching") && FieldOk("uplink") && FieldOk("reached") && FieldOk("proxy;")
    ensures FieldOk("retry") && FieldOk("in") && FieldOk("3s")
  {
  }

  lemma FixedNames()
    ensures PlainWord("top") && PlainWord("loop") && PlainWord("endpass") && PlainWord("os_done")
    ensures PlainWord("hit") && PlainWord("next") && PlainWord("nic")
  {
  }

  lemma NetOk(rest: Word, nested: bool)
    requires WordOk(rest, nested)
    ensures WordOk(NetNic(rest), nested) && ArgOkStart(NetNic(rest))
  {
    FixedTexts();
    hide TextOk;
    assert WordOk(Empty, true);
    assert WordOk(W("nic"), true);
    assert WordOk(Ref(W("nic"), rest), nested);
    assert "net"[0] == 'n';
  }

  /** The first text of the word does not start a comment, and more follows it. */
  predicate ArgOkStart(w: Word) { w.Ref? || (w.Lit? && w.text != "" && w.text[0] != '#' && w.rest != Empty) }

  lemma RefOk(name: Word, rest: Word, nested: bool)
    requires WordOk(name, true) && WordOk(rest, nested)
    ensures WordOk(Ref(name, rest), nested) && ArgOkStart(Ref(name, rest))
  {
  }

  lemma DeviceRefOk(suffix: string, rest: Word, nested: bool)
    requires TextOk(suffix) && '}' !in suffix && WordOk(rest, nested)
    ensures WordOk(Ref(NetNic(W(suffix)), rest), nested) && ArgOkStart(Ref(NetNic(W(suffix)), rest))
  {
    hide TextOk;
    assert WordOk(Empty, true);
    assert WordOk(W(suffix), true);
    NetOk(W(suffix), true);
    RefOk(NetNic(W(suffix)), rest, nested);
  }

  lemma LitOk(t: string, rest: Word)
    requires TextOk(t) && !rest.Lit? && WordOk(rest, false)
    ensures WordOk(Lit(t, rest), false)
  {
    hide TextOk;
  }

  lemma StartOk(w: Word)
    requires WordOk(w, false) && ArgOkStart(w)
    ensures ArgOk(w)
  {
    hide WordOk;
  }

  lemma EffOk(v: bool, rest: Word)
    requires WordOk(rest, false)
    ensures ArgOk(EffIface(v, rest))
  {
    FixedTexts();
    hide TextOk, ArgOkStart, ArgOk;
    if v {
      assert WordOk(Empty, true);
      assert WordOk(W("vlan"), true);
      RefOk(W("vlan"), rest, false);
      LitOk("-", Ref(W("vlan"), rest));
      NetOk(Lit("-", Ref(W("vlan"), rest)), false);
    } else {
      NetOk(rest, false);
    }
    StartOk(EffIface(v, rest));
  }

  lemma EffPrint(v: bool, f: string)
    requires ':' !in f
    ensures ':' !in EffIface(v, W(f)).Print()
  {
    assert W("nic").Print() == "nic" && W("vlan").Print() == "vlan" && W(f).Print() == f;
    var tail := if v then Lit("-", Ref(W("vlan"), W(f))) else W(f);
    if v {
      assert Ref(W("vlan"), W(f)).Print() == "${" + "vlan" + "}" + f;
      assert tail.Print() == "-" + ("${" + "vlan" + "}" + f);
    }
    assert ':' !in tail.Print();
    assert Ref(W("nic"), tail).Print() == "${" + "nic" + "}" + tail.Print();
    assert EffIface(v, W(f)).Print() == "net" + ("${" + "nic" + "}" + tail.Print());
  }

  lemma PciKeyOk(i: nat)
    ensures FieldOk(PciKey(i)) && '}' !in PciKey(i) && ':' !in PciKey(i)
  {
    var d := Dec(i);
    var k := PciKey(i);
    assert k[0] == 'p' && k[1] == 'c' && k[2] == 'i';
    assert forall j :: 3 <= j < |k| ==> k[j] == d[j - 3];
  }

  // ---- lines of the script ----

  lemma DoOk(c: Cmd)
    requires CmdOk(c) && c != Nop
    ensures LineOk(Do(c)) && LineOk(Try(c))
  {
    hide CmdOk;
    assert CmdOk(Nop) by { NopOk(); }
    assert ClausesOk(Last(Nop));
  }

  lemma NopOk()
    ensures CmdOk(Nop)
  {
  }

  lemma BranchOk(c: Cmd, l: string)
    requires CmdOk(c) && c != Nop && PlainWord(l)
    ensures LineOk(Branch(c, l))
  {
    NopOk();
    assert CmdOk(Goto(l));
    hide CmdOk, PlainWord;
    assert ClausesOk(Last(Nop));
    assert ClausesOk(OrElse(Goto(l), Last(Nop)));
  }

  lemma OkIf(b: bool, l: Line, tail: Lines)
    requires (b ==> LineOk(l)) && LinesOk(tail)
    ensures LinesOk(If(b, l, tail))
  {
    hide LineOk;
  }

  lemma OkCons(l: Line, tail: Lines)
    requires LineOk(l) && LinesOk(tail)
    ensures LinesOk(Cons(l, tail))
  {
    hide LineOk;
  }

  lemma LabelOk(name: string)
    requires PlainWord(name)
    ensures LineOk(Label(name))
  {
  }

  lemma DeviceOk(verb: string, args: seq<Word>)
    requires VerbOf(verb) == VDevice && forall i :: 0 <= i < |args| ==> ArgOk(args[i])
    ensures LineOk(Try(Device(verb, args)))
  {
    hide ArgOk, VerbOf;
    DoOk(Device(verb, args));
  }

  lemma EchoOk(ws: seq<Word>)
    requires forall i :: 0 <= i < |ws| ==> ArgOk(ws[i])
    ensures LineOk(Do(Echo(ws)))
  {
    hide ArgOk;
    DoOk(Echo(ws));
  }

  lemma PciTestOk(i: nat)
    ensures LineOk(Branch(Iseq(BusRef(Empty), Ref(W(PciKey(i)), Empty)), "hit"))
  {
    FixedTexts();
    FixedNames();
    PciKeyOk(i);
    assert WordOk(Empty, true) && WordOk(Empty, false);
    hide TextOk, LineOk, ArgOk, PciKey;
    DeviceRefOk("/busloc:busdevfn", Empty, false);
    StartOk(BusRef(Empty));
    assert WordOk(W(PciKey(i)), true);
    RefOk(W(PciKey(i)), Empty, false);
    StartOk(Ref(W(PciKey(i)), Empty));
    hide WordOk, PlainWord;
    BranchOk(Iseq(BusRef(Empty), Ref(W(PciKey(i)), Empty)), "hit");
  }

  lemma {:induction false} PciTestsOk(members: seq<string>, i: nat)
    requires i <= |members|
    ensures LinesOk(PciTests(members, i))
    decreases |members| - i
  {
    hide LineOk, IsPciAddr;
    if i < |members| {
      PciTestsOk(members, i + 1);
      PciTestOk(i);
      OkIf(IsPciAddr(members[i]), Branch(Iseq(BusRef(Empty), Ref(W(PciKey(i)), Empty)), "hit"), PciTests(members, i + 1));
    }
  }

  /** The words that occur in several lines. */
  lemma CommonWords()
    ensures ArgOk(NetNic(Empty)) && ArgOk(MacRef(Empty)) && ArgOk(Ref(W("vlan"), Empty)) && ArgOk(Ref(W("target_mac"), Empty))
  {
    FixedTexts();
    assert WordOk(Empty, true) && WordOk(Empty, false);
    hide TextOk, ArgOk;
    NetOk(Empty, false);
    StartOk(NetNic(Empty));
    DeviceRefOk("/mac", Empty, false);
    StartOk(MacRef(Empty));
    LitNamed("vlan");
    LitNamed("target_mac");
  }

  lemma LitNamed(name: string)
    requires TextOk(name) && '}' !in name
    ensures ArgOk(Ref(W(name), Empty))
  {
    hide TextOk, ArgOk;
    assert WordOk(Empty, true) && WordOk(Empty, false);
    assert WordOk(W(name), true);
    RefOk(W(name), Empty, false);
    StartOk(Ref(W(name), Empty));
  }

  lemma TestsOk(n: Node, mac: string)
    ensures LinesOk(Tests(n, mac))
  {
    CommonWords();
    FixedNames();
    var hit := Cons(Do(Goto("next")), Cons(Label("hit"), Nil));
    assert LinesOk(Nil);
    hide ArgOk, PlainWord, LineOk, HasPci;
    LabelOk("hit");
    OkCons(Label("hit"), Nil);
    DoOk(Goto("next"));
    OkCons(Do(Goto("next")), Cons(Label("hit"), Nil));
    PciTestsOk(n.bondMembers, 0);
    LinesOkAppend(PciTests(n.bondMembers, 0), hit);
    var test := Iseq(MacRef(Empty), Ref(W("target_mac"), Empty));
    BranchOk(test, "hit");
    OkCons(Branch(test, "hit"), hit);
  }

  /** The bracketed words of the two messages. */
  lemma BracketWords()
    ensures ArgOk(Lit("(", MacRef(W(")...")))) && ArgOk(Lit("(", MacRef(Empty))) && ArgOk(BusRef(W(")...")))
  {
    FixedTexts();
    FixedFields();
    assert WordOk(Empty, false) && "("[0] == '(';
    hide TextOk, ArgOk, FieldOk;
    LitOk(")...", Empty);
    DeviceRefOk("/mac", W(")..."), false);
    LitOk("(", MacRef(W(")...")));
    DeviceRefOk("/mac", Empty, false);
    LitOk("(", MacRef(Empty));
    DeviceRefOk("/busloc:busdevfn", W(")..."), false);
    hide WordOk;
    StartOk(Lit("(", MacRef(W(")..."))));
    StartOk(Lit("(", MacRef(Empty)));
    StartOk(BusRef(W(")...")));
  }

  lemma MessagesOk()
    ensures LineOk(Do(Echo([W("Configuring"), NetNic(Empty), Lit("(", MacRef(W(")...")))])))
    ensures LineOk(Do(Echo([W("Checking"), NetNic(Empty), Lit("(", MacRef(Empty)), BusRef(W(")..."))])))
  {
    CommonWords();
    BracketWords();
    FixedFields();
    FieldWord("Configuring");
    FieldWord("Checking");
    hide ArgOk, FieldOk, TextOk, LineOk;
    EchoOk([W("Configuring"), NetNic(Empty), Lit("(", MacRef(W(")...")))]);
    EchoOk([W("Checking"), NetNic(Empty), Lit("(", MacRef(Empty)), BusRef(W(")..."))]);
  }

  lemma InterfaceOk()
    ensures LineOk(Try(Device("ifclose", [NetNic(Empty)]))) && LineOk(Try(Device("ifopen", [NetNic(Empty)])))
    ensures LineOk(Try(Device("vcreate", [W("--tag"), Ref(W("vlan"), Empty), NetNic(Empty)])))
  {
    CommonWords();
    FixedFields();
    FieldWord("--tag");
    Verbs();
    hide ArgOk, FieldOk, TextOk, LineOk, VerbOf;
    DeviceOk("ifclose", [NetNic(Empty)]);
    DeviceOk("ifopen", [NetNic(Empty)]);
    DeviceOk("vcreate", [W("--tag"), Ref(W("vlan"), Empty), NetNic(Empty)]);
  }

  lemma EffDevicesOk(v: bool)
    ensures LineOk(Try(Device("ifclose", [EffIface(v, Empty)]))) && LineOk(Try(Device("ifopen", [EffIface(v, Empty)])))
    ensures LineOk(Try(Device("vdestroy", [EffIface(v, Empty)])))
  {
    assert WordOk(Empty, false);
    EffOk(v, Empty);
    Verbs();
    hide ArgOk, LineOk, VerbOf;
    DeviceOk("ifclose", [EffIface(v, Empty)]);
    DeviceOk("ifopen", [EffIface(v, Empty)]);
    DeviceOk("vdestroy", [EffIface(v, Empty)]);
  }

  /** The settings of the interface, and its opening. */
  function Settings(n: Node): Lines {
    var v := n.vlan != "";
    If(n.ip != "", Do(Set(EffIface(v, W("/ip")), W(n.ip))),
    If(n.netmask != "", Do(Set(EffIface(v, W("/netmask")), W(n.netmask))),
    If(n.gw != "", Do(Set(EffIface(v, W("/gateway")), W(n.gw))),
    If(n.dns != "", Do(Set(EffIface(v, W("/dns")), W(n.dns))),
    Cons(Try(Device("ifopen", [EffIface(v, Empty)])), Nil)))))
  }

  lemma EffSetExact(v: bool, f: string, value: string)
    requires TextOk(f) && ':' !in f
    ensures value != "" ==> (LineExact(Do(Set(EffIface(v, W(f)), W(value)))) <==> ValueOk(value))
  {
    LitOk(f, Empty);
    EffOk(v, W(f));
    EffPrint(v, f);
    hide ArgOk, TextOk, LineExact, ValueOk;
    SetExact(EffIface(v, W(f)), value);
  }

  lemma NothingOk()
    ensures ValueOk("")
  {
    assert !HasRef("");
  }

  lemma SettingExact(v: bool, f: string, value: string, tail: Lines)
    requires TextOk(f) && ':' !in f
    ensures AllExact(If(value != "", Do(Set(EffIface(v, W(f)), W(value))), tail)) <==> ValueOk(value) && AllExact(tail)
  {
    EffSetExact(v, f, value);
    NothingOk();
    hide TextOk, LineExact, ValueOk, AllExact;
    ExactIf(value != "", Do(Set(EffIface(v, W(f)), W(value))), tail);
  }

  lemma SettingsExact(n: Node)
    ensures AllExact(Settings(n)) <==> ValueOk(n.ip) && ValueOk(n.netmask) && ValueOk(n.gw) && ValueOk(n.dns)
  {
    var v := n.vlan != "";
    FixedFields();
    EffDevicesOk(v);
    assert ':' !in "/ip" && ':' !in "/netmask" && ':' !in "/gateway" && ':' !in "/dns";
    var open := Try(Device("ifopen", [EffIface(v, Empty)]));
    hide FieldOk, TextOk, LineOk, EffIface, LineExact, ValueOk;
    OkExact(open);
    var a := Cons(open, Nil);
    assert AllExact(a);
    hide AllExact;
    SettingExact(v, "/dns", n.dns, a);
    var b := If(n.dns != "", Do(Set(EffIface(v, W("/dns")), W(n.dns))), a);
    SettingExact(v, "/gateway", n.gw, b);
    var c := If(n.gw != "", Do(Set(EffIface(v, W("/gateway")), W(n.gw))), b);
    SettingExact(v, "/netmask", n.netmask, c);
    var d := If(n.netmask != "", Do(Set(EffIface(v, W("/netmask")), W(n.netmask))), c);
    SettingExact(v, "/ip", n.ip, d);
  }

  lemma ExactCons(l: Line, tail: Lines)
    ensures AllExact(Cons(l, tail)) <==> LineExact(l) && AllExact(tail)
  {
    hide LineExact;
  }

  lemma ConfigureExact(n: Node)
    ensures AllExact(Configure(n)) <==> ValueOk(n.ip) && ValueOk(n.netmask) && ValueOk(n.gw) && ValueOk(n.dns)
  {
    MessagesOk();
    InterfaceOk();
    SettingsExact(n);
    var v := n.vlan != "";
    var vcreate := Try(Device("vcreate", [W("--tag"), Ref(W("vlan"), Empty), NetNic(Empty)]));
    var open, close := Try(Device("ifopen", [NetNic(Empty)])), Try(Device("ifclose", [NetNic(Empty)]));
    var echo := Do(Echo([W("Configuring"), NetNic(Empty), Lit("(", MacRef(W(")...")))]));
    assert Configure(n) == Cons(echo, Cons(close, Cons(open, If(v, vcreate, Settings(n)))));
    hide LineOk, ValueOk, LineExact, AllExact, Configure, Settings;
    OkExact(vcreate);
    OkExact(open);
    OkExact(close);
    OkExact(echo);
    ExactIf(v, vcreate, Settings(n));
    ExactCons(open, If(v, vcreate, Settings(n)));
    ExactCons(close, Cons(open, If(v, vcreate, Settings(n))));
    ExactCons(echo, Cons(close, Cons(open, If(v, vcreate, Settings(n)))));
  }

  lemma {:induction false} PciSetsExact(members: seq<string>, fmt: string -> string, i: nat)
    requires i <= |members|
    ensures AllExact(PciSets(members, fmt, i)) <==>
      forall j :: i <= j < |members| && IsPciAddr(members[j]) ==> ValueOk(fmt(members[j]))
    decreases |members| - i
  {
    hide FieldOk, LineExact, IsPciAddr, ValueOk;
    if i < |members| {
      PciSetsExact(members, fmt, i + 1);
      PciKeyOk(i);
      FieldWord(PciKey(i));
      hide ArgOk;
      SetExact(W(PciKey(i)), fmt(members[i]));
      hide AllExact;
      ExactIf(IsPciAddr(members[i]), Do(Set(W(PciKey(i)), V(fmt(members[i])))), PciSets(members, fmt, i + 1));
    }
  }

  lemma CleanupOk(n: Node)
    ensures LinesOk(Cleanup(n))
  {
    InterfaceOk();
    EffDevicesOk(true);
    assert LinesOk(Nil);
    hide LineOk;
  }

  lemma EndOk()
    ensures LinesOk(ENDPASS) && LinesOk(NEXT)
  {
    FixedNames();
    FixedWords();
    FieldWord("no");
    FieldWord("matching");
    FieldWord("uplink");
    FieldWord("reached");
    FieldWord("proxy;");
    FieldWord("retry");
    FieldWord("in");
    FieldWord("3s");
    hide ArgOk, FieldOk, PlainWord, LineOk;
    EchoOk([W("no"), W("matching"), W("uplink"), W("reached"), W("proxy;"), W("retry"), W("in"), W("3s")]);
    DoOk(Sleep(3));
    DoOk(Goto("top"));
    LabelOk("os_done");
    DoOk(Exit(0));
    assert LinesOk(Nil);
    var a := Cons(Do(Exit(0)), Nil);
    var b := Cons(Label("os_done"), a);
    var c := Cons(Do(Goto("top")), b);
    var d := Cons(Do(Sleep(3)), c);
    OkCons(Do(Exit(0)), Nil);
    OkCons(Label("os_done"), a);
    OkCons(Do(Goto("top")), b);
    OkCons(Do(Sleep(3)), c);
    OkCons(ENDPASS.head, d);
    LabelOk("endpass");
    OkCons(Label("endpass"), ENDPASS);
    NextOk();
    OkCons(NEXT.head, Cons(Label("endpass"), ENDPASS));
  }

  lemma NextOk()
    ensures LineOk(Run(AndThen(Inc("nic"), Last(Goto("loop")))))
  {
    FixedNames();
    hide PlainWord;
    assert ClausesOk(Last(Goto("loop")));
  }

  lemma GuardOk()
    ensures LineOk(Run(OrElse(Isset(MacRef(Empty)), Last(Goto("endpass")))))
  {
    FixedNames();
    CommonWords();
    hide PlainWord, ArgOk;
    assert ClausesOk(Last(Goto("endpass")));
  }

  lemma AtNextOk(n: Node, mac: string)
    ensures LinesOk(AtNext(n, mac))
  {
    EndOk();
    FixedNames();
    LabelOk("next");
    hide LineOk, PlainWord, LinesOk, HasPci;
    OkIf(HasPci(n) || mac != "", Label("next"), NEXT);
  }

  lemma BodyExact(n: Node, mac: string, base: string)
    ensures AllExact(Body(n, mac, base)) <==>
      BaseOk(base) && ValueOk(n.ip) && ValueOk(n.netmask) && ValueOk(n.gw) && ValueOk(n.dns)
  {
    ConfigureExact(n);
    CleanupOk(n);
    AtNextOk(n, mac);
    ChainExact(base);
    hide LinesOk, LineExact, AllExact, Configure, Cleanup, AtNext, BaseOk, ValueOk, ChainUrl;
    AllOkExact(Cleanup(n));
    AllOkExact(AtNext(n, mac));
    ExactAppend(Cleanup(n), AtNext(n, mac));
    var chain := Branch(Chain(ChainUrl(base)), "os_done");
    ExactCons(chain, AfterChain(n, mac));
    ExactAppend(Configure(n), Cons(chain, AfterChain(n, mac)));
  }

  /** The two lines before the loop, and the two at its head. */
  lemma HeadLinesOk()
    ensures LineOk(Label("top")) && LineOk(Do(SetInt("nic", 0))) && LineOk(Label("loop"))
    ensures LineOk(Run(OrElse(Isset(MacRef(Empty)), Last(Goto("endpass")))))
    ensures LineOk(Do(Echo([W("Checking"), NetNic(Empty), Lit("(", MacRef(Empty)), BusRef(W(")..."))])))
  {
    GuardOk();
    MessagesOk();
    FixedNames();
    FixedTexts();
    assert CmdOk(SetInt("nic", 0));
    DoOk(SetInt("nic", 0));
    LabelOk("top");
    LabelOk("loop");
    hide LineOk;
  }

  lemma TopExact(n: Node, mac: string, base: string)
    ensures AllExact(Cons(Label("top"), Top(n, mac, base))) <==>
      BaseOk(base) && ValueOk(n.ip) && ValueOk(n.netmask) && ValueOk(n.gw) && ValueOk(n.dns)
  {
    BodyExact(n, mac, base);
    TestsOk(n, mac);
    HeadLinesOk();
    hide LineOk, LinesOk, LineExact, AllExact, Tests, Body, BaseOk, ValueOk;
    AllOkExact(Tests(n, mac));
    ExactAppend(Tests(n, mac), Body(n, mac, base));
    var l := Loop(n, mac, base);
    OkExact(l.tail.head);
    OkExact(l.head);
    OkExact(Label("loop"));
    OkExact(Do(SetInt("nic", 0)));
    OkExact(Label("top"));
    ExactCons(l.tail.head, l.tail.tail);
    ExactCons(l.head, l.tail);
    ExactCons(Label("loop"), l);
    ExactCons(Do(SetInt("nic", 0)), Cons(Label("loop"), l));
    ExactCons(Label("top"), Top(n, mac, base));
  }

  /** The lines between the notes and the label top, without the one that sets the VLAN. */
  function MemberLines(n: Node, mac: string, fmt: string -> string): Lines {
    Append(PciSets(n.bondMembers, fmt, 0), If(!HasPci(n) && mac != "", Do(Set(W("target_mac"), W(ToLower(mac)))), Nil))
  }

  lemma MembersExact(n: Node, mac: string, fmt: string -> string)
    ensures AllExact(MemberLines(n, mac, fmt)) <==>
      && (!HasPci(n) ==> ValueOk(ToLower(mac)))
      && forall i :: 0 <= i < |n.bondMembers| && IsPciAddr(n.bondMembers[i]) ==> ValueOk(fmt(n.bondMembers[i]))
  {
    PciSetsExact(n.bondMembers, fmt, 0);
    FixedFields();
    FieldWord("target_mac");
    NothingOk();
    assert ':' !in "target_mac" && AllExact(Nil);
    var b, lower := !HasPci(n) && mac != "", ToLower(mac);
    assert mac == "" ==> lower == "";
    assert mac != "" ==> lower != "";
    hide FieldOk, ArgOk, LineExact, AllExact, HasPci, IsPciAddr, ValueOk;
    SetExact(W("target_mac"), lower);
    ExactIf(b, Do(Set(W("target_mac"), W(lower))), Nil);
    ExactAppend(PciSets(n.bondMembers, fmt, 0), If(b, Do(Set(W("target_mac"), W(lower))), Nil));
  }

  /** The two notes at the start. */
  function Notes(n: Node, mac: string, tail: Lines): Lines {
    Cons(Note("#!ipxe"), Cons(Note("# Dynamic boot script for " + n.hostname + " (" + mac + ")"), tail))
  }

  lemma NotesExact(n: Node, mac: string, tail: Lines)
    ensures AllExact(Notes(n, mac, tail)) <==> OneLine(n.hostname) && OneLine(mac) && AllExact(tail)
  {
    var start := "# Dynamic boot script for ";
    var note := start + n.hostname + " (" + mac + ")";
    assert note[0] == '#' && OneLine(start);
    assert OneLine(note) <==> OneLine(n.hostname) && OneLine(mac) by { NoteOneLine(start, n.hostname, mac); }
    var shebang := "#!ipxe";
    assert shebang[0] == '#' && OneLine(shebang);
    hide LineExact;
    NoteExact(note);
    NoteExact(shebang);
    hide AllExact;
    ExactCons(Note(note), tail);
    ExactCons(Note(shebang), Cons(Note(note), tail));
  }

  lemma NoteOneLine(start: string, host: string, mac: string)
    requires OneLine(start)
    ensures OneLine(start + host + " (" + mac + ")") <==> OneLine(host) && OneLine(mac)
  {
    var t := start + host + " (" + mac + ")";
    if !OneLine(host) {
      var i :| 0 <= i < |host| && host[i] == '\n';
      assert t[|start| + i] == '\n';
    }
    if !OneLine(mac) {
      var i :| 0 <= i < |mac| && mac[i] == '\n';
      assert t[|start| + |host| + 2 + i] == '\n';
    }
  }

  /** What follows the notes and the VLAN. */
  function AfterVlan(n: Node, mac: string, base: string, fmt: string -> string): Lines {
    Append(MemberLines(n, mac, fmt), Cons(Label("top"), Top(n, mac, base)))
  }

  lemma ScriptIs(n: Node, mac: string, base: string, fmt: string -> string)
    ensures Script(n, mac, base, fmt) ==
      Notes(n, mac, If(n.vlan != "", Do(Set(W("vlan"), W(n.vlan))), AfterVlan(n, mac, base, fmt)))
  {
    var tail := Cons(Label("top"), Top(n, mac, base));
    PrologueShape(n, mac, fmt, tail);
    hide Top, HasPci, PciSets, Prologue;
    var macSet := If(!HasPci(n) && mac != "", Do(Set(W("target_mac"), W(ToLower(mac)))), Nil);
    AppendAssoc(PciSets(n.bondMembers, fmt, 0), macSet, tail);
    assert Append(macSet, tail) == If(!HasPci(n) && mac != "", Do(Set(W("target_mac"), W(ToLower(mac)))), tail);
  }

  lemma AfterVlanExact(n: Node, mac: string, base: string, fmt: string -> string)
    ensures AllExact(AfterVlan(n, mac, base, fmt)) <==>
      && (!HasPci(n) ==> ValueOk(ToLower(mac))) && BaseOk(base)
      && ValueOk(n.ip) && ValueOk(n.netmask) && ValueOk(n.gw) && ValueOk(n.dns)
      && forall i :: 0 <= i < |n.bondMembers| && IsPciAddr(n.bondMembers[i]) ==> ValueOk(fmt(n.bondMembers[i]))
  {
    MembersExact(n, mac, fmt);
    TopExact(n, mac, base);
    hide HasPci, IsPciAddr, BaseOk, ValueOk, MemberLines, Top, AllExact;
    ExactAppend(MemberLines(n, mac, fmt), Cons(Label("top"), Top(n, mac, base)));
  }

  lemma VlanExact(vlan: string, tail: Lines)
    ensures AllExact(If(vlan != "", Do(Set(W("vlan"), W(vlan))), tail)) <==> ValueOk(vlan) && AllExact(tail)
  {
    FixedFields();
    FieldWord("vlan");
    NothingOk();
    assert ':' !in "vlan";
    hide FieldOk, TextOk, ArgOk, LineExact, AllExact, ValueOk;
    SetExact(W("vlan"), vlan);
    ExactIf(vlan != "", Do(Set(W("vlan"), W(vlan))), tail);
  }

  lemma ScriptExact(n: Node, mac: string, base: string, fmt: string -> string)
    ensures AllExact(Script(n, mac, base, fmt)) <==> SafeFields(n, mac, base, fmt)
  {
    ScriptIs(n, mac, base, fmt);
    AfterVlanExact(n, mac, base, fmt);
    hide HasPci, IsPciAddr, BaseOk, ValueOk, Script, AllExact, AfterVlan, Notes;
    VlanExact(n.vlan, AfterVlan(n, mac, base, fmt));
    NotesExact(n, mac, If(n.vlan != "", Do(Set(W("vlan"), W(n.vlan))), AfterVlan(n, mac, base, fmt)));
  }

  // ---- results ----

  /** The rendered script, read as iPXE reads it, is the script that was meant if and only if the
      fields are safe. */
  lemma RenderedReads(n: Node, mac: string, proxyBase: string, fmt: string -> string)
    ensures ReadText(Render(n, mac, proxyBase, fmt)) == Script(n, mac, TrimSlashes(proxyBase), fmt)
       <==> SafeFields(n, mac, TrimSlashes(proxyBase), fmt)
  {
    hide SafeFields, Script, AllExact;
    ScriptExact(n, mac, TrimSlashes(proxyBase), fmt);
    TextExact(Script(n, mac, TrimSlashes(proxyBase), fmt));
  }

  /** In particular none of them, nor the proxy address, nor a formatted PCI address, has a newline. */
  lemma NewlineFreeNeeded(n: Node, mac: string, proxyBase: string, fmt: string -> string)
    requires ReadText(Render(n, mac, proxyBase, fmt)) == Script(n, mac, TrimSlashes(proxyBase), fmt)
    ensures OneLine(n.hostname) && OneLine(mac) && OneLine(n.vlan) && OneLine(TrimSlashes(proxyBase))
    ensures OneLine(n.ip) && OneLine(n.netmask) && OneLine(n.gw) && OneLine(n.dns)
    ensures forall i :: 0 <= i < |n.bondMembers| && IsPciAddr(n.bondMembers[i]) ==> OneLine(fmt(n.bondMembers[i]))
  {
    RenderedReads(n, mac, proxyBase, fmt);
    BaseOneLine(TrimSlashes(proxyBase));
    hide ReadText, Render, Script, HasPci, IsPciAddr, BaseOk, ValueOk, OneLine;
    ValueOneLine(n.vlan);
    ValueOneLine(n.ip);
    ValueOneLine(n.netmask);
    ValueOneLine(n.gw);
    ValueOneLine(n.dns);
    forall i | 0 <= i < |n.bondMembers| && IsPciAddr(n.bondMembers[i])
      ensures OneLine(fmt(n.bondMembers[i]))
    {
      ValueOneLine(fmt(n.bondMembers[i]));
    }
  }

  lemma BaseOneLine(base: string)
    ensures BaseOk(base) ==> OneLine(base)
  {
    hide HasRef;
  }

  /** The first pass of the rendered script: for every such node, every list of devices and every
      pattern of failures, chain is attempted on exactly the selected devices, in index order,
      stopping at the first success. */
  lemma FirstPassOfText(w: World, n: Node, mac: string, proxyBase: string, fmt: string -> string, env: Env)
    returns (r: State)
    requires SafeFields(n, mac, TrimSlashes(proxyBase), fmt)
    requires NoMacs(env) && forall j :: 0 <= j < |w.nics| ==> w.nics[j].mac != ""
    ensures var script := ReadText(Render(n, mac, proxyBase, fmt));
      PassEnds(script, w, n, mac, fmt, Urls(n, mac, TrimSlashes(proxyBase), fmt, w.nics, 0), Running(script, env, [], []), r)
  {
    RenderedReads(n, mac, proxyBase, fmt);
    hide SafeFields, Script, ReadText, Render, PassEnds, Urls;
    r := FirstPass(w, n, mac, TrimSlashes(proxyBase), fmt, env);
  }

  /** Every later pass of the rendered script. */
  lemma NextPassOfText(w: World, n: Node, mac: string, proxyBase: string, fmt: string -> string, st: State)
    returns (r: State)
    requires SafeFields(n, mac, TrimSlashes(proxyBase), fmt)
    requires st.Running? && st.rest == ENDPASS && Prepared(n, mac, fmt, st.env)
    requires forall j :: 0 <= j < |w.nics| ==> w.nics[j].mac != ""
    ensures PassEnds(ReadText(Render(n, mac, proxyBase, fmt)), w, n, mac, fmt,
                     Urls(n, mac, TrimSlashes(proxyBase), fmt, w.nics, 0), st, r)
  {
    RenderedReads(n, mac, proxyBase, fmt);
    hide SafeFields, Script, ReadText, Render, PassEnds, Urls, Prepared;
    r := NextPass(w, n, mac, TrimSlashes(proxyBase), fmt, st);
  }

  /** Any number of passes of the rendered script: the addresses of the selected devices are tried
      in order, over and over, up to the first success; after k passes without one, exactly k
      times each. */
  lemma PassesOfText(w: World, n: Node, mac: string, proxyBase: string, fmt: string -> string, env: Env, k: nat)
    returns (r: State)
    requires SafeFields(n, mac, TrimSlashes(proxyBase), fmt)
    requires k > 0 && NoMacs(env) && forall j :: 0 <= j < |w.nics| ==> w.nics[j].mac != ""
    ensures var script := ReadText(Render(n, mac, proxyBase, fmt));
      PassEnds(script, w, n, mac, fmt, Repeat(Urls(n, mac, TrimSlashes(proxyBase), fmt, w.nics, 0), k),
               Running(script, env, [], []), r)
  {
    RenderedReads(n, mac, proxyBase, fmt);
    hide SafeFields, Script, ReadText, Render, PassEnds, Urls, Repeat;
    r := Passes(w, n, mac, TrimSlashes(proxyBase), fmt, env, k);
  }

  /** Every jump target in the rendered script has exactly one label there. */
  lemma JumpsOfText(n: Node, mac: string, proxyBase: string, fmt: string -> string, name: string)
    requires SafeFields(n, mac, TrimSlashes(proxyBase), fmt)
    requires name in Jumps(ReadText(Render(n, mac, proxyBase, fmt)))
    ensures LabelCount(ReadText(Render(n, mac, proxyBase, fmt)), name) == 1
  {
    RenderedReads(n, mac, proxyBase, fmt);
    hide SafeFields, Script, ReadText, Render;
    EveryJumpLands(n, mac, TrimSlashes(proxyBase), fmt, name);
  }

  // ---- a field that changes the script ----

  const JUMP := "5" + "\n" + ("goto" + " " + "os_done")

  lemma JumpLine()
    ensures LineText(Do(Set(W("vlan"), W(JUMP)))) == LineText(Do(Set(W("vlan"), W("5")))) + "\n" + LineText(Do(Goto("os_done")))
  {
    GotoText("os_done");
    assert V(JUMP) == W(JUMP) && V("5") == W("5");
    SetLineText(W("vlan"), JUMP);
    SetLineText(W("vlan"), "5");
    hide LineText;
    SplitValue("set", W("vlan").Print(), "5", "goto" + " " + "os_done");
  }

  lemma SplitValue(verb: string, name: string, a: string, b: string)
    ensures verb + " " + (name + " " + (a + "\n" + b)) == verb + " " + (name + " " + a) + "\n" + b
  {
  }

  lemma GotoText(l: string)
    ensures LineText(Do(Goto(l))) == "goto" + " " + l
  {
    var ws := ["goto", l];
    assert ws[1..] == [l] && Join([l]) == l;
    assert Join(ws) == ws[0] + " " + Join(ws[1..]);
  }

  /** A newline in a field, here the VLAN: the text holds a jump that was not meant, and the
      script ends at once, without an attempt, whatever the devices. */
  lemma NewlineSkips(w: World, n: Node, mac: string, proxyBase: string, fmt: string -> string, env: Env)
    requires n.vlan == JUMP && SafeFields(n.(vlan := ""), mac, TrimSlashes(proxyBase), fmt)
    ensures var script := ReadText(Render(n, mac, proxyBase, fmt));
      Steps(script, w, Running(script, env, [], []), 5) == Exited([])
  {
    var base := TrimSlashes(proxyBase);
    JumpRead(n, mac, proxyBase, fmt);
    JumpTarget(n, mac, base, fmt);
    var rest := AfterVlan(n, mac, base, fmt);
    hide SafeFields, ReadText, Render, AfterVlan;
    JumpRun(w, n, mac, rest, env);
  }

  /** The script that is read instead. */
  function Derailed(n: Node, mac: string, rest: Lines): Lines {
    Notes(n, mac, Cons(Do(Set(W("vlan"), W("5"))), Cons(Do(Goto("os_done")), rest)))
  }

  lemma JumpRead(n: Node, mac: string, proxyBase: string, fmt: string -> string)
    requires n.vlan == JUMP && SafeFields(n.(vlan := ""), mac, TrimSlashes(proxyBase), fmt)
    ensures ReadText(Render(n, mac, proxyBase, fmt)) == Derailed(n, mac, AfterVlan(n, mac, TrimSlashes(proxyBase), fmt))
  {
    var rest := AfterVlan(n, mac, TrimSlashes(proxyBase), fmt);
    ScriptIs(n, mac, TrimSlashes(proxyBase), fmt);
    AfterVlanExact(n, mac, TrimSlashes(proxyBase), fmt);
    assert HasPci(n) == HasPci(n.(vlan := ""));
    assert JUMP[0] == '5';
    hide HasPci, IsPciAddr, BaseOk, ValueOk, AllExact;
    DerailedExact(n, mac, rest);
    JumpLine();
    var set5, jump := Do(Set(W("vlan"), W("5"))), Do(Goto("os_done"));
    var l := Do(Set(W("vlan"), W(JUMP)));
    hide SafeFields, AfterVlan, Script, LineText, ReadText, TextOf;
    TwoLines(l, set5, jump, rest);
    NotesText(n, mac, Cons(l, rest), Cons(set5, Cons(jump, rest)));
    TextExact(Derailed(n, mac, rest));
  }

  /** One line whose text is that of two. */
  lemma TwoLines(l: Line, a: Line, b: Line, rest: Lines)
    requires LineText(l) == LineText(a) + "\n" + LineText(b)
    ensures TextOf(Cons(l, rest)) == TextOf(Cons(a, Cons(b, rest)))
  {
    TextCons(l, rest);
    TextCons(a, Cons(b, rest));
    TextCons(b, rest);
    hide LineText, TextOf;
  }

  lemma NotesText(n: Node, mac: string, xs: Lines, ys: Lines)
    requires TextOf(xs) == TextOf(ys)
    ensures TextOf(Notes(n, mac, xs)) == TextOf(Notes(n, mac, ys))
  {
    var note := Note("# Dynamic boot script for " + n.hostname + " (" + mac + ")");
    hide LineText, TextOf;
    TextCons(note, xs);
    TextCons(note, ys);
    TextCons(Note("#!ipxe"), Cons(note, xs));
    TextCons(Note("#!ipxe"), Cons(note, ys));
  }

  lemma DerailedExact(n: Node, mac: string, rest: Lines)
    requires OneLine(n.hostname) && OneLine(mac) && AllExact(rest)
    ensures AllExact(Derailed(n, mac, rest))
  {
    var set5, jump := Do(Set(W("vlan"), W("5"))), Do(Goto("os_done"));
    FixedNames();
    FixedFields();
    FieldWord("vlan");
    FieldWord("5");
    assert ':' !in "vlan";
    assert CmdOk(Set(W("vlan"), W("5"))) && CmdOk(Goto("os_done"));
    DoOk(Set(W("vlan"), W("5")));
    DoOk(Goto("os_done"));
    hide LineOk, FieldOk, TextOk, ArgOk, PlainWord, LineExact, AllExact, CmdOk;
    OkExact(set5);
    OkExact(jump);
    ExactCons(jump, rest);
    ExactCons(set5, Cons(jump, rest));
    NotesExact(n, mac, Cons(set5, Cons(jump, rest)));
  }

  /** The jump leads to the end of the script. */
  lemma JumpTarget(n: Node, mac: string, base: string, fmt: string -> string)
    requires n.vlan != ""
    ensures LeadsTo(AfterVlan(n, mac, base, fmt), "os_done", Cons(Do(Exit(0)), Nil))
  {
    Targets(n, mac, base, fmt);
    ScriptIs(n, mac, base, fmt);
    var rest := AfterVlan(n, mac, base, fmt);
    hide Script, AfterVlan;
    var l := Do(Set(W("vlan"), W(n.vlan)));
    var note := Note("# Dynamic boot script for " + n.hostname + " (" + mac + ")");
    Pass(Note("#!ipxe"), Cons(note, Cons(l, rest)), "os_done");
    Pass(note, Cons(l, rest), "os_done");
    Pass(l, rest, "os_done");
  }

  lemma JumpRun(w: World, n: Node, mac: string, rest: Lines, env: Env)
    requires LeadsTo(rest, "os_done", Cons(Do(Exit(0)), Nil))
    ensures var script := Derailed(n, mac, rest); Steps(script, w, Running(script, env, [], []), 5) == Exited([])
  {
    var script := Derailed(n, mac, rest);
    var jump := Do(Goto("os_done"));
    var l := Do(Set(W("vlan"), W("5")));
    var note := Note("# Dynamic boot script for " + n.hostname + " (" + mac + ")");
    Pass(jump, rest, "os_done");
    Pass(l, Cons(jump, rest), "os_done");
    Pass(note, Cons(l, Cons(jump, rest)), "os_done");
    Pass(Note("#!ipxe"), script.tail, "os_done");
    var s0 := Running(script, env, [], []);
    var s1 := s0.(rest := script.tail);
    var s2 := s0.(rest := script.tail.tail);
    var s3 := s0.(rest := Cons(jump, rest), env := env["vlan" := Str("5")]);
    var s4 := s3.(rest := Cons(Do(Exit(0)), Nil));
    assert Step(script, w, s0) == s1 && Step(script, w, s1) == s2;
    SetLine(script, w, "vlan", "5", s2);
    GotoLine(script, w, "os_done", Cons(Do(Exit(0)), Nil), s3);
    assert Step(script, w, s4) == Exited([]);
    hide Step;
    assert Steps(script, w, Exited([]), 0) == Exited([]);
    assert Steps(script, w, s4, 1) == Exited([]);
    assert Steps(script, w, s3, 2) == Exited([]);
    assert Steps(script, w, s2, 3) == Exited([]);
    assert Steps(script, w, s1, 4) == Exited([]);
  }

}
