/** The network parameters on the kernel command line: printed by the proxy, read by the
    initramfs hook that sets up the bond. */
module KernelNet {
  import opened Text
  import opened Nodes
  import opened ConfigKey

  // ---- printing ----

  function Default(v: string, d: string): string { if v == "" then d else v }

  function BondOf(n: Node): string { Default(n.bondName, "bond0") }

  /** The device that carries the address. */
  function DeviceOf(n: Node): string {
    var dev := if n.Bonded() then BondOf(n) else n.dev;
    if n.vlan != "" then dev + "." + n.vlan else dev
  }

  function DnsText(n: Node): string {
    if n.dns != "" && n.dns2 != "" then ":" + n.dns + ":" + n.dns2
    else if n.dns != "" then ":" + n.dns
    else ""
  }

  function IpWord(n: Node): string {
    "ip=" + n.ip + "::" + n.gw + ":" + n.netmask + ":" + n.hostname + ":" + DeviceOf(n) + ":none" + DnsText(n)
  }

  /** The parameters for the hook, one word each. */
  function BondWords(n: Node): seq<string> {
    ["gen_bond=" + BondOf(n), "gen_members=" + JoinComma(n.bondMembers),
     "gen_mode=" + Default(n.bondMode, "802.3ad"), "gen_rate=" + Default(n.lacpRate, "fast"),
     "gen_hash=" + Default(n.hashPolicy, "layer3+4")]
    + (if n.vlan != "" then ["gen_vlan=" + n.vlan] else [])
  }

  function PlainWords(n: Node): seq<string> {
    if n.vlan != "" then ["vlan=" + DeviceOf(n) + ":" + n.dev] else []
  }

  function Words(n: Node): seq<string> {
    [IpWord(n)] + (if n.Bonded() then BondWords(n) else PlainWords(n)) + ["network-config=disabled"]
  }

  function BuildKernelNet(n: Node): string {
    if n.kernelNet != "" then n.kernelNet else Join(Words(n))
  }

  // ---- the hook ----

  datatype Params = Params(bond: string, members: string, mode: string, rate: string, hash: string, vid: string)

  /** The value of the last word that starts with p, or nothing. */
  function LastValue(words: seq<string>, p: string): string {
    if words == [] then ""
    else
      var x := words[|words| - 1];
      if p <= x then x[|p|..] else LastValue(words[..|words| - 1], p)
  }

  function ParamsOf(words: seq<string>): Params {
    Params(LastValue(words, "gen_bond="), LastValue(words, "gen_members="), LastValue(words, "gen_mode="),
           LastValue(words, "gen_rate="), LastValue(words, "gen_hash="), LastValue(words, "gen_vlan="))
  }

  lemma PrefixesApart(x: string)
    ensures "gen_bond=" <= x ==> !("gen_members=" <= x) && !("gen_mode=" <= x) && !("gen_rate=" <= x) && !("gen_hash=" <= x) && !("gen_vlan=" <= x)
    ensures "gen_members=" <= x ==> !("gen_mode=" <= x) && !("gen_rate=" <= x) && !("gen_hash=" <= x) && !("gen_vlan=" <= x)
    ensures "gen_mode=" <= x ==> !("gen_rate=" <= x) && !("gen_hash=" <= x) && !("gen_vlan=" <= x)
    ensures "gen_rate=" <= x ==> !("gen_hash=" <= x) && !("gen_vlan=" <= x)
    ensures "gen_hash=" <= x ==> !("gen_vlan=" <= x)
  {
    assert "gen_bond=" <= x ==> x[4] == 'b';
    assert "gen_members=" <= x ==> x[4] == 'm' && x[5] == 'e';
    assert "gen_mode=" <= x ==> x[4] == 'm' && x[5] == 'o';
    assert "gen_rate=" <= x ==> x[4] == 'r';
    assert "gen_hash=" <= x ==> x[4] == 'h';
    assert "gen_vlan=" <= x ==> x[4] == 'v';
  }

  /** The hook's loop over the words of the command line. */
  method ReadCmdline(words: seq<string>) returns (p: Params)
    ensures p == ParamsOf(words)
  {
    var bond, members, mode, rate, hash, vid := "", "", "", "", "", "";
    for i := 0 to |words|
      invariant Params(bond, members, mode, rate, hash, vid) == ParamsOf(words[..i])
    {
      var x := words[i];
      assert words[..i + 1][..i] == words[..i];
      PrefixesApart(x);
      if "gen_bond=" <= x {
        bond := x[|"gen_bond="|..];
      } else if "gen_members=" <= x {
        members := x[|"gen_members="|..];
      } else if "gen_mode=" <= x {
        mode := x[|"gen_mode="|..];
      } else if "gen_rate=" <= x {
        rate := x[|"gen_rate="|..];
      } else if "gen_hash=" <= x {
        hash := x[|"gen_hash="|..];
      } else if "gen_vlan=" <= x {
        vid := x[|"gen_vlan="|..];
      }
    }
    assert words[..|words|] == words;
    p := Params(bond, members, mode, rate, hash, vid);
  }

  /** Shell field splitting at commas: empty fields in the middle stay, one at the end does not. */
  function SplitComma(s: string, cur: string): seq<string>
    decreases |s|
  {
    if s == "" then (if cur == "" then [] else [cur])
    else if s[0] == ',' then [cur] + SplitComma(s[1..], "")
    else SplitComma(s[1..], cur + [s[0]])
  }

  /** What the hook sets up: nothing, or a bond with its members and the device on top of it. */
  datatype Setup = NoBond | Bond(name: string, members: seq<string>, mode: string, rate: string, hash: string, device: string)

  function HookOf(p: Params): Setup {
    if p.bond == "" || p.members == "" then NoBond
    else
      Bond(p.bond, SplitComma(p.members, ""), Default(p.mode, "802.3ad"), Default(p.rate, "fast"),
           Default(p.hash, "layer3+4"), if p.vid != "" then p.bond + "." + p.vid else p.bond)
  }

  // ---- the two agree ----

  ghost predicate Foreign(words: seq<string>) {
    forall i :: 0 <= i < |words| ==> !("gen_" <= words[i])
  }

  lemma {:induction false} LastValueConcat(xs: seq<string>, ys: seq<string>, p: string)
    ensures (exists i :: 0 <= i < |ys| && p <= ys[i]) ==> LastValue(xs + ys, p) == LastValue(ys, p)
    ensures (forall i :: 0 <= i < |ys| ==> !(p <= ys[i])) ==> LastValue(xs + ys, p) == LastValue(xs, p)
    decreases |ys|
  {
    if ys == [] {
      assert xs + ys == xs;
    } else {
      var n := |ys| - 1;
      assert (xs + ys)[..|xs| + n] == xs + ys[..n];
      LastValueConcat(xs, ys[..n], p);
    }
  }

  lemma {:induction false} LastValueNone(ys: seq<string>, p: string)
    requires forall i :: 0 <= i < |ys| ==> !(p <= ys[i])
    ensures LastValue(ys, p) == ""
    decreases |ys|
  {
    if ys != [] {
      LastValueNone(ys[..|ys| - 1], p);
    }
  }

  lemma ForeignValues(ys: seq<string>, p: string)
    requires Foreign(ys) && "gen_" <= p
    ensures forall i :: 0 <= i < |ys| ==> !(p <= ys[i])
  {
    assert p[..4] == "gen_";
  }

  /** Words of others change nothing. */
  lemma AmidOthers(pre: seq<string>, ws: seq<string>, post: seq<string>, p: string)
    requires Foreign(pre) && Foreign(post) && "gen_" <= p
    ensures LastValue(pre + ws + post, p) == LastValue(ws, p)
  {
    ForeignValues(pre, p);
    ForeignValues(post, p);
    LastValueConcat(pre + ws, post, p);
    LastValueConcat(pre, ws, p);
    if forall i :: 0 <= i < |ws| ==> !(p <= ws[i]) {
      LastValueNone(pre, p);
      LastValueNone(ws, p);
    }
  }

  /** The value found is that of the last word with the prefix. */
  lemma {:induction false} LastValueMeans(ws: seq<string>, p: string, j: nat)
    requires j < |ws| && p <= ws[j] && forall i :: j < i < |ws| ==> !(p <= ws[i])
    ensures LastValue(ws, p) == ws[j][|p|..]
    decreases |ws|
  {
    if j < |ws| - 1 {
      LastValueMeans(ws[..|ws| - 1], p, j);
    }
  }

  lemma KeyOf(key: string, value: string)
    ensures key <= key + value && (key + value)[|key|..] == value
  {
  }

  lemma BondParams(n: Node)
    ensures ParamsOf(BondWords(n)) ==
      Params(BondOf(n), JoinComma(n.bondMembers), Default(n.bondMode, "802.3ad"), Default(n.lacpRate, "fast"),
             Default(n.hashPolicy, "layer3+4"), n.vlan)
  {
    var ws := BondWords(n);
    KeyOf("gen_bond=", BondOf(n));
    KeyOf("gen_members=", JoinComma(n.bondMembers));
    KeyOf("gen_mode=", Default(n.bondMode, "802.3ad"));
    KeyOf("gen_rate=", Default(n.lacpRate, "fast"));
    KeyOf("gen_hash=", Default(n.hashPolicy, "layer3+4"));
    KeyOf("gen_vlan=", n.vlan);
    forall i | 0 <= i < |ws|
      ensures ("gen_bond=" <= ws[i]) == (i == 0) && ("gen_members=" <= ws[i]) == (i == 1)
      ensures ("gen_mode=" <= ws[i]) == (i == 2) && ("gen_rate=" <= ws[i]) == (i == 3)
      ensures ("gen_hash=" <= ws[i]) == (i == 4) && ("gen_vlan=" <= ws[i]) == (i == 5)
    {
      PrefixesApart(ws[i]);
      hide JoinComma;
    }
    hide JoinComma, BondOf, Default, LastValue;
    LastValueMeans(ws, "gen_bond=", 0);
    LastValueMeans(ws, "gen_members=", 1);
    LastValueMeans(ws, "gen_mode=", 2);
    LastValueMeans(ws, "gen_rate=", 3);
    LastValueMeans(ws, "gen_hash=", 4);
    if n.vlan != "" {
      LastValueMeans(ws, "gen_vlan=", 5);
    } else {
      LastValueNone(ws, "gen_vlan=");
    }
  }

  /** value is the configured field, or the fallback where nothing is configured. */
  ghost predicate Chosen(value: string, field: string, fallback: string) {
    (field != "" ==> value == field) && (field == "" ==> value == fallback)
  }

  /** The hook reads from its words what the node's fields say, or the proxy's fallbacks. */
  lemma BondValues(n: Node)
    ensures var p := ParamsOf(BondWords(n));
      && Chosen(p.bond, n.bondName, "bond0") && Chosen(p.mode, n.bondMode, "802.3ad") && Chosen(p.rate, n.lacpRate, "fast")
      && Chosen(p.hash, n.hashPolicy, "layer3+4") && p.members == JoinComma(n.bondMembers) && p.vid == n.vlan
  {
    hide ParamsOf, JoinComma;
    BondParams(n);
  }

  /** The device of a node: its bond or its interface, with the VLAN after a dot when there is one. */
  ghost predicate DeviceFor(device: string, base: string, n: Node) {
    && (n.Bonded() ==> Chosen(base, n.bondName, "bond0")) && (!n.Bonded() ==> base == n.dev)
    && device == base + (if n.vlan == "" then "" else "." + n.vlan)
  }

  lemma DeviceIs(n: Node) returns (base: string)
    ensures DeviceFor(DeviceOf(n), base, n)
  {
    base := if n.Bonded() then BondOf(n) else n.dev;
    assert base + "" == base && base + "." + n.vlan == base + ("." + n.vlan);
  }

  /** The hook does nothing without a name or members; what else is missing it fills in. */
  lemma HookMeans(p: Params)
    ensures HookOf(p) == NoBond <==> p.bond == "" || p.members == ""
    ensures var b := HookOf(p); b.Bond? ==>
      && b.name == p.bond && Chosen(b.mode, p.mode, "802.3ad") && Chosen(b.rate, p.rate, "fast")
      && Chosen(b.hash, p.hash, "layer3+4") && b.device == p.bond + (if p.vid == "" then "" else "." + p.vid)
  {
    assert p.bond + "" == p.bond && p.bond + "." + p.vid == p.bond + ("." + p.vid);
  }

  /** The setup the fields of the node ask for. */
  ghost predicate SetupFor(b: Setup, n: Node) {
    if n.Bonded() then
      && b.Bond? && b.members == n.bondMembers && Chosen(b.name, n.bondName, "bond0") && Chosen(b.mode, n.bondMode, "802.3ad")
      && Chosen(b.rate, n.lacpRate, "fast") && Chosen(b.hash, n.hashPolicy, "layer3+4") && DeviceFor(b.device, b.name, n)
    else b == NoBond
  }

  lemma {:induction false} SplitWord(a: string, rest: string, cur: string)
    requires ',' !in a
    ensures SplitComma(a + rest, cur) == SplitComma(rest, cur + a)
    decreases |a|
  {
    if a == "" {
      assert a + rest == rest && cur + a == cur;
    } else {
      SplitWord(a[1..], rest, cur + [a[0]]);
      assert (a + rest)[1..] == a[1..] + rest;
      assert cur + [a[0]] + a[1..] == cur + a;
    }
  }

  /** Splitting the member list undoes joining it. */
  lemma {:induction false} SplitJoin(ms: seq<string>)
    requires ProperMembers(ms)
    ensures SplitComma(JoinComma(ms), "") == ms
    decreases |ms|
  {
    if |ms| == 1 {
      SplitWord(ms[0], "", "");
      assert ms[0] + "" == ms[0] && "" + ms[0] == ms[0];
    } else if |ms| > 1 {
      var rest := "," + JoinComma(ms[1..]);
      SplitJoin(ms[1..]);
      SplitWord(ms[0], rest, "");
      assert ms[0] + "," + JoinComma(ms[1..]) == ms[0] + rest && "" + ms[0] == ms[0];
      assert rest[1..] == JoinComma(ms[1..]);
    }
  }

  /** The words around the hook's own, as a list. */
  lemma WordsShape(pre: seq<string>, n: Node, post: seq<string>)
    requires Foreign(pre) && Foreign(post)
    ensures var left, right := pre + [IpWord(n)], ["network-config=disabled"] + post;
      && Foreign(left) && Foreign(right)
      && pre + Words(n) + post == left + (if n.Bonded() then BondWords(n) else PlainWords(n)) + right
  {
    assert IpWord(n)[0] == 'i';
    assert "network-config=disabled"[0] == 'n';
    hide IpWord, BondWords, PlainWords;
    var ws := if n.Bonded() then BondWords(n) else PlainWords(n);
    Regroup(pre, [IpWord(n)], ws, ["network-config=disabled"], post);
  }

  lemma Regroup(pre: seq<string>, a: seq<string>, ws: seq<string>, b: seq<string>, post: seq<string>)
    ensures pre + (a + ws + b) + post == pre + a + ws + (b + post)
  {
  }

  lemma ParamsAmid(left: seq<string>, ws: seq<string>, right: seq<string>)
    requires Foreign(left) && Foreign(right)
    ensures ParamsOf(left + ws + right) == ParamsOf(ws)
  {
    AmidOthers(left, ws, right, "gen_bond=");
    AmidOthers(left, ws, right, "gen_members=");
    AmidOthers(left, ws, right, "gen_mode=");
    AmidOthers(left, ws, right, "gen_rate=");
    AmidOthers(left, ws, right, "gen_hash=");
    AmidOthers(left, ws, right, "gen_vlan=");
  }

  /** For every bonded node the hook sets up exactly the bond the node describes, whatever
      other parameters surround it; for every other node it does nothing. */
  lemma HookFollowsNode(pre: seq<string>, n: Node, post: seq<string>)
    requires Foreign(pre) && Foreign(post) && ProperMembers(n.bondMembers)
    ensures SetupFor(HookOf(ParamsOf(pre + Words(n) + post)), n)
  {
    WordsShape(pre, n, post);
    var left, right := pre + [IpWord(n)], ["network-config=disabled"] + post;
    hide IpWord, Words, BondWords, JoinComma, Foreign, SetupFor, HookOf;
    if n.Bonded() {
      ParamsAmid(left, BondWords(n), right);
      SetupOfBond(n);
    } else {
      ParamsAmid(left, PlainWords(n), right);
      PlainNone(n);
      SetupOfNone(n, ParamsOf(PlainWords(n)));
    }
  }

  lemma SetupOfNone(n: Node, p: Params)
    requires !n.Bonded() && p.bond == ""
    ensures SetupFor(HookOf(p), n)
  {
  }

  lemma SetupOfBond(n: Node)
    requires n.Bonded() && ProperMembers(n.bondMembers)
    ensures SetupFor(HookOf(ParamsOf(BondWords(n))), n)
  {
    BondValues(n);
    SplitJoin(n.bondMembers);
    JoinShape(n.bondMembers);
    hide ParamsOf, BondWords, JoinComma, SplitComma;
    var p := ParamsOf(BondWords(n));
    assert p.bond + "" == p.bond && p.bond + "." + n.vlan == p.bond + ("." + n.vlan);
  }

  lemma PlainNone(n: Node)
    ensures LastValue(PlainWords(n), "gen_bond=") == ""
  {
    if n.vlan != "" {
      assert PlainWords(n)[0][0] == 'v';
      LastValueNone(PlainWords(n), "gen_bond=");
    }
  }

  // ---- on the text of the command line ----

  ghost predicate SpaceFree(n: Node) {
    && NoSpace(n.ip) && NoSpace(n.gw) && NoSpace(n.netmask) && NoSpace(n.hostname) && NoSpace(n.dns) && NoSpace(n.dns2)
    && NoSpace(n.dev) && NoSpace(n.vlan) && NoSpace(n.bondName) && NoSpace(n.bondMode) && NoSpace(n.lacpRate)
    && NoSpace(n.hashPolicy) && forall i :: 0 <= i < |n.bondMembers| ==> NoSpace(n.bondMembers[i])
  }

  lemma {:induction false} JoinNoSpace(ms: seq<string>)
    requires forall i :: 0 <= i < |ms| ==> NoSpace(ms[i])
    ensures NoSpace(JoinComma(ms))
  {
    if |ms| > 1 {
      JoinNoSpace(ms[1..]);
      NoSpaceConcat(ms[0], ",");
      NoSpaceConcat(ms[0] + ",", JoinComma(ms[1..]));
    }
  }

  lemma KeyedWord(key: string, value: string)
    requires NoSpace(key) && key != "" && NoSpace(value)
    ensures IsWord(key + value)
  {
    NoSpaceConcat(key, value);
  }

  lemma BondWordsProper(n: Node)
    requires SpaceFree(n)
    ensures forall i :: 0 <= i < |BondWords(n)| ==> IsWord(BondWords(n)[i])
  {
    JoinNoSpace(n.bondMembers);
    hide JoinComma;
    KeyedWord("gen_bond=", BondOf(n));
    KeyedWord("gen_members=", JoinComma(n.bondMembers));
    KeyedWord("gen_mode=", Default(n.bondMode, "802.3ad"));
    KeyedWord("gen_rate=", Default(n.lacpRate, "fast"));
    KeyedWord("gen_hash=", Default(n.hashPolicy, "layer3+4"));
    KeyedWord("gen_vlan=", n.vlan);
  }

  lemma DeviceNoSpace(n: Node)
    requires SpaceFree(n)
    ensures NoSpace(DeviceOf(n)) && NoSpace(DnsText(n))
  {
    var dev := if n.Bonded() then BondOf(n) else n.dev;
    NoSpaceConcat(dev, ".");
    NoSpaceConcat(dev + ".", n.vlan);
    NoSpaceConcat(":", n.dns);
    NoSpaceConcat(":" + n.dns, ":");
    NoSpaceConcat(":" + n.dns + ":", n.dns2);
  }

  lemma IpWordProper(n: Node)
    requires SpaceFree(n)
    ensures IsWord(IpWord(n))
  {
    DeviceNoSpace(n);
    var s := "ip=" + n.ip;
    NoSpaceConcat("ip=", n.ip);
    NoSpaceConcat(s, "::");
    NoSpaceConcat(s + "::", n.gw);
    s := s + "::" + n.gw;
    NoSpaceConcat(s, ":");
    NoSpaceConcat(s + ":", n.netmask);
    s := s + ":" + n.netmask;
    NoSpaceConcat(s, ":");
    NoSpaceConcat(s + ":", n.hostname);
    s := s + ":" + n.hostname;
    NoSpaceConcat(s, ":");
    NoSpaceConcat(s + ":", DeviceOf(n));
    s := s + ":" + DeviceOf(n);
    NoSpaceConcat(s, ":none");
    NoSpaceConcat(s + ":none", DnsText(n));
    hide NoSpace, DeviceOf, DnsText;
  }

  lemma WordsProper(n: Node)
    requires SpaceFree(n)
    ensures forall i :: 0 <= i < |Words(n)| ==> IsWord(Words(n)[i])
  {
    IpWordProper(n);
    DeviceNoSpace(n);
    BondWordsProper(n);
    assert IsWord("network-config=disabled");
    var vlan := "vlan=" + DeviceOf(n);
    NoSpaceConcat("vlan=", DeviceOf(n));
    NoSpaceConcat(vlan, ":");
    NoSpaceConcat(vlan + ":", n.dev);
    assert NoSpace("vlan=") && NoSpace(":");
    hide IpWord, BondWords, DeviceOf, NoSpace;
  }

  /** The whole way through text: the hook, reading a command line that has the printed
      parameters anywhere in it, sets up exactly the node's bond. */
  lemma CommandLineRoundTrip(before: string, n: Node, after: string)
    requires n.kernelNet == "" && SpaceFree(n) && ProperMembers(n.bondMembers)
    requires Foreign(Tokens(before, "")) && Foreign(Tokens(after, ""))
    ensures SetupFor(HookOf(ParamsOf(Tokens(before + " " + BuildKernelNet(n) + " " + after, ""))), n)
  {
    WordsProper(n);
    hide Words, Foreign, Tokens, Join, SetupFor, SpaceFree, HookOf, ParamsOf;
    TokensJoin(Words(n));
    TokensSplit(before + " " + Join(Words(n)), after, "");
    TokensSplit(before, Join(Words(n)), "");
    HookFollowsNode(Tokens(before, ""), n, Tokens(after, ""));
  }

  /** The words of the printed parameters: the address first, then what the bond or the VLAN of a
      single interface needs, then the word that keeps cloud-init away. A configured text replaces
      them all. */
  lemma PrintedWords(n: Node)
    ensures n.kernelNet != "" ==> BuildKernelNet(n) == n.kernelNet
    ensures n.kernelNet == "" && SpaceFree(n) ==>
      var ws := Tokens(BuildKernelNet(n), "");
      && |ws| >= 2 && ws[0] == IpWord(n) && ws[|ws| - 1] == "network-config=disabled"
      && (!n.Bonded() && n.vlan == "" ==> |ws| == 2)
      && (!n.Bonded() && n.vlan != "" ==> |ws| == 3 && ws[1] == "vlan=" + (n.dev + "." + n.vlan) + ":" + n.dev)
      && (n.Bonded() ==> |ws| == if n.vlan == "" then 7 else 8)
  {
    if n.kernelNet == "" && SpaceFree(n) {
      WordsProper(n);
      TokensJoin(Words(n));
      hide Tokens, Join, IpWord, JoinComma, SpaceFree;
    }
  }

  // ---- the device of the address ----

  lemma {:induction false} CutCount(a: string, c: char)
    ensures |Cut(a, c)| == 1 + Count(a, c)
  {
    if a != "" {
      CutCount(a[1..], c);
    }
  }

  /** The place of the device among the fields of the ip= word: one more for every colon in the
      fields before it. */
  function DevicePlace(n: Node): nat {
    5 + Count(n.ip, ':') + Count(n.gw, ':') + Count(n.netmask, ':') + Count(n.hostname, ':')
  }

  /** The fields of the word, by what they come from. */
  function IpFields(n: Node): seq<string> {
    Cut("ip=" + n.ip, ':') + ([""] + (Cut(n.gw, ':') + (Cut(n.netmask, ':') + (Cut(n.hostname, ':')
      + (Cut(DeviceOf(n), ':') + Cut("none" + DnsText(n), ':'))))))
  }

  lemma IpCut(n: Node)
    ensures Cut(IpWord(n), ':') == IpFields(n)
  {
    hide DeviceOf, DnsText, Cut;
    var end := "none" + DnsText(n);
    var dev := DeviceOf(n) + [':'] + end;
    var host := n.hostname + [':'] + dev;
    var mask := n.netmask + [':'] + host;
    var gw := n.gw + [':'] + mask;
    var blank := "" + [':'] + gw;
    assert "ip=" + n.ip + [':'] + blank == IpWord(n);
    CutConcat("ip=" + n.ip, blank, ':');
    CutConcat("", gw, ':');
    CutConcat(n.gw, mask, ':');
    CutConcat(n.netmask, host, ':');
    CutConcat(n.hostname, dev, ':');
    CutConcat(DeviceOf(n), end, ':');
    CutEmpty(':');
  }

  lemma InMiddle<T>(a: seq<T>, b: seq<T>, c: seq<T>, d: seq<T>, e: seq<T>, f: seq<T>, g: seq<T>)
    ensures var k := |a| + |b| + |c| + |d| + |e|;
      (a + (b + (c + (d + (e + (f + g))))))[k..k + |f|] == f
  {
    var h := a + b + c + d + e;
    assert a + (b + (c + (d + (e + (f + g))))) == h + f + g;
  }

  lemma IpPrefix(ip: string)
    ensures Count("ip=" + ip, ':') == Count(ip, ':')
  {
    CountConcat("ip=", ip, ':');
    CountNone("ip=", ':');
  }

  /** The device of the address, cut at its own colons, stands at that place, for every node. */
  lemma DeviceAtPlace(n: Node)
    ensures var parts, dev := Cut(IpWord(n), ':'), Cut(DeviceOf(n), ':');
      DevicePlace(n) + |dev| <= |parts| && parts[DevicePlace(n)..DevicePlace(n) + |dev|] == dev
  {
    IpCut(n);
    IpPrefix(n.ip);
    CutCount("ip=" + n.ip, ':');
    CutCount(n.gw, ':');
    CutCount(n.netmask, ':');
    CutCount(n.hostname, ':');
    hide Cut, Count, DeviceOf, DnsText, IpWord;
    InMiddle(Cut("ip=" + n.ip, ':'), [""], Cut(n.gw, ':'), Cut(n.netmask, ':'), Cut(n.hostname, ':'),
             Cut(DeviceOf(n), ':'), Cut("none" + DnsText(n), ':'));
  }

  /** It is the sixth field, where the kernel looks for the device, if and only if none of the
      fields before it has a colon; it is one field if and only if it has none itself. Then the
      address goes to the very device the hook creates. */
  lemma AddressedDevice(n: Node)
    ensures DevicePlace(n) == 5 <==> ':' !in n.ip && ':' !in n.gw && ':' !in n.netmask && ':' !in n.hostname
    ensures |Cut(DeviceOf(n), ':')| == 1 <==> ':' !in DeviceOf(n)
    ensures DevicePlace(n) == 5 && ':' !in DeviceOf(n) ==>
      var parts := Cut(IpWord(n), ':'); |parts| > 5 && parts[5] == DeviceOf(n)
  {
    CountNone(n.ip, ':');
    CountNone(n.gw, ':');
    CountNone(n.netmask, ':');
    CountNone(n.hostname, ':');
    CountNone(DeviceOf(n), ':');
    CutCount(DeviceOf(n), ':');
    DeviceAtPlace(n);
    hide Cut, Count, IpWord, DeviceOf;
    if ':' !in DeviceOf(n) {
      CutWhole(DeviceOf(n), ':');
      var parts := Cut(IpWord(n), ':');
      assert DevicePlace(n) == 5 ==> parts[5] == parts[5..6][0];
    }
  }

  lemma {:induction false} CutWhole(a: string, c: char)
    requires c !in a
    ensures Cut(a, c) == [a]
  {
    if a != "" {
      CutWhole(a[1..], c);
      assert a == [a[0]] + a[1..];
    }
  }

  function DnsFields(n: Node): seq<string> {
    if n.dns == "" then [] else if n.dns2 == "" then [n.dns] else [n.dns, n.dns2]
  }

  lemma DnsCut(n: Node)
    requires ':' !in n.dns && ':' !in n.dns2
    ensures Cut("none" + DnsText(n), ':') == ["none"] + DnsFields(n)
  {
    CutWhole("none", ':');
    CutWhole(n.dns, ':');
    CutWhole(n.dns2, ':');
    hide Cut;
    var none := "none";
    assert none + "" == none;
    assert none + (":" + n.dns) == none + [':'] + n.dns;
    assert none + (":" + n.dns + ":" + n.dns2) == none + [':'] + (n.dns + [':'] + n.dns2);
    CutConcat(none, n.dns, ':');
    CutConcat(none, n.dns + [':'] + n.dns2, ':');
    CutConcat(n.dns, n.dns2, ':');
  }

  lemma Singles<T>(a: T, b: T, c: T, d: T, e: T, f: T, g: T, rest: seq<T>)
    ensures [a] + ([b] + ([c] + ([d] + ([e] + ([f] + ([g] + rest)))))) == [a, b, c, d, e, f, g] + rest
  {
  }

  /** The fields of the ip= word, where no value has a colon: address, nothing for the server, gateway,
      netmask, host name, device, and no autoconfiguration; a second name server only with a first. */
  lemma IpWordFields(n: Node)
    requires ':' !in n.ip && ':' !in n.gw && ':' !in n.netmask && ':' !in n.hostname && ':' !in n.dns && ':' !in n.dns2
    requires ':' !in DeviceOf(n)
    ensures Cut(IpWord(n), ':') == ["ip=" + n.ip, "", n.gw, n.netmask, n.hostname, DeviceOf(n), "none"] + DnsFields(n)
  {
    IpCut(n);
    DnsCut(n);
    CutWhole("ip=" + n.ip, ':');
    CutWhole(n.gw, ':');
    CutWhole(n.netmask, ':');
    CutWhole(n.hostname, ':');
    CutWhole(DeviceOf(n), ':');
    hide Cut, IpWord, DeviceOf, DnsText, DnsFields;
    Singles("ip=" + n.ip, "", n.gw, n.netmask, n.hostname, DeviceOf(n), "none", DnsFields(n));
  }

  const IPV6 := "fe80::1"

  lemma Ipv6Colons()
    ensures Cut("ip=" + IPV6, ':') == ["ip=fe80", "", "1"]
  {
    CutWhole("ip=fe80", ':');
    CutWhole("1", ':');
    assert "ip=" + IPV6 == "ip=fe80" + [':'] + ("" + [':'] + "1");
    hide Cut;
    CutConcat("ip=fe80", "" + [':'] + "1", ':');
    CutConcat("", "1", ':');
    CutEmpty(':');
  }

  /** An IPv6 address moves the device two places on, and its place is taken by the netmask. */
  lemma AddressShifted(n: Node)
    requires n.ip == IPV6 && ':' !in n.gw && ':' !in n.netmask && ':' !in n.hostname && ':' !in DeviceOf(n)
    ensures var parts := Cut(IpWord(n), ':'); |parts| > 7 && parts[5] == n.netmask && parts[7] == DeviceOf(n)
  {
    IpCut(n);
    Ipv6Colons();
    CutWhole(n.gw, ':');
    CutWhole(n.netmask, ':');
    CutWhole(n.hostname, ':');
    CutWhole(DeviceOf(n), ':');
    hide Cut, IpWord, DeviceOf, DnsText;
  }
}
