/** The text whose hash identifies the content of a cached ISO. */
module ConfigKey {
  import opened Text
  import opened Nodes
  import opened IpxeScript
  import opened IpxeLang
  import opened Bytes
  import opened IpxeText

  /** s1,s2,...: Go's strings.Join with a comma. */
  function JoinComma(ms: seq<string>): string {
    if ms == [] then "" else if |ms| == 1 then ms[0] else ms[0] + "," + JoinComma(ms[1..])
  }

  datatype Field = Field(name: string, value: string)

  /** name=value lines. */
  function FieldLines(fs: seq<Field>): string {
    if fs == [] then "" else fs[0].name + "=" + fs[0].value + "\n" + FieldLines(fs[1..])
  }

  function Fields(n: Node, mac: string, proxyBase: string): (fs: seq<Field>)
    ensures |fs| == 16
  {
    [Field("mac", mac), Field("ip", n.ip), Field("netmask", n.netmask), Field("gw", n.gw), Field("vlan", n.vlan),
     Field("dev", n.dev), Field("hostname", n.hostname), Field("dns", n.dns), Field("dns2", n.dns2),
     Field("bond_members", JoinComma(n.bondMembers)), Field("bond_name", n.bondName), Field("bond_mode", n.bondMode),
     Field("lacp_rate", n.lacpRate), Field("hash_policy", n.hashPolicy), Field("kernel_net", n.kernelNet),
     Field("proxy_base", TrimSlashes(proxyBase))]
  }

  function Preimage(n: Node, mac: string, proxyBase: string): string {
    FieldLines(Fields(n, mac, proxyBase))
  }

  function GenericPreimage(proxyBase: string): string {
    "generic\nproxy_base=" + TrimSlashes(proxyBase)
  }

  ghost predicate LineFields(n: Node, mac: string, proxyBase: string) {
    && OneLine(mac) && OneLine(n.ip) && OneLine(n.netmask) && OneLine(n.gw) && OneLine(n.vlan) && OneLine(n.dev)
    && OneLine(n.hostname) && OneLine(n.dns) && OneLine(n.dns2) && OneLine(n.bondName) && OneLine(n.bondMode)
    && OneLine(n.lacpRate) && OneLine(n.hashPolicy) && OneLine(n.kernelNet) && OneLine(proxyBase)
    && forall i :: 0 <= i < |n.bondMembers| ==> OneLine(n.bondMembers[i])
  }

  ghost predicate ProperMembers(ms: seq<string>) {
    forall i :: 0 <= i < |ms| ==> ms[i] != "" && ',' !in ms[i]
  }

  ghost predicate CommaFree(ms: seq<string>) {
    forall i :: 0 <= i < |ms| ==> ',' !in ms[i]
  }

  /** No member, or one that is empty. */
  predicate Blank(ms: seq<string>) { ms == [] || ms == [""] }

  // ---- unique decoding ----

  /** Text up to a separator that does not occur in it is determined by the whole. */
  lemma {:induction false} CutUnique<T>(a: seq<T>, b: seq<T>, x: seq<T>, y: seq<T>, c: T)
    requires c !in a && c !in b && a + [c] + x == b + [c] + y
    ensures a == b && x == y
    decreases |a|
  {
    var s, t := a + [c] + x, b + [c] + y;
    assert s[0] == if a == [] then c else a[0];
    assert t[0] == if b == [] then c else b[0];
    if a == [] {
      assert s[1..] == x && t[1..] == y;
    } else {
      assert s[1..] == a[1..] + [c] + x && t[1..] == b[1..] + [c] + y;
      CutUnique(a[1..], b[1..], x, y, c);
    }
  }

  ghost predicate SameNames(fs: seq<Field>, gs: seq<Field>) {
    && |fs| == |gs|
    && forall i :: 0 <= i < |fs| ==> fs[i].name == gs[i].name && OneLine(fs[i].name)
  }

  ghost predicate OneLineValues(fs: seq<Field>) {
    forall i :: 0 <= i < |fs| ==> OneLine(fs[i].value)
  }

  /** The lines determine the values. */
  lemma {:induction false} FieldLinesUnique(fs: seq<Field>, gs: seq<Field>)
    requires SameNames(fs, gs) && OneLineValues(fs) && OneLineValues(gs) && FieldLines(fs) == FieldLines(gs)
    ensures fs == gs
    decreases |fs|
  {
    if fs != [] {
      var a, b := fs[0].name + "=" + fs[0].value, gs[0].name + "=" + gs[0].value;
      assert OneLine(a) && OneLine(b);
      CutUnique(a, b, FieldLines(fs[1..]), FieldLines(gs[1..]), '\n');
      var k := |fs[0].name| + 1;
      assert a[k..] == fs[0].value && b[k..] == gs[0].value;
      FieldLinesUnique(fs[1..], gs[1..]);
      assert fs == [fs[0]] + fs[1..] && gs == [gs[0]] + gs[1..];
    }
  }

  lemma {:induction false} JoinOneLine(ms: seq<string>)
    requires forall i :: 0 <= i < |ms| ==> OneLine(ms[i])
    ensures OneLine(JoinComma(ms))
  {
    if |ms| > 1 {
      JoinOneLine(ms[1..]);
    }
  }

  lemma FieldsOneLine(n: Node, mac: string, proxyBase: string)
    requires LineFields(n, mac, proxyBase)
    ensures OneLineValues(Fields(n, mac, proxyBase))
  {
    JoinOneLine(n.bondMembers);
    assert OneLine(TrimSlashes(proxyBase));
  }

  predicate SameButMembers(m: Node, n: Node) {
    m.(bondMembers := []) == n.(bondMembers := [])
  }

  lemma NamesFixed(m: Node, n: Node, mac: string, mac': string, base: string, base': string)
    ensures SameNames(Fields(m, mac, base), Fields(n, mac', base'))
  {
    hide JoinComma, TrimSlashes;
  }

  /** Exactly what the text determines: everything but the way the members are cut. */
  lemma PreimageEqual(m: Node, n: Node, mac: string, mac': string, base: string, base': string)
    requires LineFields(m, mac, base) && LineFields(n, mac', base')
    ensures Preimage(m, mac, base) == Preimage(n, mac', base') <==>
            && SameButMembers(m, n) && JoinComma(m.bondMembers) == JoinComma(n.bondMembers)
            && mac == mac' && TrimSlashes(base) == TrimSlashes(base')
  {
    var fs, gs := Fields(m, mac, base), Fields(n, mac', base');
    FieldsOneLine(m, mac, base);
    FieldsOneLine(n, mac', base');
    NamesFixed(m, n, mac, mac', base, base');
    hide FieldLines, Fields, OneLineValues, SameNames, JoinComma, TrimSlashes, LineFields, SameButMembers;
    if Preimage(m, mac, base) == Preimage(n, mac', base') {
      FieldLinesUnique(fs, gs);
    }
    FieldsDetermine(m, n, mac, mac', base, base');
  }

  lemma FieldsDetermine(m: Node, n: Node, mac: string, mac': string, base: string, base': string)
    ensures Fields(m, mac, base) == Fields(n, mac', base') <==>
            && SameButMembers(m, n) && JoinComma(m.bondMembers) == JoinComma(n.bondMembers)
            && mac == mac' && TrimSlashes(base) == TrimSlashes(base')
  {
    var fs, gs := Fields(m, mac, base), Fields(n, mac', base');
    hide JoinComma, TrimSlashes;
    if fs == gs {
      assert fs[0] == gs[0] && fs[1] == gs[1] && fs[2] == gs[2] && fs[3] == gs[3];
      assert fs[4] == gs[4] && fs[5] == gs[5] && fs[6] == gs[6] && fs[7] == gs[7];
      assert fs[8] == gs[8] && fs[9] == gs[9] && fs[10] == gs[10] && fs[11] == gs[11];
      assert fs[12] == gs[12] && fs[13] == gs[13] && fs[14] == gs[14] && fs[15] == gs[15];
    }
  }

  /** The join of comma-free members has a comma only for several. */
  lemma {:induction false} JoinShape(ms: seq<string>)
    requires CommaFree(ms)
    ensures ',' in JoinComma(ms) <==> |ms| > 1
  {
    if |ms| > 1 {
      assert JoinComma(ms)[|ms[0]|] == ',';
    }
  }

  /** Members without commas are determined by their join, except that no member and one empty
      member join alike. */
  lemma {:induction false} JoinUnique(ms: seq<string>, ns: seq<string>)
    requires CommaFree(ms) && CommaFree(ns)
    ensures JoinComma(ms) == JoinComma(ns) <==> ms == ns || (Blank(ms) && Blank(ns))
    decreases |ms|
  {
    if JoinComma(ms) == JoinComma(ns) {
      JoinShape(ms);
      JoinShape(ns);
      if |ms| > 1 {
        CutUnique(ms[0], ns[0], JoinComma(ms[1..]), JoinComma(ns[1..]), ',');
        JoinUnique(ms[1..], ns[1..]);
        if ms[1..] != ns[1..] {
          LastBlank(ms, ns);
        }
        assert ms == [ms[0]] + ms[1..] && ns == [ns[0]] + ns[1..];
      }
    }
  }

  lemma LastBlank(ms: seq<string>, ns: seq<string>)
    requires |ms| > 1 && |ns| > 1 && Blank(ms[1..]) && Blank(ns[1..])
    ensures ms[1..] == ns[1..]
  {
  }

  /** The script of a node with a blank list of members is that of a node without members. */
  lemma BlankScript(n: Node, mac: string, base: string, fmt: string -> string)
    requires Blank(n.bondMembers)
    ensures Script(n, mac, base, fmt) == Script(n.(bondMembers := []), mac, base, fmt)
  {
    var e := n.(bondMembers := []);
    assert !IsPciAddr("");
    assert !HasPci(n) && !HasPci(e);
    assert PciSets(n.bondMembers, fmt, 0) == Nil == PciSets(e.bondMembers, fmt, 0);
  }

  /** For members without commas the key identifies the boot script, and for proper members the
      node. */
  lemma KeyIdentifiesScript(m: Node, n: Node, mac: string, mac': string, base: string, base': string, fmt: string -> string)
    requires LineFields(m, mac, base) && LineFields(n, mac', base')
    requires CommaFree(m.bondMembers) && CommaFree(n.bondMembers)
    requires Preimage(m, mac, base) == Preimage(n, mac', base')
    ensures SameButMembers(m, n) && mac == mac' && TrimSlashes(base) == TrimSlashes(base')
    ensures m == n || (Blank(m.bondMembers) && Blank(n.bondMembers))
    ensures Render(m, mac, base, fmt) == Render(n, mac', base', fmt)
  {
    PreimageEqual(m, n, mac, mac', base, base');
    JoinUnique(m.bondMembers, n.bondMembers);
    hide Script, TextOf, JoinComma, TrimSlashes;
    if m != n {
      BlankScript(m, mac, TrimSlashes(base), fmt);
      BlankScript(n, mac, TrimSlashes(base), fmt);
    }
  }

  // ---- what happens with commas ----

  /** ASCII text on one line. */
  predicate PlainLine(s: string) { forall i :: 0 <= i < |s| ==> s[i] as int < 128 && s[i] != '\n' }

  lemma PlainUnique(a: string, b: string, x: string, y: string)
    requires PlainLine(a) && PlainLine(b) && Ascii(a + "\n" + x) == Ascii(b + "\n" + y)
    ensures a == b
  {
    AsciiConcat(a + "\n", x);
    AsciiConcat(b + "\n", y);
    AsciiConcat(a, "\n");
    AsciiConcat(b, "\n");
    var nl: byte := 10;
    assert Ascii("\n") == [nl];
    assert nl !in Ascii(a) && nl !in Ascii(b);
    CutUnique(Ascii(a), Ascii(b), Ascii(x), Ascii(y), nl);
    SameAscii(a, b);
  }

  lemma SameAscii(a: string, b: string)
    requires PlainLine(a) && PlainLine(b) && Ascii(a) == Ascii(b)
    ensures a == b
  {
    forall i | 0 <= i < |a|
      ensures i < |b| && a[i] == b[i]
    {
      assert Ascii(a)[i] == Ascii(b)[i];
    }
  }

  /** The script up to the address of the first member, if that is a PCI address. */
  function BeforePci(n: Node, mac: string): string {
    "#!ipxe" + "\n" + (NoteText(n, mac) + "\n" + (VlanText(n) + PciStart()))
  }

  function NoteText(n: Node, mac: string): string { "# Dynamic boot script for " + n.hostname + " (" + mac + ")" }

  function VlanText(n: Node): string {
    if n.vlan != "" then LineText(Do(Set(W("vlan"), W(n.vlan)))) + "\n" else ""
  }

  function PciStart(): string { "set" + " " + (PciKey(0) + " ") }

  lemma Join3(a: string, b: string, c: string)
    ensures Join([a, b, c]) == (a + " " + (b + " ")) + c
  {
    var ws := [a, b, c];
    assert ws[1..] == [b, c] && [b, c][1..] == [c];
    assert Join([b, c]) == b + " " + c;
    assert Join(ws) == a + " " + Join(ws[1..]);
  }

  lemma PciLine(v: string)
    ensures LineText(Do(Set(W(PciKey(0)), V(v)))) == PciStart() + v
  {
    var k := PciKey(0);
    assert W(k).Print() == k && V(v).Print() == v;
    Join3("set", k, v);
    hide Join, PciKey;
  }

  lemma Regroup(h1: string, h2: string, h3: string, p: string, v: string, r: string)
    ensures h1 + "\n" + (h2 + "\n" + (h3 + (p + v + "\n" + r))) == (h1 + "\n" + (h2 + "\n" + (h3 + p))) + (v + "\n" + r)
  {
    assert h3 + (p + v + "\n" + r) == (h3 + p) + (v + "\n" + r);
  }

  /** What follows the first set line. */
  function AfterPci(n: Node, mac: string, base: string, fmt: string -> string): Lines
    requires n.bondMembers != []
  {
    Append(Append(PciSets(n.bondMembers, fmt, 1), If(!HasPci(n) && mac != "", Do(Set(W("target_mac"), W(ToLower(mac)))), Nil)),
           Cons(Label("top"), Top(n, mac, base)))
  }

  lemma ScriptShape(n: Node, mac: string, base: string, fmt: string -> string)
    requires n.bondMembers != [] && IsPciAddr(n.bondMembers[0])
    ensures Script(n, mac, base, fmt) ==
      Cons(Note("#!ipxe"), Cons(Note("# Dynamic boot script for " + n.hostname + " (" + mac + ")"),
        If(n.vlan != "", Do(Set(W("vlan"), W(n.vlan))),
        Cons(Do(Set(W(PciKey(0)), V(fmt(n.bondMembers[0])))), AfterPci(n, mac, base, fmt)))))
  {
    hide IsPciAddr, HasPci, Top, PciKey;
    var last := If(!HasPci(n) && mac != "", Do(Set(W("target_mac"), W(ToLower(mac)))), Nil);
    var sets := Append(PciSets(n.bondMembers, fmt, 0), last);
    assert sets == Cons(Do(Set(W(PciKey(0)), V(fmt(n.bondMembers[0])))), Append(PciSets(n.bondMembers, fmt, 1), last));
    hide PciSets;
    var rest := If(n.vlan != "", Do(Set(W("vlan"), W(n.vlan))), sets);
    var tail := Cons(Label("top"), Top(n, mac, base));
    assert Append(sets, tail) == Cons(Do(Set(W(PciKey(0)), V(fmt(n.bondMembers[0])))), AfterPci(n, mac, base, fmt));
    assert Append(rest, tail) == If(n.vlan != "", Do(Set(W("vlan"), W(n.vlan))), Append(sets, tail));
    var note := Note("# Dynamic boot script for " + n.hostname + " (" + mac + ")");
    assert Append(Cons(note, rest), tail) == Cons(note, Append(rest, tail));
  }

  lemma ScriptText(n: Node, mac: string, base: string, fmt: string -> string)
    requires n.bondMembers != [] && IsPciAddr(n.bondMembers[0])
    ensures TextOf(Script(n, mac, base, fmt)) ==
      BeforePci(n, mac) + (fmt(n.bondMembers[0]) + "\n" + TextOf(AfterPci(n, mac, base, fmt)))
  {
    ScriptShape(n, mac, base, fmt);
    var v := fmt(n.bondMembers[0]);
    PciLine(v);
    var rest := AfterPci(n, mac, base, fmt);
    hide Script, AfterPci, IsPciAddr, PciKey, PciStart, W, V;
    var first, vlan := Do(Set(W(PciKey(0)), V(v))), Do(Set(W("vlan"), W(n.vlan)));
    var after := If(n.vlan != "", vlan, Cons(first, rest));
    var note := Note(NoteText(n, mac));
    TextCons(first, rest);
    TextCons(vlan, Cons(first, rest));
    TextCons(note, after);
    TextCons(Note("#!ipxe"), Cons(note, after));
    var setText := PciStart() + v + "\n" + TextOf(rest);
    hide TextOf;
    assert TextOf(after) == VlanText(n) + setText;
    Regroup("#!ipxe", NoteText(n, mac), VlanText(n), PciStart(), v, TextOf(rest));
    hide VlanText, NoteText, LineText;
  }

  /** With commas it does not: one member holding a comma and the two members it spells give the
      same key, although the scripts differ. */
  lemma CommaCollision(n: Node, a: string, b: string, mac: string, base: string, fmt: string -> string)
    requires IsPciAddr(a) && IsPciAddr(a + "," + b) && fmt(a) != fmt(a + "," + b)
    requires PlainLine(fmt(a)) && PlainLine(fmt(a + "," + b))
    ensures var one, two := n.(bondMembers := [a + "," + b]), n.(bondMembers := [a, b]);
      && Preimage(one, mac, base) == Preimage(two, mac, base)
      && Ascii(Render(one, mac, base, fmt)) != Ascii(Render(two, mac, base, fmt))
  {
    var one, two := n.(bondMembers := [a + "," + b]), n.(bondMembers := [a, b]);
    assert two.bondMembers[1..] == [b];
    assert JoinComma(one.bondMembers) == JoinComma(two.bondMembers);
    var t := TrimSlashes(base);
    ScriptText(one, mac, t, fmt);
    ScriptText(two, mac, t, fmt);
    var x, y := TextOf(AfterPci(one, mac, t, fmt)), TextOf(AfterPci(two, mac, t, fmt));
    var h := BeforePci(n, mac);
    assert BeforePci(one, mac) == h && BeforePci(two, mac) == h;
    hide IsPciAddr, JoinComma, AfterPci, Script, TextOf, BeforePci, Ascii, TrimSlashes, PlainLine;
    AsciiConcat(h, fmt(a + "," + b) + "\n" + x);
    AsciiConcat(h, fmt(a) + "\n" + y);
    if Ascii(Render(one, mac, base, fmt)) == Ascii(Render(two, mac, base, fmt)) {
      SameTail(Ascii(h), Ascii(fmt(a + "," + b) + "\n" + x), Ascii(fmt(a) + "\n" + y));
      PlainUnique(fmt(a + "," + b), fmt(a), x, y);
    }
  }

  lemma SameTail<T>(h: seq<T>, x: seq<T>, y: seq<T>)
    requires h + x == h + y
    ensures x == y
  {
    assert (h + x)[|h|..] == x && (h + y)[|h|..] == y;
  }

  /** Such members exist, for instance where formatting only lowers the case. */
  lemma CommaCollisionExists()
    ensures var a, b := "1:2.3", "4:5.6";
      && IsPciAddr(a) && IsPciAddr(a + "," + b) && ToLower(a) != ToLower(a + "," + b)
      && PlainLine(ToLower(a)) && PlainLine(ToLower(a + "," + b))
  {
    var a, b := "1:2.3", "4:5.6";
    var c := a + "," + b;
    assert a[1] == ':' && a[3] == '.';
    assert c[1] == ':' && c[3] == '.';
    assert |c| == 11 && |a| == 5;
    hide Count;
  }

  // ---- what happens with newlines ----

  function FieldLine(f: Field): string { f.name + "=" + f.value + "\n" }

  lemma FieldLinesStep(fs: seq<Field>)
    ensures FieldLines(fs) == if fs == [] then "" else FieldLine(fs[0]) + FieldLines(fs[1..])
  {
  }

  lemma ConcatShape<T>(fs: seq<T>, gs: seq<T>)
    ensures if fs == [] then fs + gs == gs else (fs + gs)[0] == fs[0] && (fs + gs)[1..] == fs[1..] + gs
  {
  }

  lemma Associates(a: string, b: string, c: string)
    ensures a + (b + c) == a + b + c && "" + a == a
  {
  }

  lemma {:induction false} FieldLinesConcat(fs: seq<Field>, gs: seq<Field>)
    ensures FieldLines(fs + gs) == FieldLines(fs) + FieldLines(gs)
  {
    hide FieldLines, FieldLine;
    FieldLinesStep(fs);
    FieldLinesStep(fs + gs);
    ConcatShape(fs, gs);
    if fs == [] {
      Associates(FieldLines(gs), "", "");
    } else {
      FieldLinesConcat(fs[1..], gs);
      Associates(FieldLine(fs[0]), FieldLines(fs[1..]), FieldLines(gs));
    }
  }

  lemma TwoFields(f: Field, g: Field)
    ensures FieldLines([f, g]) == f.name + "=" + f.value + "\n" + (g.name + "=" + g.value + "\n")
  {
    assert [f, g][1..] == [g] && [g][1..] == [];
    assert FieldLines([g]) == g.name + "=" + g.value + "\n";
  }

  /** Nor with newlines in fields: text can move from one field to the next without changing the
      key, although the scripts differ. */
  lemma NewlineCollision(n: Node, a: string, b: string, mac: string, base: string, fmt: string -> string)
    ensures var one, two := n.(hostname := a + "\ndns=" + b, dns := ""), n.(hostname := a, dns := b + "\ndns=");
      && Preimage(one, mac, base) == Preimage(two, mac, base)
      && Ascii(Render(one, mac, base, fmt)) != Ascii(Render(two, mac, base, fmt))
  {
    var one, two := n.(hostname := a + "\ndns=" + b, dns := ""), n.(hostname := a, dns := b + "\ndns=");
    SameKey(n, a, b, mac, base);
    NoteAt(one, mac, TrimSlashes(base), fmt, a, '\n');
    NoteAt(two, mac, TrimSlashes(base), fmt, a, ' ');
    var k := |NOTE_START| + |a|;
    hide Script, TextOf, Preimage;
    assert Ascii(Render(one, mac, base, fmt))[k] == 10 && Ascii(Render(two, mac, base, fmt))[k] == 32;
  }

  const NOTE_START := "#!ipxe" + "\n" + "# Dynamic boot script for "

  /** The character of the script that follows the beginning a of the host name. */
  lemma NoteAt(n: Node, mac: string, base: string, fmt: string -> string, a: string, c: char)
    requires a <= n.hostname && c == (n.hostname + " (")[|a|]
    ensures var t := TextOf(Script(n, mac, base, fmt)); |NOTE_START| + |a| < |t| && t[|NOTE_START| + |a|] == c
  {
    var s := Script(n, mac, base, fmt);
    var pr, tail := Prologue(n, mac, fmt), Cons(Label("top"), Top(n, mac, base));
    assert Append(pr, tail) == Cons(pr.head, Append(pr.tail, tail));
    assert Append(pr.tail, tail) == Cons(pr.tail.head, Append(pr.tail.tail, tail));
    assert s.head == Note("#!ipxe") && s.tail.head == Note(NoteText(n, mac));
    var rest := s.tail.tail;
    hide Script;
    TextCons(s.tail.head, rest);
    TextCons(s.head, s.tail);
    hide TextOf;
    InNote("#!ipxe", "# Dynamic boot script for ", n.hostname, mac, TextOf(rest), |a|);
  }

  lemma InNote(shebang: string, start: string, host: string, mac: string, rest: string, k: nat)
    requires k <= |host|
    ensures var t := shebang + "\n" + ((start + host + " (" + mac + ")") + "\n" + rest);
      |shebang + "\n" + start| + k < |t| && t[|shebang + "\n" + start| + k] == (host + " (")[k]
  {
    var note := start + host + " (" + mac + ")";
    assert note[|start| + k] == (host + " (")[k];
  }

  lemma CutTwo<T>(fs: seq<T>, k: nat)
    requires k + 2 <= |fs|
    ensures fs == fs[..k] + ([fs[k], fs[k + 1]] + fs[k + 2..])
  {
  }

  lemma ThreeParts(a: seq<Field>, f: seq<Field>, c: seq<Field>)
    ensures FieldLines(a + (f + c)) == FieldLines(a) + (FieldLines(f) + FieldLines(c))
  {
    hide FieldLines;
    FieldLinesConcat(a, f + c);
    FieldLinesConcat(f, c);
  }

  /** Two lists that differ in two neighbours only, with the same lines for them. */
  lemma Spliced(fs: seq<Field>, gs: seq<Field>, k: nat)
    requires k + 2 <= |fs| == |gs| && fs[..k] == gs[..k] && fs[k + 2..] == gs[k + 2..]
    requires FieldLines([fs[k], fs[k + 1]]) == FieldLines([gs[k], gs[k + 1]])
    ensures FieldLines(fs) == FieldLines(gs)
  {
    hide FieldLines;
    CutTwo(fs, k);
    CutTwo(gs, k);
    ThreeParts(fs[..k], [fs[k], fs[k + 1]], fs[k + 2..]);
    ThreeParts(gs[..k], [gs[k], gs[k + 1]], gs[k + 2..]);
  }

  lemma MovedText(a: string, b: string)
    ensures FieldLines([Field("hostname", a + "\ndns=" + b), Field("dns", "")])
         == FieldLines([Field("hostname", a), Field("dns", b + "\ndns=")])
  {
    TwoFields(Field("hostname", a + "\ndns=" + b), Field("dns", ""));
    TwoFields(Field("hostname", a), Field("dns", b + "\ndns="));
    hide FieldLines;
    assert "\ndns=" == "\n" + ("dns" + "=");
  }

  lemma SameKey(n: Node, a: string, b: string, mac: string, base: string)
    ensures var one, two := n.(hostname := a + "\ndns=" + b, dns := ""), n.(hostname := a, dns := b + "\ndns=");
      Preimage(one, mac, base) == Preimage(two, mac, base)
  {
    var one, two := n.(hostname := a + "\ndns=" + b, dns := ""), n.(hostname := a, dns := b + "\ndns=");
    var fs, gs := Fields(one, mac, base), Fields(two, mac, base);
    hide JoinComma, TrimSlashes, FieldLines;
    assert fs[..6] == gs[..6] && fs[8..] == gs[8..];
    assert fs[6] == Field("hostname", a + "\ndns=" + b) && fs[7] == Field("dns", "");
    assert gs[6] == Field("hostname", a) && gs[7] == Field("dns", b + "\ndns=");
    hide Fields;
    MovedText(a, b);
    Spliced(fs, gs, 6);
  }

  /** The key of the generic ISO is never that of a node. */
  lemma GenericApart(n: Node, mac: string, base: string, base': string)
    ensures Preimage(n, mac, base) != GenericPreimage(base')
  {
    assert Preimage(n, mac, base)[0] == 'm';
    assert GenericPreimage(base')[0] == 'g';
  }
}
