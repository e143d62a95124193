/** What the script does to a network device before and after a boot attempt: the settings it makes
    and the device commands it runs. */
module IpxeSetup {
  import opened Text
  import opened Nodes
  import opened IpxeLang
  import opened IpxeScript

  type Commands = seq<seq<string>>

  // ---- the specification ----

  /** The counter nic is i. */
  ghost predicate AtNic(env: Env, i: nat) { "nic" in env && env["nic"] == Num(i) }

  ghost predicate VlanSet(n: Node, env: Env) { n.vlan != "" ==> "vlan" in env && env["vlan"] == Str(n.vlan) }

  function Net(i: nat): string { "net" + Dec(i) }

  /** The interface that gets the address of the node on device i. */
  function Iface(n: Node, i: nat): string { if n.vlan == "" then Net(i) else Net(i) + "-" + n.vlan }

  /** A setting has its value, if the node has one for it. */
  ghost predicate Has(env: Env, name: string, value: string) {
    value != "" ==> name in env && env[name] == Str(value)
  }

  /** The settings of the node are in force on device i. */
  ghost predicate Configured(n: Node, i: nat, env: Env) {
    && Has(env, Iface(n, i) + "/ip", n.ip) && Has(env, Iface(n, i) + "/netmask", n.netmask)
    && Has(env, Iface(n, i) + "/gateway", n.gw) && Has(env, Iface(n, i) + "/dns", n.dns)
  }

  /** The device commands before an attempt: the device is restarted, the VLAN made on it, and the
      interface opened with its settings. */
  function Up(n: Node, i: nat): Commands {
    [["ifclose", Net(i)], ["ifopen", Net(i)]] + (if n.vlan == "" then [] else [["vcreate", "--tag", n.vlan, Net(i)]])
    + [["ifopen", Iface(n, i)]]
  }

  /** Those after an attempt that failed: VLAN and device are taken down. */
  function Down(n: Node, i: nat): Commands {
    (if n.vlan == "" then [] else [["ifclose", Net(i) + "-" + n.vlan], ["vdestroy", Net(i) + "-" + n.vlan]])
    + [["ifclose", Net(i)]]
  }

  ghost predicate EndsWith(done: Commands, cs: Commands) {
    |cs| <= |done| && done[|done| - |cs|..] == cs
  }

  /** The next line is a boot attempt. */
  predicate AtChain(st: State) {
    st.Running? && st.rest.Cons? && st.rest.head.Run? && st.rest.head.clauses.cmd.Chain?
  }

  /** A boot attempt is about to be made on device i with the settings of the node in force and
      the device just brought up. */
  ghost predicate ReadyOn(n: Node, i: nat, st: State)
    requires st.Running?
  {
    AtNic(st.env, i) && Configured(n, i, st.env) && EndsWith(st.done, Up(n, i))
  }

  ghost predicate Ready(n: Node, st: State) {
    AtChain(st) ==> exists i: nat :: ReadyOn(n, i, st)
  }

  /** A run on which every attempt is made that way. */
  ghost predicate Goes(script: Lines, w: World, n: Node, a: State, b: State) {
    exists m: nat :: GoesIn(script, w, n, a, b, m)
  }

  ghost predicate GoesIn(script: Lines, w: World, n: Node, a: State, b: State, m: nat) {
    Steps(script, w, a, m) == b && forall k :: 0 <= k < m ==> Ready(n, Steps(script, w, a, k))
  }

  lemma GoesRefl(script: Lines, w: World, n: Node, a: State)
    ensures Goes(script, w, n, a, a)
  {
    assert GoesIn(script, w, n, a, a, 0);
  }

  lemma GoesStep(script: Lines, w: World, n: Node, a: State)
    requires Ready(n, a)
    ensures Goes(script, w, n, a, Step(script, w, a))
  {
    hide Ready, Step;
    var b := Step(script, w, a);
    assert Steps(script, w, b, 0) == b;
    assert Steps(script, w, a, 1) == b && Steps(script, w, a, 0) == a;
    assert GoesIn(script, w, n, a, b, 1);
  }

  lemma GoesTrans(script: Lines, w: World, n: Node, a: State, b: State, c: State)
    requires Goes(script, w, n, a, b) && Goes(script, w, n, b, c)
    ensures Goes(script, w, n, a, c)
  {
    hide Ready, Steps;
    var p: nat :| GoesIn(script, w, n, a, b, p);
    var q: nat :| GoesIn(script, w, n, b, c, q);
    StepsAdd(script, w, a, p, q);
    forall k | 0 <= k < p + q
      ensures Ready(n, Steps(script, w, a, k))
    {
      if k >= p {
        StepsAdd(script, w, a, p, k - p);
      }
    }
    assert GoesIn(script, w, n, a, c, p + q);
  }

  // ---- names ----

  lemma ExpandLit(w: World, env: Env, s: string)
    ensures Expand(w, env, W(s)) == s
  {
    assert Expand(w, env, Empty) == "";
    assert s + "" == s;
  }

  lemma NicName(w: World, env: Env, i: nat, rest: string)
    requires AtNic(env, i)
    ensures Expand(w, env, NetNic(W(rest))) == "net" + Dec(i) + rest
  {
    LookupPlain(w, env, "nic", 0);
    ExpandLit(w, env, "nic");
    ExpandLit(w, env, rest);
    assert Expand(w, env, Ref(W("nic"), W(rest))) == Dec(i) + rest;
  }

  lemma PlainRef(w: World, env: Env, name: string)
    requires !DeviceLike(name) && name in env
    ensures Expand(w, env, Ref(W(name), Empty)) == env[name].Show()
  {
    LookupPlain(w, env, name, 0);
    ExpandLit(w, env, name);
  }

  lemma NicAlone(w: World, env: Env, i: nat, rest: Word)
    requires AtNic(env, i)
    ensures Expand(w, env, NetNic(rest)) == Net(i) + Expand(w, env, rest)
  {
    LookupPlain(w, env, "nic", 0);
    ExpandLit(w, env, "nic");
    assert "net" + (Dec(i) + Expand(w, env, rest)) == Net(i) + Expand(w, env, rest);
  }

  lemma VlanName(w: World, env: Env, n: Node, i: nat, rest: Word)
    requires AtNic(env, i) && VlanSet(n, env) && n.vlan != ""
    ensures Expand(w, env, EffIface(true, rest)) == Net(i) + "-" + n.vlan + Expand(w, env, rest)
  {
    LookupPlain(w, env, "vlan", 0);
    ExpandLit(w, env, "vlan");
    NicAlone(w, env, i, Lit("-", Ref(W("vlan"), rest)));
    hide Lookup, AtNic;
    var tail := Expand(w, env, rest);
    assert Expand(w, env, Ref(W("vlan"), rest)) == n.vlan + tail;
    assert Net(i) + ("-" + (n.vlan + tail)) == Net(i) + "-" + n.vlan + tail;
  }

  /** The names of the interface and of its settings. */
  lemma IfaceNames(w: World, env: Env, n: Node, i: nat, f: string)
    requires AtNic(env, i) && VlanSet(n, env)
    ensures Expand(w, env, NetNic(Empty)) == Net(i)
    ensures Expand(w, env, EffIface(n.vlan != "", Empty)) == Iface(n, i)
    ensures Expand(w, env, EffIface(n.vlan != "", W(f))) == Iface(n, i) + f
    ensures n.vlan != "" ==> Expand(w, env, Ref(W("vlan"), Empty)) == n.vlan
  {
    ExpandLit(w, env, f);
    assert Expand(w, env, Empty) == "";
    NicAlone(w, env, i, Empty);
    NicAlone(w, env, i, W(f));
    assert Net(i) + "" == Net(i);
    hide Expand, AtNic, Net;
    if n.vlan != "" {
      VlanName(w, env, n, i, Empty);
      VlanName(w, env, n, i, W(f));
      PlainRef(w, env, "vlan");
      assert Iface(n, i) + "" == Iface(n, i);
    }
  }

  // ---- running the lines ----

  /** The settings and device commands after lines that only make settings and run device commands. */
  ghost function Quieted(w: World, xs: Lines, env: Env, done: Commands): (r: (Env, Commands))
    decreases xs
  {
    match xs
    case Nil => (env, done)
    case Cons(Run(Last(Set(name, value))), tail) =>
      Quieted(w, tail, env[Expand(w, env, name) := Str(Expand(w, env, value))], done)
    case Cons(Run(OrElse(Device(verb, args), _)), tail) =>
      Quieted(w, tail, env, done + [[verb] + ExpandAll(w, env, args)])
    case Cons(_, tail) => Quieted(w, tail, env, done)
  }

  /** The settings with one more, if there is a value for it. */
  function With(env: Env, name: string, value: string): Env {
    if value == "" then env else env[name := Str(value)]
  }

  lemma IfaceLike(n: Node, i: nat, f: string)
    ensures DeviceLike(Iface(n, i) + f)
  {
  }

  lemma WithKeeps(n: Node, i: nat, f: string, value: string, env: Env)
    requires AtNic(env, i) && VlanSet(n, env)
    ensures var env' := With(env, Iface(n, i) + f, value); AtNic(env', i) && VlanSet(n, env')
  {
    IfaceLike(n, i, f);
    assert !DeviceLike("nic") && !DeviceLike("vlan");
    hide Iface;
  }

  lemma SettingRun(w: World, n: Node, i: nat, f: string, value: string, tail: Lines, env: Env, done: Commands)
    requires AtNic(env, i) && VlanSet(n, env)
    ensures Quieted(w, If(value != "", Do(Set(EffIface(n.vlan != "", W(f)), W(value))), tail), env, done) ==
            Quieted(w, tail, With(env, Iface(n, i) + f, value), done)
  {
    IfaceNames(w, env, n, i, f);
    ExpandLit(w, env, value);
    hide Expand, EffIface, Iface, AtNic, VlanSet;
  }

  lemma CommandRun(w: World, verb: string, args: seq<Word>, tail: Lines, env: Env, done: Commands)
    ensures Quieted(w, Cons(Try(Device(verb, args)), tail), env, done) ==
            Quieted(w, tail, env, done + [[verb] + ExpandAll(w, env, args)])
  {
  }

  lemma EchoRun(w: World, words: seq<Word>, tail: Lines, env: Env, done: Commands)
    ensures Quieted(w, Cons(Do(Echo(words)), tail), env, done) == Quieted(w, tail, env, done)
  {
  }

  lemma Names(n: Node, i: nat)
    ensures var p := Iface(n, i);
      && p + "/ip" != p + "/netmask" && p + "/ip" != p + "/gateway" && p + "/ip" != p + "/dns"
      && p + "/netmask" != p + "/gateway" && p + "/netmask" != p + "/dns" && p + "/gateway" != p + "/dns"
  {
    var p := Iface(n, i);
    hide Iface;
    assert (p + "/ip")[|p| + 1] == 'i' && (p + "/netmask")[|p| + 1] == 'n';
    assert (p + "/gateway")[|p| + 1] == 'g' && (p + "/dns")[|p| + 1] == 'd';
  }

  function Settings(n: Node, i: nat, env: Env): Env {
    var p := Iface(n, i);
    With(With(With(With(env, p + "/ip", n.ip), p + "/netmask", n.netmask), p + "/gateway", n.gw), p + "/dns", n.dns)
  }

  lemma SettingsConfigure(n: Node, i: nat, env: Env)
    ensures Configured(n, i, Settings(n, i, env))
  {
    Names(n, i);
    hide Iface;
  }

  /** The lines from the first setting on. */
  function SettingLines(n: Node): Lines {
    var v := n.vlan != "";
    If(n.ip != "", Do(Set(EffIface(v, W("/ip")), W(n.ip))),
    If(n.netmask != "", Do(Set(EffIface(v, W("/netmask")), W(n.netmask))),
    If(n.gw != "", Do(Set(EffIface(v, W("/gateway")), W(n.gw))),
    If(n.dns != "", Do(Set(EffIface(v, W("/dns")), W(n.dns))),
    Cons(Try(Device("ifopen", [EffIface(v, Empty)])), Nil)))))
  }

  lemma OneArg(w: World, env: Env, a: Word)
    ensures ExpandAll(w, env, [a]) == [Expand(w, env, a)]
  {
  }

  lemma OpenRun(w: World, n: Node, i: nat, env: Env, done: Commands)
    requires AtNic(env, i) && VlanSet(n, env)
    ensures Quieted(w, Cons(Try(Device("ifopen", [EffIface(n.vlan != "", Empty)])), Nil), env, done) ==
            (env, done + [["ifopen", Iface(n, i)]])
  {
    assert Quieted(w, Nil, env, done + [["ifopen", Iface(n, i)]]) == (env, done + [["ifopen", Iface(n, i)]]);
    hide Quieted, Expand, EffIface, Iface;
    IfaceNames(w, env, n, i, "");
    OneArg(w, env, EffIface(n.vlan != "", Empty));
    CommandRun(w, "ifopen", [EffIface(n.vlan != "", Empty)], Nil, env, done);
    assert ["ifopen"] + [Iface(n, i)] == ["ifopen", Iface(n, i)];
  }

  lemma SettingsRun(w: World, n: Node, i: nat, env: Env, done: Commands)
    requires AtNic(env, i) && VlanSet(n, env)
    ensures Quieted(w, SettingLines(n), env, done) == (Settings(n, i, env), done + [["ifopen", Iface(n, i)]])
  {
    hide Quieted, Iface, EffIface, AtNic, VlanSet, With;
    var v, p := n.vlan != "", Iface(n, i);
    var l5 := Cons(Try(Device("ifopen", [EffIface(v, Empty)])), Nil);
    var l4 := If(n.dns != "", Do(Set(EffIface(v, W("/dns")), W(n.dns))), l5);
    var l3 := If(n.gw != "", Do(Set(EffIface(v, W("/gateway")), W(n.gw))), l4);
    var l2 := If(n.netmask != "", Do(Set(EffIface(v, W("/netmask")), W(n.netmask))), l3);
    SettingRun(w, n, i, "/ip", n.ip, l2, env, done);
    WithKeeps(n, i, "/ip", n.ip, env);
    var e1 := With(env, p + "/ip", n.ip);
    SettingRun(w, n, i, "/netmask", n.netmask, l3, e1, done);
    WithKeeps(n, i, "/netmask", n.netmask, e1);
    var e2 := With(e1, p + "/netmask", n.netmask);
    SettingRun(w, n, i, "/gateway", n.gw, l4, e2, done);
    WithKeeps(n, i, "/gateway", n.gw, e2);
    var e3 := With(e2, p + "/gateway", n.gw);
    SettingRun(w, n, i, "/dns", n.dns, l5, e3, done);
    WithKeeps(n, i, "/dns", n.dns, e3);
    OpenRun(w, n, i, With(e3, p + "/dns", n.dns), done);
  }

  lemma VlanRun(w: World, n: Node, i: nat, tail: Lines, env: Env, done: Commands)
    requires AtNic(env, i) && VlanSet(n, env)
    ensures Quieted(w, If(n.vlan != "", Try(Device("vcreate", [W("--tag"), Ref(W("vlan"), Empty), NetNic(Empty)])), tail), env, done) ==
            Quieted(w, tail, env, done + if n.vlan == "" then [] else [["vcreate", "--tag", n.vlan, Net(i)]])
  {
    hide Quieted, Expand, NetNic, Net;
    if n.vlan == "" {
      assert done + [] == done;
    } else {
      IfaceNames(w, env, n, i, "");
      ExpandLit(w, env, "--tag");
      var args := [W("--tag"), Ref(W("vlan"), Empty), NetNic(Empty)];
      assert ExpandAll(w, env, args) == ["--tag", n.vlan, Net(i)];
      CommandRun(w, "vcreate", args, tail, env, done);
      assert ["vcreate"] + ["--tag", n.vlan, Net(i)] == ["vcreate", "--tag", n.vlan, Net(i)];
    }
  }

  lemma NetRun(w: World, verb: string, i: nat, tail: Lines, env: Env, done: Commands)
    requires AtNic(env, i)
    ensures Quieted(w, Cons(Try(Device(verb, [NetNic(Empty)])), tail), env, done) == Quieted(w, tail, env, done + [[verb, Net(i)]])
  {
    NicAlone(w, env, i, Empty);
    assert Expand(w, env, Empty) == "" && Net(i) + "" == Net(i);
    hide Quieted, Expand, NetNic, Net;
    OneArg(w, env, NetNic(Empty));
    CommandRun(w, verb, [NetNic(Empty)], tail, env, done);
    assert [verb] + [Net(i)] == [verb, Net(i)];
  }

  lemma Regroup<T>(done: seq<T>, a: T, b: T, c: seq<T>, d: seq<T>)
    ensures done + [a] + [b] + c + d == done + ([a, b] + c + d)
  {
  }

  /** Configuring: exactly the commands of Up, and the settings of the node in force. */
  lemma ConfigureEnds(w: World, n: Node, i: nat, env: Env, done: Commands)
    requires AtNic(env, i) && VlanSet(n, env)
    ensures var q := Quieted(w, Configure(n), env, done); Configured(n, i, q.0) && q.1 == done + Up(n, i)
  {
    SettingsConfigure(n, i, env);
    hide Quieted, AtNic, VlanSet, Configured, NetNic, MacRef, EffIface, Net, Iface, Settings;
    var lines := SettingLines(n);
    var vlan := If(n.vlan != "", Try(Device("vcreate", [W("--tag"), Ref(W("vlan"), Empty), NetNic(Empty)])), lines);
    var up := Cons(Try(Device("ifopen", [NetNic(Empty)])), vlan);
    var made := if n.vlan == "" then [] else [["vcreate", "--tag", n.vlan, Net(i)]];
    EchoRun(w, [W("Configuring"), NetNic(Empty), Lit("(", MacRef(W(")...")))],
            Cons(Try(Device("ifclose", [NetNic(Empty)])), up), env, done);
    NetRun(w, "ifclose", i, up, env, done);
    NetRun(w, "ifopen", i, vlan, env, done + [["ifclose", Net(i)]]);
    VlanRun(w, n, i, lines, env, done + [["ifclose", Net(i)]] + [["ifopen", Net(i)]]);
    SettingsRun(w, n, i, env, done + [["ifclose", Net(i)]] + [["ifopen", Net(i)]] + made);
    Regroup(done, ["ifclose", Net(i)], ["ifopen", Net(i)], made, [["ifopen", Iface(n, i)]]);
  }

  lemma VlanDown(w: World, n: Node, i: nat, verb: string, tail: Lines, env: Env, done: Commands)
    requires AtNic(env, i) && VlanSet(n, env) && n.vlan != ""
    ensures Quieted(w, Cons(Try(Device(verb, [EffIface(true, Empty)])), tail), env, done) ==
            Quieted(w, tail, env, done + [[verb, Net(i) + "-" + n.vlan]])
  {
    VlanName(w, env, n, i, Empty);
    assert Expand(w, env, Empty) == "";
    hide Quieted, Expand, EffIface, Net;
    var p := Net(i) + "-" + n.vlan;
    assert p + "" == p;
    OneArg(w, env, EffIface(true, Empty));
    CommandRun(w, verb, [EffIface(true, Empty)], tail, env, done);
    assert [verb] + [p] == [verb, p];
  }

  /** Cleaning up: exactly the commands of Down, and the settings stay. */
  lemma CleanupEnds(w: World, n: Node, i: nat, env: Env, done: Commands)
    requires AtNic(env, i) && VlanSet(n, env)
    ensures Quieted(w, Cleanup(n), env, done) == (env, done + Down(n, i))
  {
    var close := Cons(Try(Device("ifclose", [NetNic(Empty)])), Nil);
    assert forall d :: Quieted(w, Nil, env, d) == (env, d);
    hide Quieted, EffIface, NetNic, Net;
    if n.vlan == "" {
      NetRun(w, "ifclose", i, Nil, env, done);
      assert [] + [["ifclose", Net(i)]] == [["ifclose", Net(i)]];
    } else {
      var p := Net(i) + "-" + n.vlan;
      var destroy := Cons(Try(Device("vdestroy", [EffIface(true, Empty)])), close);
      VlanDown(w, n, i, "ifclose", destroy, env, done);
      VlanDown(w, n, i, "vdestroy", close, env, done + [["ifclose", p]]);
      NetRun(w, "ifclose", i, Nil, env, done + [["ifclose", p]] + [["vdestroy", p]]);
      Regroup(done, ["ifclose", p], ["vdestroy", p], [["ifclose", Net(i)]], []);
      assert [["ifclose", p], ["vdestroy", p]] + [["ifclose", Net(i)]] + [] == Down(n, i);
      var all := done + [["ifclose", p]] + [["vdestroy", p]] + [["ifclose", Net(i)]];
      assert all + [] == all;
    }
  }
}
