/** What one pass of a node's boot script does, for every node and every set of devices. */
module IpxePass {
  import opened Text
  import opened Nodes
  import opened IpxeLang
  import opened IpxeScript
  import opened IpxeSetup

  // ---- labels ----

  predicate LabelFree(xs: Lines) {
    match xs
    case Nil => true
    case Cons(l, tail) => !l.Label? && LabelFree(tail)
  }

  lemma {:induction false} AfterAppend(xs: Lines, ys: Lines, name: string)
    requires !HasLabel(xs, name)
    ensures After(Append(xs, ys), name) == After(ys, name)
    ensures HasLabel(Append(xs, ys), name) == HasLabel(ys, name)
  {
    match xs
    case Nil =>
    case Cons(_, tail) => AfterAppend(tail, ys, name);
  }

  lemma {:induction false} NoLabel(xs: Lines, name: string)
    requires LabelFree(xs)
    ensures !HasLabel(xs, name)
  {
    match xs
    case Nil =>
    case Cons(_, tail) => NoLabel(tail, name);
  }

  lemma {:induction false} LabelFreeAppend(xs: Lines, ys: Lines)
    ensures LabelFree(Append(xs, ys)) <==> LabelFree(xs) && LabelFree(ys)
  {
    match xs
    case Nil =>
    case Cons(_, tail) => LabelFreeAppend(tail, ys);
  }

  lemma {:induction false} PciLinesLabelFree(members: seq<string>, fmt: string -> string, i: nat)
    requires i <= |members|
    ensures LabelFree(PciSets(members, fmt, i)) && LabelFree(PciTests(members, i))
    decreases |members| - i
  {
    if i < |members| {
      PciLinesLabelFree(members, fmt, i + 1);
    }
  }

  /** Skipping lines without labels. */
  lemma SkipTo(xs: Lines, ys: Lines, name: string)
    requires LabelFree(xs)
    ensures After(Append(xs, ys), name) == After(ys, name)
    ensures HasLabel(Append(xs, ys), name) == HasLabel(ys, name)
  {
    NoLabel(xs, name);
    AfterAppend(xs, ys, name);
  }

  lemma PrologueLabelFree(n: Node, mac: string, fmt: string -> string)
    ensures LabelFree(Prologue(n, mac, fmt))
  {
    PciLinesLabelFree(n.bondMembers, fmt, 0);
    LabelFreeAppend(PciSets(n.bondMembers, fmt, 0),
                    If(!HasPci(n) && mac != "", Do(Set(W("target_mac"), W(ToLower(mac)))), Nil));
  }

  lemma Pass(l: Line, tail: Lines, name: string)
    requires l != Label(name)
    ensures After(Cons(l, tail), name) == After(tail, name)
    ensures HasLabel(Cons(l, tail), name) == HasLabel(tail, name)
  {
  }

  lemma Land(tail: Lines, name: string)
    ensures After(Cons(Label(name), tail), name) == tail && HasLabel(Cons(Label(name), tail), name)
  {
  }

  /** A jump past the head of the loop ends up wherever it does in the rest of the loop. */
  lemma PastHead(n: Node, mac: string, base: string, name: string)
    requires name != "top" && name != "loop"
    ensures After(Cons(Label("top"), Top(n, mac, base)), name) == After(Append(Tests(n, mac), Body(n, mac, base)), name)
    ensures HasLabel(Cons(Label("top"), Top(n, mac, base)), name) == HasLabel(Append(Tests(n, mac), Body(n, mac, base)), name)
  {
    var loop := Loop(n, mac, base);
    Pass(Label("top"), Top(n, mac, base), name);
    Pass(Do(SetInt("nic", 0)), Cons(Label("loop"), loop), name);
    Pass(Label("loop"), loop, name);
    Pass(loop.head, loop.tail, name);
    Pass(loop.tail.head, loop.tail.tail, name);
  }

  lemma NextTargets()
    ensures After(NEXT, "endpass") == ENDPASS && HasLabel(NEXT, "endpass")
    ensures After(NEXT, "os_done") == Cons(Do(Exit(0)), Nil) && HasLabel(NEXT, "os_done")
  {
    Pass(NEXT.head, NEXT.tail, "endpass");
    Land(ENDPASS, "endpass");
    Pass(NEXT.head, NEXT.tail, "os_done");
    Pass(Label("endpass"), ENDPASS, "os_done");
    Pass(ENDPASS.head, ENDPASS.tail, "os_done");
    Pass(ENDPASS.tail.head, ENDPASS.tail.tail, "os_done");
    Pass(ENDPASS.tail.tail.head, ENDPASS.tail.tail.tail, "os_done");
    Land(Cons(Do(Exit(0)), Nil), "os_done");
  }

  lemma AtNextTargets(n: Node, mac: string)
    ensures After(AtNext(n, mac), "endpass") == ENDPASS && HasLabel(AtNext(n, mac), "endpass")
    ensures After(AtNext(n, mac), "os_done") == Cons(Do(Exit(0)), Nil) && HasLabel(AtNext(n, mac), "os_done")
    ensures HasPci(n) || mac != "" ==> After(AtNext(n, mac), "next") == NEXT && HasLabel(AtNext(n, mac), "next")
  {
    NextTargets();
    if HasPci(n) || mac != "" {
      Land(NEXT, "next");
      Pass(Label("next"), NEXT, "endpass");
      Pass(Label("next"), NEXT, "os_done");
    }
  }

  /** The script from label top on. */
  ghost predicate LeadsTo(script: Lines, name: string, there: Lines) {
    HasLabel(script, name) && After(script, name) == there
  }

  lemma TargetIn(n: Node, mac: string, base: string, fmt: string -> string, name: string, there: Lines)
    requires LeadsTo(Cons(Label("top"), Top(n, mac, base)), name, there)
    ensures LeadsTo(Script(n, mac, base, fmt), name, there)
  {
    PrologueLabelFree(n, mac, fmt);
    SkipTo(Prologue(n, mac, fmt), Cons(Label("top"), Top(n, mac, base)), name);
  }

  lemma BodyTargetIn(n: Node, mac: string, base: string, fmt: string -> string, name: string, there: Lines)
    requires name !in {"top", "loop", "hit"} && LeadsTo(AtNext(n, mac), name, there)
    ensures LeadsTo(Script(n, mac, base, fmt), name, there)
  {
    BodyTargets(n, mac, base, name);
    TestsTargets(n, mac, Body(n, mac, base), name);
    PastHead(n, mac, base, name);
    TargetIn(n, mac, base, fmt, name, there);
  }

  /** Where each jump of the script leads. */
  lemma Targets(n: Node, mac: string, base: string, fmt: string -> string)
    ensures var s := Script(n, mac, base, fmt);
      && LeadsTo(s, "top", Top(n, mac, base)) && LeadsTo(s, "loop", Loop(n, mac, base))
      && LeadsTo(s, "endpass", ENDPASS) && LeadsTo(s, "os_done", Cons(Do(Exit(0)), Nil))
    ensures HasPci(n) || mac != "" ==>
      var s := Script(n, mac, base, fmt); LeadsTo(s, "hit", Body(n, mac, base)) && LeadsTo(s, "next", NEXT)
  {
    hide Script, Body, Tests, HasPci;
    Land(Top(n, mac, base), "top");
    TargetIn(n, mac, base, fmt, "top", Top(n, mac, base));
    Pass(Label("top"), Top(n, mac, base), "loop");
    Pass(Do(SetInt("nic", 0)), Cons(Label("loop"), Loop(n, mac, base)), "loop");
    Land(Loop(n, mac, base), "loop");
    TargetIn(n, mac, base, fmt, "loop", Loop(n, mac, base));
    AtNextTargets(n, mac);
    hide AtNext;
    BodyTargetIn(n, mac, base, fmt, "endpass", ENDPASS);
    BodyTargetIn(n, mac, base, fmt, "os_done", Cons(Do(Exit(0)), Nil));
    if HasPci(n) || mac != "" {
      BodyTargetIn(n, mac, base, fmt, "next", NEXT);
      HitTarget(n, mac, Body(n, mac, base));
      PastHead(n, mac, base, "hit");
      TargetIn(n, mac, base, fmt, "hit", Body(n, mac, base));
    }
  }

  lemma BodyTargets(n: Node, mac: string, base: string, name: string)
    ensures After(Body(n, mac, base), name) == After(AtNext(n, mac), name)
    ensures HasLabel(Body(n, mac, base), name) == HasLabel(AtNext(n, mac), name)
  {
    ConfigureQuiet(n);
    QuietLabelFree(Configure(n));
    QuietLabelFree(Cleanup(n));
    SkipTo(Cleanup(n), AtNext(n, mac), name);
    SkipTo(Configure(n), Cons(Branch(Chain(ChainUrl(base)), "os_done"), AfterChain(n, mac)), name);
  }

  lemma TestsTargets(n: Node, mac: string, body: Lines, name: string)
    requires name != "hit"
    ensures After(Append(Tests(n, mac), body), name) == After(body, name)
    ensures HasLabel(Append(Tests(n, mac), body), name) == HasLabel(body, name)
  {
    PciLinesLabelFree(n.bondMembers, s => s, 0);
    var end := Cons(Do(Goto("next")), Cons(Label("hit"), Nil));
    assert !HasLabel(end.tail, name);
    Pass(end.head, end.tail, name);
    if HasPci(n) {
      SkipTo(PciTests(n.bondMembers, 0), end, name);
    } else if mac != "" {
      Pass(Tests(n, mac).head, end, name);
    }
    AfterAppend(Tests(n, mac), body, name);
  }

  lemma HitTarget(n: Node, mac: string, body: Lines)
    requires HasPci(n) || mac != ""
    ensures After(Append(Tests(n, mac), body), "hit") == body && HasLabel(Append(Tests(n, mac), body), "hit")
  {
    PciLinesLabelFree(n.bondMembers, s => s, 0);
    var end := Cons(Do(Goto("next")), Cons(Label("hit"), Nil));
    assert Append(end, body) == Cons(Do(Goto("next")), Append(end.tail, body));
    assert Append(end.tail, body) == Cons(Label("hit"), body);
    Land(body, "hit");
    Pass(Do(Goto("next")), Cons(Label("hit"), body), "hit");
    if HasPci(n) {
      AppendAssoc(PciTests(n.bondMembers, 0), end, body);
      SkipTo(PciTests(n.bondMembers, 0), Append(end, body), "hit");
    } else {
      Pass(Tests(n, mac).head, Append(end, body), "hit");
    }
  }

  lemma {:induction false} AppendAssoc(xs: Lines, ys: Lines, zs: Lines)
    ensures Append(Append(xs, ys), zs) == Append(xs, Append(ys, zs))
  {
    match xs
    case Nil =>
    case Cons(_, tail) => AppendAssoc(tail, ys, zs);
  }

  // ---- lines that only touch the interface ----

  const FIELDS: set<string> := {"/ip", "/netmask", "/gateway", "/dns"}

  ghost predicate QuietLine(l: Line) {
    match l
    case Run(Last(Echo(_))) => true
    case Run(Last(Set(name, _))) => exists v: bool, f: string :: f in FIELDS && name == EffIface(v, W(f))
    case Run(OrElse(Device(_, _), Last(Nop))) => true
    case _ => false
  }

  ghost predicate Quiet(xs: Lines) {
    match xs
    case Nil => true
    case Cons(l, tail) => QuietLine(l) && Quiet(tail)
  }

  lemma {:induction false} QuietLabelFree(xs: Lines)
    requires Quiet(xs)
    ensures LabelFree(xs)
  {
    match xs
    case Nil =>
    case Cons(_, tail) => QuietLabelFree(tail);
  }

  lemma QuietIf(b: bool, l: Line, tail: Lines)
    requires QuietLine(l) && Quiet(tail)
    ensures Quiet(If(b, l, tail)) && Quiet(Cons(l, tail))
  {
    hide QuietLine;
  }

  lemma ConfigureQuiet(n: Node)
    ensures Quiet(Configure(n)) && Quiet(Cleanup(n))
  {
    var v := n.vlan != "";
    var xs := Cons(Try(Device("ifopen", [EffIface(v, Empty)])), Nil);
    QuietIf(true, xs.head, Nil);
    SetQuiet(v, "/ip", n.ip);
    SetQuiet(v, "/netmask", n.netmask);
    SetQuiet(v, "/gateway", n.gw);
    SetQuiet(v, "/dns", n.dns);
    hide EffIface, Quiet;
    QuietIf(n.dns != "", Do(Set(EffIface(v, W("/dns")), W(n.dns))), xs);
    xs := If(n.dns != "", Do(Set(EffIface(v, W("/dns")), W(n.dns))), xs);
    QuietIf(n.gw != "", Do(Set(EffIface(v, W("/gateway")), W(n.gw))), xs);
    xs := If(n.gw != "", Do(Set(EffIface(v, W("/gateway")), W(n.gw))), xs);
    QuietIf(n.netmask != "", Do(Set(EffIface(v, W("/netmask")), W(n.netmask))), xs);
    xs := If(n.netmask != "", Do(Set(EffIface(v, W("/netmask")), W(n.netmask))), xs);
    QuietIf(n.ip != "", Do(Set(EffIface(v, W("/ip")), W(n.ip))), xs);
    xs := If(n.ip != "", Do(Set(EffIface(v, W("/ip")), W(n.ip))), xs);
    var create := Try(Device("vcreate", [W("--tag"), Ref(W("vlan"), Empty), NetNic(Empty)]));
    QuietIf(v, create, xs);
    xs := If(v, create, xs);
    ConfigureHeadQuiet(n, xs);
    CleanupQuiet(n);
  }

  lemma ConfigureHeadQuiet(n: Node, xs: Lines)
    requires Quiet(xs)
    ensures Quiet(Cons(Do(Echo([W("Configuring"), NetNic(Empty), Lit("(", MacRef(W(")...")))])),
                  Cons(Try(Device("ifclose", [NetNic(Empty)])), Cons(Try(Device("ifopen", [NetNic(Empty)])), xs))))
  {
    var up := Cons(Try(Device("ifopen", [NetNic(Empty)])), xs);
    var down := Cons(Try(Device("ifclose", [NetNic(Empty)])), up);
    assert Quiet(up) && Quiet(down);
  }

  lemma CleanupQuiet(n: Node)
    ensures Quiet(Cleanup(n))
  {
    var xs := Cons(Try(Device("ifclose", [NetNic(Empty)])), Nil);
    var destroy := Try(Device("vdestroy", [EffIface(true, Empty)]));
    QuietIf(true, xs.head, Nil);
    QuietIf(n.vlan != "", destroy, xs);
    QuietIf(n.vlan != "", Try(Device("ifclose", [EffIface(true, Empty)])), If(n.vlan != "", destroy, xs));
  }

  lemma SetQuiet(v: bool, f: string, value: string)
    requires f in FIELDS
    ensures QuietLine(Do(Set(EffIface(v, W(f)), W(value))))
  {
    hide EffIface;
  }

  /** env' has the same settings as env apart from interface settings, and no device address among them. */
  ghost predicate SameSettings(env: Env, env': Env) {
    && (forall k: string :: !DeviceLike(k) ==> (k in env <==> k in env'))
    && (forall k: string :: !DeviceLike(k) && k in env ==> env'[k] == env[k])
    && ((forall j: nat :: MacName(j) !in env) ==> (forall j: nat :: MacName(j) !in env'))
  }

  lemma IfaceName(w: World, env: Env, v: bool, f: string)
    requires f in FIELDS
    ensures var name := Expand(w, env, EffIface(v, W(f)));
      |name| >= 3 && DeviceLike(name) && name[|name| - 1] == f[|f| - 1] && f[|f| - 1] != 'c'
  {
  }

  lemma TryLine(script: Lines, w: World, c: Cmd, st: State)
    requires st.Running? && st.rest.Cons? && st.rest.head == Try(c) && c.Device?
    ensures Step(script, w, st) ==
            st.(rest := st.rest.tail, done := st.done + [[c.verb] + ExpandAll(w, st.env, c.args)])
  {
    var (ok, after) := RunCmd(script, w, c, st.(rest := st.rest.tail));
    assert RunClauses(script, w, Last(Nop), ok, ok, after) == after;
  }

  lemma QuietStep(script: Lines, w: World, st: State) returns (env': Env, done': Commands)
    requires st.Running? && st.rest.Cons? && QuietLine(st.rest.head)
    ensures Step(script, w, st) == Running(st.rest.tail, env', done', st.tried) && !AtChain(st)
    ensures SameSettings(st.env, env')
    ensures forall tail :: Quieted(w, Cons(st.rest.head, tail), st.env, st.done) == Quieted(w, tail, env', done')
  {
    match st.rest.head
    case Run(Last(Echo(_))) =>
      env', done' := st.env, st.done;
    case Run(OrElse(Device(verb, args), Last(Nop))) =>
      env', done' := st.env, st.done + [[verb] + ExpandAll(w, st.env, args)];
      TryLine(script, w, st.rest.head.clauses.cmd, st);
    case Run(Last(Set(name, value))) =>
      var v: bool, f: string :| f in FIELDS && name == EffIface(v, W(f));
      var key := Expand(w, st.env, name);
      IfaceName(w, st.env, v, f);
      env', done' := st.env[key := Str(Expand(w, st.env, value))], st.done;
      forall j: nat
        ensures key != MacName(j)
      {
        assert MacName(j)[|MacName(j)| - 1] == 'c';
      }
  }

  /** A stretch of quiet lines runs through, and changes nothing that matters to the loop. */
  lemma {:induction false} QuietRun(script: Lines, w: World, n: Node, xs: Lines, ys: Lines, env: Env, done: Commands,
                                    tried: seq<string>)
    requires Quiet(xs)
    ensures var (env', done') := Quieted(w, xs, env, done);
      && Goes(script, w, n, Running(Append(xs, ys), env, done, tried), Running(ys, env', done', tried))
      && SameSettings(env, env')
    decreases xs
  {
    var st := Running(Append(xs, ys), env, done, tried);
    match xs
    case Nil =>
      GoesRefl(script, w, n, st);
    case Cons(_, tail) =>
      var env1, done1 := QuietStep(script, w, st);
      QuietRun(script, w, n, tail, ys, env1, done1, tried);
      GoesStep(script, w, n, st);
      var (env', done') := Quieted(w, xs, env, done);
      hide Goes, Quieted;
      GoesTrans(script, w, n, st, Step(script, w, st), Running(ys, env', done', tried));
  }

  // ---- the specification ----

  /** The devices a script is meant for: those at one of the node's PCI addresses; without
      PCI members, those with the node's MAC; without a MAC either, all. */
  ghost predicate Selected(n: Node, mac: string, fmt: string -> string, nic: Nic) {
    if HasPci(n) then
      exists i :: 0 <= i < |n.bondMembers| && IsPciAddr(n.bondMembers[i]) && fmt(n.bondMembers[i]) == nic.bus
    else mac == "" || nic.mac == ToLower(mac)
  }

  function Url(base: string, nic: Nic): string { base + "/ipxe.cfg-" + nic.mac }

  /** The addresses of the selected devices from index i on, in index order. */
  ghost function Urls(n: Node, mac: string, base: string, fmt: string -> string, nics: seq<Nic>, i: nat): seq<string>
    requires i <= |nics|
    decreases |nics| - i
  {
    if i == |nics| then []
    else if Selected(n, mac, fmt, nics[i]) then [Url(base, nics[i])] + Urls(n, mac, base, fmt, nics, i + 1)
    else Urls(n, mac, base, fmt, nics, i + 1)
  }

  /** The settings made before the loop are in force. */
  ghost predicate Prepared(n: Node, mac: string, fmt: string -> string, env: Env) {
    && (HasPci(n) ==> forall i :: 0 <= i < |n.bondMembers| && IsPciAddr(n.bondMembers[i]) ==>
          PciKey(i) in env && env[PciKey(i)] == Str(fmt(n.bondMembers[i])))
    && (!HasPci(n) && mac != "" ==> "target_mac" in env && env["target_mac"] == Str(ToLower(mac)))
    && (forall j: nat :: MacName(j) !in env)
    && VlanSet(n, env)
  }

  lemma PreparedKept(n: Node, mac: string, fmt: string -> string, env: Env, env': Env)
    requires Prepared(n, mac, fmt, env) && SameSettings(env, env')
    ensures Prepared(n, mac, fmt, env')
  {
    assert !DeviceLike("target_mac") && !DeviceLike("vlan");
    forall i: nat
      ensures !DeviceLike(PciKey(i))
    {
      assert PciKey(i)[0] == 'p';
    }
  }

  // ---- one line at a time ----

  lemma DeviceRefs(w: World, env: Env, i: nat)
    requires AtNic(env, i) && i < |w.nics|
    ensures Expand(w, env, MacRef(Empty)) == w.nics[i].mac
    ensures Expand(w, env, BusRef(Empty)) == w.nics[i].bus
  {
    NicName(w, env, i, "/mac");
    NicName(w, env, i, "/busloc:busdevfn");
    LookupDevice(w, env, i, 0);
    assert Expand(w, env, Empty) == "";
  }

  lemma NoDevice(w: World, env: Env, i: nat)
    requires AtNic(env, i) && i >= |w.nics| && MacName(i) !in env
    ensures Expand(w, env, MacRef(Empty)) == ""
  {
    NicName(w, env, i, "/mac");
    LookupPastEnd(w, env, i, 0);
  }

  /** c && goto l || for a command that only compares. */
  lemma BranchLine(script: Lines, w: World, c: Cmd, l: string, there: Lines, st: State)
    requires st.Running? && st.rest.Cons? && st.rest.head == Branch(c, l) && c.Iseq? && LeadsTo(script, l, there)
    ensures Step(script, w, st) ==
            st.(rest := if Expand(w, st.env, c.left) == Expand(w, st.env, c.right) then there else st.rest.tail)
  {
    var on := st.(rest := st.rest.tail);
    var (ok, _) := RunCmd(script, w, c, on);
    var more := OrElse(Goto(l), Last(Nop));
    if ok {
      assert RunClauses(script, w, more, false, true, on) == on.(rest := there);
    } else {
      assert RunClauses(script, w, Last(Nop), false, false, on) == on;
      assert RunClauses(script, w, more, true, false, on) == on;
    }
  }

  lemma ChainLine(script: Lines, w: World, u: Word, there: Lines, st: State)
    requires st.Running? && st.rest.Cons? && st.rest.head == Branch(Chain(u), "os_done")
    requires LeadsTo(script, "os_done", there)
    ensures var url := Expand(w, st.env, u);
      Step(script, w, st) ==
      Running(if w.reach(|st.tried|, url) then there else st.rest.tail, st.env, st.done, st.tried + [url])
  {
    var url := Expand(w, st.env, u);
    var on := Running(st.rest.tail, st.env, st.done, st.tried + [url]);
    var more := OrElse(Goto("os_done"), Last(Nop));
    if w.reach(|st.tried|, url) {
      assert RunClauses(script, w, more, false, true, on) == on.(rest := there);
    } else {
      assert RunClauses(script, w, Last(Nop), false, false, on) == on;
      assert RunClauses(script, w, more, true, false, on) == on;
    }
  }

  lemma GotoLine(script: Lines, w: World, l: string, there: Lines, st: State)
    requires st.Running? && st.rest.Cons? && st.rest.head == Do(Goto(l)) && LeadsTo(script, l, there)
    ensures Step(script, w, st) == st.(rest := there)
  {
  }

  lemma GuardLine(script: Lines, w: World, there: Lines, st: State)
    requires st.Running? && st.rest.Cons? && st.rest.head == Run(OrElse(Isset(MacRef(Empty)), Last(Goto("endpass"))))
    requires LeadsTo(script, "endpass", there)
    ensures Step(script, w, st) == st.(rest := if Expand(w, st.env, MacRef(Empty)) == "" then there else st.rest.tail)
  {
    var on := st.(rest := st.rest.tail);
    assert RunClauses(script, w, Last(Goto("endpass")), false, false, on) == on.(rest := there);
  }

  lemma NextLine(script: Lines, w: World, there: Lines, st: State, i: nat)
    requires st.Running? && st.rest == NEXT && AtNic(st.env, i) && LeadsTo(script, "loop", there)
    ensures Step(script, w, st) == Running(there, st.env["nic" := Num(i + 1)], st.done, st.tried)
  {
    var on := Running(NEXT.tail, st.env["nic" := Num(i + 1)], st.done, st.tried);
    assert RunClauses(script, w, Last(Goto("loop")), false, true, on) == on.(rest := there);
  }

  // ---- matching ----

  ghost predicate MatchFrom(n: Node, fmt: string -> string, bus: string, j: nat) {
    exists i :: j <= i < |n.bondMembers| && IsPciAddr(n.bondMembers[i]) && fmt(n.bondMembers[i]) == bus
  }

  /** The comparisons jump to hit exactly if one of the PCI addresses is the device's. */
  lemma {:induction false} PciRun(script: Lines, w: World, n: Node, mac: string, fmt: string -> string,
                                  j: nat, i: nat, hit: Lines, tail: Lines, st: State)
    requires st.Running? && HasPci(n) && j <= |n.bondMembers| && st.rest == Append(PciTests(n.bondMembers, j), tail)
    requires Prepared(n, mac, fmt, st.env) && AtNic(st.env, i) && i < |w.nics| && LeadsTo(script, "hit", hit)
    ensures Goes(script, w, n, st, st.(rest := if MatchFrom(n, fmt, w.nics[i].bus, j) then hit else tail))
    decreases |n.bondMembers| - j
  {
    var bus := w.nics[i].bus;
    if j == |n.bondMembers| {
      GoesRefl(script, w, n, st);
    } else if !IsPciAddr(n.bondMembers[j]) {
      PciRun(script, w, n, mac, fmt, j + 1, i, hit, tail, st);
      MatchSkip(n, fmt, bus, j);
    } else {
      PciLine(script, w, n, mac, fmt, j, i, hit, tail, st);
      GoesStep(script, w, n, st);
      MatchSkip(n, fmt, bus, j);
      if fmt(n.bondMembers[j]) != bus {
        var on := Step(script, w, st);
        PciRun(script, w, n, mac, fmt, j + 1, i, hit, tail, on);
        GoesTrans(script, w, n, st, on, on.(rest := if MatchFrom(n, fmt, bus, j + 1) then hit else tail));
      }
    }
  }

  lemma MatchSkip(n: Node, fmt: string -> string, bus: string, j: nat)
    requires j < |n.bondMembers|
    ensures MatchFrom(n, fmt, bus, j) ==
            ((IsPciAddr(n.bondMembers[j]) && fmt(n.bondMembers[j]) == bus) || MatchFrom(n, fmt, bus, j + 1))
  {
  }

  lemma PciLine(script: Lines, w: World, n: Node, mac: string, fmt: string -> string,
                j: nat, i: nat, hit: Lines, tail: Lines, st: State)
    requires st.Running? && HasPci(n) && j < |n.bondMembers| && st.rest == Append(PciTests(n.bondMembers, j), tail)
    requires IsPciAddr(n.bondMembers[j])
    requires Prepared(n, mac, fmt, st.env) && AtNic(st.env, i) && i < |w.nics| && LeadsTo(script, "hit", hit)
    ensures Step(script, w, st) ==
            st.(rest := if fmt(n.bondMembers[j]) == w.nics[i].bus then hit
                        else Append(PciTests(n.bondMembers, j + 1), tail))
  {
    var c := Iseq(BusRef(Empty), Ref(W(PciKey(j)), Empty));
    DeviceRefs(w, st.env, i);
    assert PciKey(j)[0] == 'p';
    PlainRef(w, st.env, PciKey(j));
    assert PciTests(n.bondMembers, j) == Cons(Branch(c, "hit"), PciTests(n.bondMembers, j + 1));
    hide PciKey;
    BranchLine(script, w, c, "hit", hit, st);
  }

  /** The tests lead to the body for selected devices and to next for all others. */
  lemma TestsRun(script: Lines, w: World, n: Node, mac: string, base: string, fmt: string -> string, i: nat, st: State)
    requires script == Script(n, mac, base, fmt) && i < |w.nics|
    requires st.Running? && st.rest == Append(Tests(n, mac), Body(n, mac, base))
    requires Prepared(n, mac, fmt, st.env) && AtNic(st.env, i)
    ensures Goes(script, w, n, st,
      st.(rest := if Selected(n, mac, fmt, w.nics[i]) then Body(n, mac, base) else NEXT))
  {
    Targets(n, mac, base, fmt);
    var body := Body(n, mac, base);
    var end := Cons(Do(Goto("next")), Cons(Label("hit"), Nil));
    hide Script, Body, Prepared, AtNic, LeadsTo;
    if HasPci(n) {
      AppendAssoc(PciTests(n.bondMembers, 0), end, body);
      PciRun(script, w, n, mac, fmt, 0, i, body, Append(end, body), st);
      assert Selected(n, mac, fmt, w.nics[i]) == MatchFrom(n, fmt, w.nics[i].bus, 0);
      if !MatchFrom(n, fmt, w.nics[i].bus, 0) {
        NoMatch(script, w, n, end, body, st);
      }
    } else if mac == "" {
      GoesRefl(script, w, n, st);
    } else {
      MacTest(script, w, n, mac, base, fmt, i, st);
    }
  }

  /** Falling off the comparisons leads to next. */
  lemma NoMatch(script: Lines, w: World, n: Node, end: Lines, body: Lines, st: State)
    requires end == Cons(Do(Goto("next")), Cons(Label("hit"), Nil)) && st.Running?
    requires LeadsTo(script, "next", NEXT) && Goes(script, w, n, st, st.(rest := Append(end, body)))
    ensures Goes(script, w, n, st, st.(rest := NEXT))
  {
    var on := st.(rest := Append(end, body));
    assert on.rest.head == Do(Goto("next"));
    GotoLine(script, w, "next", NEXT, on);
    GoesStep(script, w, n, on);
    GoesTrans(script, w, n, st, on, st.(rest := NEXT));
  }

  lemma MacTest(script: Lines, w: World, n: Node, mac: string, base: string, fmt: string -> string, i: nat, st: State)
    requires LeadsTo(script, "hit", Body(n, mac, base)) && LeadsTo(script, "next", NEXT) && i < |w.nics|
    requires !HasPci(n) && mac != "" && st.Running? && st.rest == Append(Tests(n, mac), Body(n, mac, base))
    requires Prepared(n, mac, fmt, st.env) && AtNic(st.env, i)
    ensures Goes(script, w, n, st,
      st.(rest := if Selected(n, mac, fmt, w.nics[i]) then Body(n, mac, base) else NEXT))
  {
    var body := Body(n, mac, base);
    var end := Cons(Do(Goto("next")), Cons(Label("hit"), Nil));
    var c := Iseq(MacRef(Empty), Ref(W("target_mac"), Empty));
    DeviceRefs(w, st.env, i);
    PlainRef(w, st.env, "target_mac");
    hide Body, LeadsTo;
    assert st.rest == Cons(Branch(c, "hit"), Append(end, body));
    BranchLine(script, w, c, "hit", body, st);
    GoesStep(script, w, n, st);
    if !Selected(n, mac, fmt, w.nics[i]) {
      NoMatch(script, w, n, end, body, st);
    }
  }

  // ---- one device ----

  lemma AtNicKept(env: Env, env': Env, i: nat)
    requires AtNic(env, i) && SameSettings(env, env')
    ensures AtNic(env', i)
  {
    assert !DeviceLike("nic");
  }

  lemma ChainUrlIs(w: World, env: Env, base: string, i: nat)
    requires AtNic(env, i) && i < |w.nics|
    ensures Expand(w, env, ChainUrl(base)) == Url(base, w.nics[i])
  {
    DeviceRefs(w, env, i);
  }

  /** Quiet lines keep what the loop relies on. */
  lemma QuietKeeps(script: Lines, w: World, n: Node, mac: string, fmt: string -> string, xs: Lines, ys: Lines,
                   i: nat, st: State) returns (on: State)
    requires Quiet(xs) && st.Running? && st.rest == Append(xs, ys)
    requires Prepared(n, mac, fmt, st.env) && AtNic(st.env, i)
    ensures Goes(script, w, n, st, on) && on.Running? && on.rest == ys && on.tried == st.tried
    ensures (on.env, on.done) == Quieted(w, xs, st.env, st.done)
    ensures Prepared(n, mac, fmt, on.env) && AtNic(on.env, i)
  {
    var (env', done') := Quieted(w, xs, st.env, st.done);
    QuietRun(script, w, n, xs, ys, st.env, st.done, st.tried);
    PreparedKept(n, mac, fmt, st.env, env');
    AtNicKept(st.env, env', i);
    on := Running(ys, env', done', st.tried);
  }

  /** A successful chain ends the script. */
  lemma HandOver(script: Lines, w: World, n: Node, st: State)
    requires st.Running? && st.rest == Cons(Do(Exit(0)), Nil)
    ensures Goes(script, w, n, st, Exited(st.tried))
  {
    assert Step(script, w, st) == Exited(st.tried);
    GoesStep(script, w, n, st);
  }

  ghost predicate AfterBody(script: Lines, w: World, n: Node, mac: string, fmt: string -> string, i: nat,
                            url: string, st: State, r: State)
    requires st.Running?
  {
    && Goes(script, w, n, st, r)
    && if w.reach(|st.tried|, url) then r == Exited(st.tried + [url])
       else
         && r.Running? && r.rest == NEXT && r.tried == st.tried + [url] && r.done == st.done + Up(n, i) + Down(n, i)
         && Prepared(n, mac, fmt, r.env) && AtNic(r.env, i)
  }

  lemma PreparedVlan(n: Node, mac: string, fmt: string -> string, env: Env)
    requires Prepared(n, mac, fmt, env)
    ensures VlanSet(n, env)
  {
  }

  lemma ReadyNow(n: Node, i: nat, before: Commands, st: State)
    requires st.Running? && AtNic(st.env, i) && Configured(n, i, st.env) && st.done == before + Up(n, i)
    ensures Ready(n, st)
  {
    hide Configured, AtNic, Up;
    assert EndsWith(st.done, Up(n, i));
    assert ReadyOn(n, i, st);
  }

  /** Configuring a device leads to the attempt, with everything in place for it. */
  lemma ConfigureRun(script: Lines, w: World, n: Node, mac: string, base: string, fmt: string -> string, i: nat, st: State)
    returns (at: State)
    requires st.Running? && st.rest == Body(n, mac, base) && Prepared(n, mac, fmt, st.env) && AtNic(st.env, i)
    ensures Goes(script, w, n, st, at) && at.Running? && at.tried == st.tried && at.done == st.done + Up(n, i)
    ensures at.rest == Cons(Branch(Chain(ChainUrl(base)), "os_done"), AfterChain(n, mac))
    ensures Prepared(n, mac, fmt, at.env) && AtNic(at.env, i) && Configured(n, i, at.env) && Ready(n, at)
  {
    ConfigureQuiet(n);
    PreparedVlan(n, mac, fmt, st.env);
    hide Configure, AfterChain, ChainUrl, Prepared, AtNic, VlanSet, Configured, Quiet, Quieted, Goes, Up, Ready;
    var chain := Cons(Branch(Chain(ChainUrl(base)), "os_done"), AfterChain(n, mac));
    at := QuietKeeps(script, w, n, mac, fmt, Configure(n), chain, i, st);
    ConfigureEnds(w, n, i, st.env, st.done);
    ReadyNow(n, i, st.done, at);
  }

  /** On a selected device the body makes one chain attempt, and then either hands over
      or goes on to the next device. */
  lemma BodyRun(script: Lines, w: World, n: Node, mac: string, base: string, fmt: string -> string, i: nat, st: State)
    returns (r: State)
    requires script == Script(n, mac, base, fmt) && i < |w.nics| && st.Running? && st.rest == Body(n, mac, base)
    requires Prepared(n, mac, fmt, st.env) && AtNic(st.env, i)
    ensures AfterBody(script, w, n, mac, fmt, i, Url(base, w.nics[i]), st, r)
  {
    Targets(n, mac, base, fmt);
    hide Script, Body, Cleanup, AfterChain, ChainUrl, Url, Prepared, AtNic, Configured, LeadsTo, Expand, Step, Goes, Up, Down, Ready;
    var url := Url(base, w.nics[i]);
    var at := ConfigureRun(script, w, n, mac, base, fmt, i, st);
    ChainUrlIs(w, at.env, base, i);
    ChainLine(script, w, ChainUrl(base), Cons(Do(Exit(0)), Nil), at);
    var on := Step(script, w, at);
    GoesStep(script, w, n, at);
    GoesTrans(script, w, n, st, at, on);
    if w.reach(|st.tried|, url) {
      HandOver(script, w, n, on);
      r := Exited(on.tried);
    } else {
      r := CleanupRun(script, w, n, mac, fmt, i, on);
    }
    GoesTrans(script, w, n, st, on, r);
  }

  lemma CleanupRun(script: Lines, w: World, n: Node, mac: string, fmt: string -> string, i: nat, st: State)
    returns (r: State)
    requires st.Running? && st.rest == AfterChain(n, mac)
    requires Prepared(n, mac, fmt, st.env) && AtNic(st.env, i)
    ensures Goes(script, w, n, st, r) && r.Running? && r.rest == NEXT && r.tried == st.tried && r.done == st.done + Down(n, i)
    ensures Prepared(n, mac, fmt, r.env) && AtNic(r.env, i)
  {
    ConfigureQuiet(n);
    PreparedVlan(n, mac, fmt, st.env);
    hide Prepared, AtNic, VlanSet, Goes, Quieted, Cleanup, Down;
    var next := QuietKeeps(script, w, n, mac, fmt, Cleanup(n), AtNext(n, mac), i, st);
    CleanupEnds(w, n, i, st.env, st.done);
    SkipNext(script, w, n, mac, next);
    r := next.(rest := NEXT);
    GoesTrans(script, w, n, st, next, r);
  }

  lemma SkipNext(script: Lines, w: World, n: Node, mac: string, st: State)
    requires st.Running? && st.rest == AtNext(n, mac)
    ensures Goes(script, w, n, st, st.(rest := NEXT))
  {
    GoesRefl(script, w, n, st);
    GoesStep(script, w, n, st);
  }

  // ---- one pass ----

  /** The first attempt that succeeds, or |urls| if none does; attempts are counted from k. */
  ghost function FirstSuccess(w: World, k: nat, urls: seq<string>): (r: nat)
    ensures r <= |urls|
    ensures r < |urls| ==> w.reach(k + r, urls[r])
    ensures forall i :: 0 <= i < r ==> !w.reach(k + i, urls[i])
    decreases |urls|
  {
    if urls == [] then 0
    else if w.reach(k, urls[0]) then 0
    else
      var r := FirstSuccess(w, k + 1, urls[1..]);
      assert forall i :: 0 < i < 1 + r ==> urls[i] == urls[1..][i - 1] && !w.reach(k + 1 + (i - 1), urls[1..][i - 1]);
      1 + r
  }

  /** A pass from st that is due to try urls ends well: the addresses are tried in order up to
      the first success, which ends the script, or all of them fail and the pass is over. */
  ghost predicate PassEnds(script: Lines, w: World, n: Node, mac: string, fmt: string -> string,
                           urls: seq<string>, st: State, r: State)
    requires st.Running?
  {
    var k := FirstSuccess(w, |st.tried|, urls);
    && Goes(script, w, n, st, r)
    && if k < |urls| then r == Exited(st.tried + urls[..k + 1])
       else r.Running? && r.rest == ENDPASS && r.tried == st.tried + urls && Prepared(n, mac, fmt, r.env)
  }

  lemma PassEndsNow(script: Lines, w: World, n: Node, mac: string, fmt: string -> string, url: string,
                    urls: seq<string>, st: State, r: State)
    requires st.Running? && w.reach(|st.tried|, url) && Goes(script, w, n, st, r) && r == Exited(st.tried + [url])
    ensures PassEnds(script, w, n, mac, fmt, [url] + urls, st, r)
  {
    assert ([url] + urls)[..1] == [url];
  }

  lemma FirstSuccessLater(w: World, k: nat, url: string, urls: seq<string>)
    requires !w.reach(k, url)
    ensures FirstSuccess(w, k, [url] + urls) == 1 + FirstSuccess(w, k + 1, urls)
  {
    assert ([url] + urls)[1..] == urls;
  }

  lemma PrefixLater(t: seq<string>, url: string, urls: seq<string>, k: nat)
    requires k <= |urls|
    ensures t + [url] + urls[..k] == t + ([url] + urls)[..k + 1]
  {
  }

  lemma PassEndsLater(script: Lines, w: World, n: Node, mac: string, fmt: string -> string, url: string,
                      urls: seq<string>, st: State, on: State, r: State)
    requires st.Running? && on.Running? && !w.reach(|st.tried|, url) && Goes(script, w, n, st, on)
    requires on.tried == st.tried + [url] && PassEnds(script, w, n, mac, fmt, urls, on, r)
    ensures PassEnds(script, w, n, mac, fmt, [url] + urls, st, r)
  {
    hide Goes, FirstSuccess, Prepared;
    GoesTrans(script, w, n, st, on, r);
    var k := FirstSuccess(w, |on.tried|, urls);
    FirstSuccessLater(w, |st.tried|, url, urls);
    PrefixLater(st.tried, url, urls, if k < |urls| then k + 1 else k);
    assert urls[..|urls|] == urls && ([url] + urls)[..|urls| + 1] == [url] + urls;
  }

  lemma PassEndsVia(script: Lines, w: World, n: Node, mac: string, fmt: string -> string,
                    urls: seq<string>, st: State, on: State, r: State)
    requires st.Running? && on.Running? && Goes(script, w, n, st, on)
    requires on.tried == st.tried && PassEnds(script, w, n, mac, fmt, urls, on, r)
    ensures PassEnds(script, w, n, mac, fmt, urls, st, r)
  {
    GoesTrans(script, w, n, st, on, r);
  }

  ghost predicate AtLoop(n: Node, mac: string, base: string, fmt: string -> string, i: nat, st: State) {
    st.Running? && st.rest == Loop(n, mac, base) && Prepared(n, mac, fmt, st.env) && AtNic(st.env, i)
  }

  /** Moving the counter on. */
  lemma NextDevice(script: Lines, w: World, n: Node, mac: string, base: string, fmt: string -> string, i: nat, st: State)
    returns (r: State)
    requires script == Script(n, mac, base, fmt) && st.Running? && st.rest == NEXT
    requires Prepared(n, mac, fmt, st.env) && AtNic(st.env, i)
    ensures Goes(script, w, n, st, r) && AtLoop(n, mac, base, fmt, i + 1, r) && r.tried == st.tried
  {
    Targets(n, mac, base, fmt);
    hide Script, Loop, LeadsTo;
    NextLine(script, w, Loop(n, mac, base), st, i);
    GoesStep(script, w, n, st);
    r := Step(script, w, st);
    PreparedCounter(n, mac, fmt, st.env, i + 1);
  }

  lemma PreparedCounter(n: Node, mac: string, fmt: string -> string, env: Env, i: nat)
    requires Prepared(n, mac, fmt, env)
    ensures Prepared(n, mac, fmt, env["nic" := Num(i)])
  {
    assert "vlan" != "nic";
    forall j: nat
      ensures PciKey(j) != "nic" && MacName(j) != "nic"
    {
      assert PciKey(j)[0] == 'p' && MacName(j)[1] == 'e';
    }
  }

  /** The guard lets a device that exists through to the tests and ends the pass past the last. */
  lemma GuardRun(script: Lines, w: World, n: Node, mac: string, base: string, fmt: string -> string, i: nat, st: State)
    requires script == Script(n, mac, base, fmt) && AtLoop(n, mac, base, fmt, i, st)
    requires i < |w.nics| ==> w.nics[i].mac != ""
    ensures Goes(script, w, n, st,
      st.(rest := if i < |w.nics| then Append(Tests(n, mac), Body(n, mac, base)) else ENDPASS))
  {
    Targets(n, mac, base, fmt);
    hide Script, Body, Tests, LeadsTo;
    GuardLine(script, w, ENDPASS, st);
    GoesStep(script, w, n, st);
    if i < |w.nics| {
      DeviceRefs(w, st.env, i);
      var on := Step(script, w, st);
      assert Step(script, w, on) == st.(rest := Append(Tests(n, mac), Body(n, mac, base)));
      GoesStep(script, w, n, on);
      GoesTrans(script, w, n, st, on, Step(script, w, on));
    } else {
      NoDevice(w, st.env, i);
    }
  }

  /** One device, from the head of the loop: it is tried exactly if it is selected. */
  lemma DeviceRun(script: Lines, w: World, n: Node, mac: string, base: string, fmt: string -> string, i: nat, st: State)
    returns (r: State)
    requires script == Script(n, mac, base, fmt) && AtLoop(n, mac, base, fmt, i, st)
    requires i < |w.nics| && w.nics[i].mac != ""
    ensures Goes(script, w, n, st, r)
    ensures var url := Url(base, w.nics[i]);
      if !Selected(n, mac, fmt, w.nics[i]) then AtLoop(n, mac, base, fmt, i + 1, r) && r.tried == st.tried
      else if w.reach(|st.tried|, url) then r == Exited(st.tried + [url])
      else AtLoop(n, mac, base, fmt, i + 1, r) && r.tried == st.tried + [url]
  {
    GuardRun(script, w, n, mac, base, fmt, i, st);
    var tests := st.(rest := Append(Tests(n, mac), Body(n, mac, base)));
    hide Script, Body, Tests, Loop, Goes, Prepared, AtNic, Url, Selected;
    TestsRun(script, w, n, mac, base, fmt, i, tests);
    if Selected(n, mac, fmt, w.nics[i]) {
      var body := st.(rest := Body(n, mac, base));
      GoesTrans(script, w, n, st, tests, body);
      r := BodyRun(script, w, n, mac, base, fmt, i, body);
      GoesTrans(script, w, n, st, body, r);
      if r.Running? {
        var next := r;
        r := NextDevice(script, w, n, mac, base, fmt, i, next);
        GoesTrans(script, w, n, st, next, r);
      }
    } else {
      var next := st.(rest := NEXT);
      GoesTrans(script, w, n, st, tests, next);
      r := NextDevice(script, w, n, mac, base, fmt, i, next);
      GoesTrans(script, w, n, st, next, r);
    }
  }

  lemma {:induction false} LoopRun(script: Lines, w: World, n: Node, mac: string, base: string, fmt: string -> string,
                                   i: nat, st: State)
    returns (r: State)
    requires script == Script(n, mac, base, fmt) && AtLoop(n, mac, base, fmt, i, st) && i <= |w.nics|
    requires forall j :: 0 <= j < |w.nics| ==> w.nics[j].mac != ""
    ensures PassEnds(script, w, n, mac, fmt, Urls(n, mac, base, fmt, w.nics, i), st, r)
    decreases |w.nics| - i
  {
    hide Script, Loop, Prepared, AtNic, Url, Selected, FirstSuccess, Goes;
    if i == |w.nics| {
      GuardRun(script, w, n, mac, base, fmt, i, st);
      r := st.(rest := ENDPASS);
    } else {
      var url, urls := Url(base, w.nics[i]), Urls(n, mac, base, fmt, w.nics, i + 1);
      var on := DeviceRun(script, w, n, mac, base, fmt, i, st);
      if on.Exited? {
        r := on;
        PassEndsNow(script, w, n, mac, fmt, url, urls, st, r);
      } else {
        r := LoopRun(script, w, n, mac, base, fmt, i + 1, on);
        if Selected(n, mac, fmt, w.nics[i]) {
          PassEndsLater(script, w, n, mac, fmt, url, urls, st, on, r);
        } else {
          PassEndsVia(script, w, n, mac, fmt, urls, st, on, r);
        }
      }
    }
  }

  // ---- before the loop ----

  lemma SetLine(script: Lines, w: World, name: string, value: string, st: State)
    requires st.Running? && st.rest.Cons? && st.rest.head == Do(Set(W(name), V(value)))
    ensures Step(script, w, st) == st.(rest := st.rest.tail, env := st.env[name := Str(value)])
  {
    ExpandLit(w, st.env, name);
    if value != "" {
      ExpandLit(w, st.env, value);
    }
  }

  ghost predicate NoMacs(env: Env) { forall j: nat :: MacName(j) !in env }

  lemma PlainKey(env: Env, key: string, v: Value)
    requires NoMacs(env) && !DeviceLike(key)
    ensures NoMacs(env[key := v])
  {
    forall j: nat
      ensures MacName(j) != key
    {
      assert DeviceLike(MacName(j));
    }
  }

  ghost predicate PcisSet(n: Node, fmt: string -> string, env: Env, j: nat) {
    forall i :: 0 <= i < j <= |n.bondMembers| && IsPciAddr(n.bondMembers[i]) ==>
      PciKey(i) in env && env[PciKey(i)] == Str(fmt(n.bondMembers[i]))
  }

  lemma PciKeys(i: nat, j: nat)
    ensures !DeviceLike(PciKey(i)) && PciKey(i) != "target_mac" && PciKey(i) != "vlan"
    ensures PciKey(i) == PciKey(j) ==> i == j
  {
    assert PciKey(i)[0] == 'p';
    if PciKey(i) == PciKey(j) {
      assert PciKey(i)[3..] == Dec(i) && PciKey(j)[3..] == Dec(j);
      DecInjective(i, j);
    }
  }

  lemma PcisSetNext(n: Node, fmt: string -> string, env: Env, j: nat)
    requires PcisSet(n, fmt, env, j) && j < |n.bondMembers|
    ensures PcisSet(n, fmt, env[PciKey(j) := Str(fmt(n.bondMembers[j]))], j + 1)
  {
    forall i: nat
      ensures PciKey(i) == PciKey(j) ==> i == j
    {
      PciKeys(i, j);
    }
  }

  lemma {:induction false} PciSetsRun(script: Lines, w: World, n: Node, fmt: string -> string, j: nat, tail: Lines, st: State)
    returns (r: State)
    requires j <= |n.bondMembers| && st.Running? && st.rest == Append(PciSets(n.bondMembers, fmt, j), tail)
    requires PcisSet(n, fmt, st.env, j) && NoMacs(st.env) && VlanSet(n, st.env)
    ensures Goes(script, w, n, st, r) && r.Running? && r.rest == tail && r.tried == st.tried
    ensures PcisSet(n, fmt, r.env, |n.bondMembers|) && NoMacs(r.env) && VlanSet(n, r.env)
    decreases |n.bondMembers| - j
  {
    if j == |n.bondMembers| {
      r := st;
      GoesRefl(script, w, n, st);
    } else if !IsPciAddr(n.bondMembers[j]) {
      r := PciSetsRun(script, w, n, fmt, j + 1, tail, st);
    } else {
      var on := st.(rest := Append(PciSets(n.bondMembers, fmt, j + 1), tail),
                    env := st.env[PciKey(j) := Str(fmt(n.bondMembers[j]))]);
      SetLine(script, w, PciKey(j), fmt(n.bondMembers[j]), st);
      GoesStep(script, w, n, st);
      PciKeys(j, j);
      PcisSetNext(n, fmt, st.env, j);
      PlainKey(st.env, PciKey(j), Str(fmt(n.bondMembers[j])));
      hide PcisSet, NoMacs, Step, Goes;
      r := PciSetsRun(script, w, n, fmt, j + 1, tail, on);
      GoesTrans(script, w, n, st, on, r);
    }
  }

  /** An optional setting line. */
  lemma OptionalSet(script: Lines, w: World, n: Node, b: bool, name: string, value: string, tail: Lines, st: State)
    returns (r: State)
    requires st.Running? && st.rest == If(b, Do(Set(W(name), W(value))), tail) && !DeviceLike(name) && NoMacs(st.env)
    requires b ==> value != ""
    ensures Goes(script, w, n, st, r) && r.Running? && r.rest == tail && r.tried == st.tried && NoMacs(r.env)
    ensures r.env == if b then st.env[name := Str(value)] else st.env
  {
    if b {
      SetLine(script, w, name, value, st);
      GoesStep(script, w, n, st);
      PlainKey(st.env, name, Str(value));
      r := Step(script, w, st);
    } else {
      GoesRefl(script, w, n, st);
      r := st;
    }
  }

  /** The lines before the loop make the settings the loop relies on. */
  lemma PrologueRun(script: Lines, w: World, n: Node, mac: string, fmt: string -> string, tail: Lines, st: State)
    returns (r: State)
    requires st.Running? && st.rest == Append(Prologue(n, mac, fmt), tail) && NoMacs(st.env)
    ensures Goes(script, w, n, st, r) && r.Running? && r.rest == tail && r.tried == st.tried
    ensures Prepared(n, mac, fmt, r.env)
  {
    var macSet := If(!HasPci(n) && mac != "", Do(Set(W("target_mac"), W(ToLower(mac)))), tail);
    var pcis := Append(PciSets(n.bondMembers, fmt, 0), macSet);
    var vlan := If(n.vlan != "", Do(Set(W("vlan"), W(n.vlan))), pcis);
    PrologueShape(n, mac, fmt, tail);
    var s1 := Step(script, w, st);
    var s2 := Step(script, w, s1);
    assert s2 == st.(rest := vlan);
    GoesStep(script, w, n, st);
    GoesStep(script, w, n, s1);
    GoesTrans(script, w, n, st, s1, s2);
    hide Prologue, PciSets, PcisSet, NoMacs, Goes, Append, HasPci;
    var s3 := OptionalSet(script, w, n, n.vlan != "", "vlan", n.vlan, pcis, s2);
    GoesTrans(script, w, n, st, s2, s3);
    NothingSet(n, fmt, s3.env);
    var s4 := PciSetsRun(script, w, n, fmt, 0, macSet, s3);
    GoesTrans(script, w, n, st, s3, s4);
    r := OptionalSet(script, w, n, !HasPci(n) && mac != "", "target_mac", ToLower(mac), tail, s4);
    GoesTrans(script, w, n, st, s4, r);
    PreparedNow(n, mac, fmt, s4.env, r.env);
  }

  lemma NothingSet(n: Node, fmt: string -> string, env: Env)
    ensures PcisSet(n, fmt, env, 0)
  {
  }

  lemma PrologueShape(n: Node, mac: string, fmt: string -> string, tail: Lines)
    ensures Append(Prologue(n, mac, fmt), tail) ==
      Cons(Note("#!ipxe"),
      Cons(Note("# Dynamic boot script for " + n.hostname + " (" + mac + ")"),
      If(n.vlan != "", Do(Set(W("vlan"), W(n.vlan))),
      Append(PciSets(n.bondMembers, fmt, 0),
      If(!HasPci(n) && mac != "", Do(Set(W("target_mac"), W(ToLower(mac)))), tail)))))
  {
    var macSet := If(!HasPci(n) && mac != "", Do(Set(W("target_mac"), W(ToLower(mac)))), Nil);
    assert Append(macSet, tail) == If(!HasPci(n) && mac != "", Do(Set(W("target_mac"), W(ToLower(mac)))), tail);
    AppendAssoc(PciSets(n.bondMembers, fmt, 0), macSet, tail);
    var rest := If(n.vlan != "", Do(Set(W("vlan"), W(n.vlan))), Append(PciSets(n.bondMembers, fmt, 0), macSet));
    assert Append(rest, tail) ==
      If(n.vlan != "", Do(Set(W("vlan"), W(n.vlan))), Append(Append(PciSets(n.bondMembers, fmt, 0), macSet), tail));
    var named := Cons(Note("# Dynamic boot script for " + n.hostname + " (" + mac + ")"), rest);
    assert Append(named, tail) == Cons(named.head, Append(rest, tail));
  }

  lemma PreparedNow(n: Node, mac: string, fmt: string -> string, env: Env, env': Env)
    requires PcisSet(n, fmt, env, |n.bondMembers|) && NoMacs(env') && VlanSet(n, env)
    requires env' == if !HasPci(n) && mac != "" then env["target_mac" := Str(ToLower(mac))] else env
    ensures Prepared(n, mac, fmt, env')
  {
  }

  // ---- theorems ----

  lemma FirstSuccessStep(w: World, k: nat, urls: seq<string>)
    ensures FirstSuccess(w, k, urls) ==
      if urls == [] || w.reach(k, urls[0]) then 0 else 1 + FirstSuccess(w, k + 1, urls[1..])
  {
  }

  lemma UrlsConcat(a: seq<string>, b: seq<string>)
    ensures if a == [] then a + b == b else (a + b)[0] == a[0] && (a + b)[1..] == a[1..] + b
  {
  }

  /** Where all of a fail, b goes on; otherwise b does not matter. */
  lemma {:induction false} FirstSuccessConcat(w: World, k: nat, a: seq<string>, b: seq<string>)
    ensures FirstSuccess(w, k, a + b) ==
      if FirstSuccess(w, k, a) < |a| then FirstSuccess(w, k, a) else |a| + FirstSuccess(w, k + |a|, b)
    decreases |a|
  {
    hide FirstSuccess;
    UrlsConcat(a, b);
    FirstSuccessStep(w, k, a);
    FirstSuccessStep(w, k, a + b);
    if a != [] {
      FirstSuccessConcat(w, k + 1, a[1..], b);
    }
  }

  /** A pass that fails, and what follows it, are as one pass over both lists of addresses. */
  lemma PassEndsConcat(script: Lines, w: World, n: Node, mac: string, fmt: string -> string,
                       a: seq<string>, b: seq<string>, st: State, on: State, r: State)
    requires st.Running? && PassEnds(script, w, n, mac, fmt, a, st, on)
    requires if on.Running? then PassEnds(script, w, n, mac, fmt, b, on, r) else r == on
    ensures PassEnds(script, w, n, mac, fmt, a + b, st, r)
  {
    hide Goes, FirstSuccess, Prepared;
    FirstSuccessConcat(w, |st.tried|, a, b);
    var k := FirstSuccess(w, |st.tried|, a);
    if k < |a| {
      assert (a + b)[..k + 1] == a[..k + 1];
    } else {
      GoesTrans(script, w, n, st, on, r);
      var m := FirstSuccess(w, |on.tried|, b);
      assert st.tried + a + b == st.tried + (a + b);
      if m < |b| {
        assert (a + b)[..|a| + m + 1] == a + b[..m + 1];
        assert st.tried + a + b[..m + 1] == st.tried + (a + b[..m + 1]);
      }
    }
  }

  /** k copies of the list. */
  function Repeat(urls: seq<string>, k: nat): seq<string> {
    if k == 0 then [] else urls + Repeat(urls, k - 1)
  }

  /** From top the loop starts with the first device. */
  lemma EnterLoop(script: Lines, w: World, n: Node, mac: string, base: string, fmt: string -> string, st: State)
    returns (on: State)
    requires st.Running? && st.rest == Top(n, mac, base) && Prepared(n, mac, fmt, st.env)
    ensures Goes(script, w, n, st, on) && AtLoop(n, mac, base, fmt, 0, on) && on.tried == st.tried
  {
    PreparedCounter(n, mac, fmt, st.env, 0);
    var s1 := Step(script, w, st);
    on := Step(script, w, s1);
    assert s1 == Running(Cons(Label("loop"), Loop(n, mac, base)), st.env["nic" := Num(0)], st.done, st.tried);
    assert on == s1.(rest := Loop(n, mac, base));
    GoesStep(script, w, n, st);
    GoesStep(script, w, n, s1);
    GoesTrans(script, w, n, st, s1, on);
  }

  /** From top, a pass tries the selected devices in index order until one succeeds. */
  lemma TopRun(script: Lines, w: World, n: Node, mac: string, base: string, fmt: string -> string, st: State)
    returns (r: State)
    requires script == Script(n, mac, base, fmt) && st.Running? && st.rest == Top(n, mac, base)
    requires Prepared(n, mac, fmt, st.env) && forall j :: 0 <= j < |w.nics| ==> w.nics[j].mac != ""
    ensures PassEnds(script, w, n, mac, fmt, Urls(n, mac, base, fmt, w.nics, 0), st, r)
  {
    hide Script, Prepared, Goes, Loop, Top, PassEnds, Urls;
    var on := EnterLoop(script, w, n, mac, base, fmt, st);
    r := LoopRun(script, w, n, mac, base, fmt, 0, on);
    PassEndsVia(script, w, n, mac, fmt, Urls(n, mac, base, fmt, w.nics, 0), st, on, r);
  }

  /** From a fresh start of the script to top. */
  lemma Begin(w: World, n: Node, mac: string, base: string, fmt: string -> string, env: Env) returns (on: State)
    requires NoMacs(env)
    ensures var script := Script(n, mac, base, fmt); Goes(script, w, n, Running(script, env, [], []), on)
    ensures on.Running? && on.rest == Top(n, mac, base) && Prepared(n, mac, fmt, on.env) && on.tried == []
  {
    var script := Script(n, mac, base, fmt);
    var st := Running(script, env, [], []);
    var top := PrologueRun(script, w, n, mac, fmt, Cons(Label("top"), Top(n, mac, base)), st);
    on := Step(script, w, top);
    GoesStep(script, w, n, top);
    GoesTrans(script, w, n, st, top, on);
    assert on == top.(rest := Top(n, mac, base));
  }

  /** The first pass, from a fresh start of the script: for every node, every list of devices
      and every pattern of failures, chain is attempted on exactly the selected devices, in
      index order, stopping at the first success. */
  lemma FirstPass(w: World, n: Node, mac: string, base: string, fmt: string -> string, env: Env) returns (r: State)
    requires NoMacs(env) && forall j :: 0 <= j < |w.nics| ==> w.nics[j].mac != ""
    ensures PassEnds(Script(n, mac, base, fmt), w, n, mac, fmt, Urls(n, mac, base, fmt, w.nics, 0),
                     Running(Script(n, mac, base, fmt), env, [], []), r)
  {
    hide Script, Prepared, Goes, Top, PassEnds, Urls, NoMacs;
    var script := Script(n, mac, base, fmt);
    var on := Begin(w, n, mac, base, fmt, env);
    r := TopRun(script, w, n, mac, base, fmt, on);
    PassEndsVia(script, w, n, mac, fmt, Urls(n, mac, base, fmt, w.nics, 0), Running(script, env, [], []), on, r);
  }

  /** After an unsuccessful pass the script goes back to top, three seconds later. */
  lemma BackToTop(w: World, n: Node, mac: string, base: string, fmt: string -> string, st: State) returns (on: State)
    requires st.Running? && st.rest == ENDPASS
    ensures Goes(Script(n, mac, base, fmt), w, n, st, on)
    ensures on == st.(rest := Top(n, mac, base), done := st.done + [["sleep", "3"]])
  {
    var script := Script(n, mac, base, fmt);
    Targets(n, mac, base, fmt);
    hide Script, Top, LeadsTo;
    var s1 := Step(script, w, st);
    var s2 := Step(script, w, s1);
    GoesStep(script, w, n, st);
    GoesStep(script, w, n, s1);
    GoesTrans(script, w, n, st, s1, s2);
    GotoLine(script, w, "top", Top(n, mac, base), s2);
    GoesStep(script, w, n, s2);
    on := Step(script, w, s2);
    GoesTrans(script, w, n, st, s2, on);
  }

  /** Every later pass: after an unsuccessful pass the script starts over and the same holds again. */
  lemma NextPass(w: World, n: Node, mac: string, base: string, fmt: string -> string, st: State) returns (r: State)
    requires st.Running? && st.rest == ENDPASS && Prepared(n, mac, fmt, st.env)
    requires forall j :: 0 <= j < |w.nics| ==> w.nics[j].mac != ""
    ensures PassEnds(Script(n, mac, base, fmt), w, n, mac, fmt, Urls(n, mac, base, fmt, w.nics, 0), st, r)
  {
    hide Script, Prepared, Goes, Top, PassEnds, Urls;
    var script := Script(n, mac, base, fmt);
    var on := BackToTop(w, n, mac, base, fmt, st);
    r := TopRun(script, w, n, mac, base, fmt, on);
    PassEndsVia(script, w, n, mac, fmt, Urls(n, mac, base, fmt, w.nics, 0), st, on, r);
  }

  /** A pass and, if it fails, k - 1 more. */
  lemma PassesMore(script: Lines, w: World, n: Node, mac: string, fmt: string -> string, urls: seq<string>,
                   st: State, on: State, r: State, k: nat)
    requires k > 0 && st.Running? && PassEnds(script, w, n, mac, fmt, urls, st, on)
    requires if on.Running? then PassEnds(script, w, n, mac, fmt, Repeat(urls, k - 1), on, r) else r == on
    ensures PassEnds(script, w, n, mac, fmt, Repeat(urls, k), st, r)
  {
    hide Repeat, PassEnds;
    OnceMore(urls, k);
    PassEndsConcat(script, w, n, mac, fmt, urls, Repeat(urls, k - 1), st, on, r);
  }

  /** Any number of passes from the end of one: the addresses are tried in order, over and over,
      up to the first success. */
  lemma {:induction false} LaterPasses(w: World, n: Node, mac: string, base: string, fmt: string -> string, st: State, k: nat)
    returns (r: State)
    requires st.Running? && st.rest == ENDPASS && Prepared(n, mac, fmt, st.env)
    requires forall j :: 0 <= j < |w.nics| ==> w.nics[j].mac != ""
    ensures PassEnds(Script(n, mac, base, fmt), w, n, mac, fmt, Repeat(Urls(n, mac, base, fmt, w.nics, 0), k), st, r)
    decreases k
  {
    hide Script, Urls, Repeat, PassEnds, Prepared, NoMacs;
    var script, urls := Script(n, mac, base, fmt), Urls(n, mac, base, fmt, w.nics, 0);
    if k == 0 {
      NoneRepeated(urls);
      NoPass(script, w, n, mac, fmt, st);
      r := st;
    } else {
      var on := NextPass(w, n, mac, base, fmt, st);
      EndsPrepared(script, w, n, mac, fmt, urls, st, on);
      r := on;
      if on.Running? {
        r := LaterPasses(w, n, mac, base, fmt, on, k - 1);
      }
      PassesMore(script, w, n, mac, fmt, urls, st, on, r, k);
    }
  }

  lemma NoPass(script: Lines, w: World, n: Node, mac: string, fmt: string -> string, st: State)
    requires st.Running? && st.rest == ENDPASS && Prepared(n, mac, fmt, st.env)
    ensures PassEnds(script, w, n, mac, fmt, [], st, st)
  {
    hide Prepared, Goes;
    GoesRefl(script, w, n, st);
    assert st.tried + [] == st.tried;
  }

  lemma EndsPrepared(script: Lines, w: World, n: Node, mac: string, fmt: string -> string, urls: seq<string>,
                     st: State, r: State)
    requires st.Running? && PassEnds(script, w, n, mac, fmt, urls, st, r)
    ensures r.Running? ==> r.rest == ENDPASS && Prepared(n, mac, fmt, r.env)
  {
    hide Prepared, Goes, FirstSuccess;
  }

  lemma NoneRepeated(urls: seq<string>)
    ensures Repeat(urls, 0) == []
  {
  }

  lemma OnceMore(urls: seq<string>, k: nat)
    requires k > 0
    ensures Repeat(urls, k) == urls + Repeat(urls, k - 1)
  {
  }

  /** Any number of passes from a fresh start. */
  lemma Passes(w: World, n: Node, mac: string, base: string, fmt: string -> string, env: Env, k: nat) returns (r: State)
    requires k > 0 && NoMacs(env) && forall j :: 0 <= j < |w.nics| ==> w.nics[j].mac != ""
    ensures PassEnds(Script(n, mac, base, fmt), w, n, mac, fmt, Repeat(Urls(n, mac, base, fmt, w.nics, 0), k),
                     Running(Script(n, mac, base, fmt), env, [], []), r)
  {
    hide Script, Urls, Repeat, PassEnds, Prepared, NoMacs;
    var script, urls := Script(n, mac, base, fmt), Urls(n, mac, base, fmt, w.nics, 0);
    var st := Running(script, env, [], []);
    var on := FirstPass(w, n, mac, base, fmt, env);
    EndsPrepared(script, w, n, mac, fmt, urls, st, on);
    r := on;
    if on.Running? {
      r := LaterPasses(w, n, mac, base, fmt, on, k - 1);
    }
    PassesMore(script, w, n, mac, fmt, urls, st, on, r, k);
  }
}
