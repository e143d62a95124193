/** The boot script of a node. */
module IpxeScript {
  import opened Text
  import opened Nodes
  import opened IpxeLang

  // ---- words ----

  function W(s: string): Word { Lit(s, Empty) }

  /** A value that may be empty. */
  function V(s: string): Word { if s == "" then Empty else W(s) }

  /** net${nic} followed by rest. */
  function NetNic(rest: Word): Word { Lit("net", Ref(W("nic"), rest)) }

  /** ${net${nic}/mac} followed by rest. */
  function MacRef(rest: Word): Word { Ref(NetNic(W("/mac")), rest) }

  function BusRef(rest: Word): Word { Ref(NetNic(W("/busloc:busdevfn")), rest) }

  /** The interface that gets the address: net${nic}, or net${nic}-${vlan} on a VLAN. */
  function EffIface(vlan: bool, rest: Word): Word {
    if vlan then NetNic(Lit("-", Ref(W("vlan"), rest))) else NetNic(rest)
  }

  function PciKey(i: nat): string { "pci" + Dec(i) }

  // ---- lines ----

  function Do(c: Cmd): Line { Run(Last(c)) }

  /** c || : a failure of c is ignored. */
  function Try(c: Cmd): Line { Run(OrElse(c, Last(Nop))) }

  /** c && goto l || : jump on success, go on otherwise. */
  function Branch(c: Cmd, l: string): Line { Run(AndThen(c, OrElse(Goto(l), Last(Nop)))) }

  function If(b: bool, l: Line, tail: Lines): Lines { if b then Cons(l, tail) else tail }

  /** set pci<i> <address> for every PCI member from i on. */
  function PciSets(members: seq<string>, fmt: string -> string, i: nat): Lines
    requires i <= |members|
    decreases |members| - i
  {
    if i == |members| then Nil
    else
      If(IsPciAddr(members[i]), Do(Set(W(PciKey(i)), V(fmt(members[i])))), PciSets(members, fmt, i + 1))
  }

  /** One comparison with the device's bus address for every PCI member from i on. */
  function PciTests(members: seq<string>, i: nat): Lines
    requires i <= |members|
    decreases |members| - i
  {
    if i == |members| then Nil
    else
      If(IsPciAddr(members[i]), Branch(Iseq(BusRef(Empty), Ref(W(PciKey(i)), Empty)), "hit"), PciTests(members, i + 1))
  }

  predicate HasPci(n: Node) {
    exists i :: 0 <= i < |n.bondMembers| && IsPciAddr(n.bondMembers[i])
  }

  function Prologue(n: Node, mac: string, fmt: string -> string): Lines {
    Cons(Note("#!ipxe"),
    Cons(Note("# Dynamic boot script for " + n.hostname + " (" + mac + ")"),
    If(n.vlan != "", Do(Set(W("vlan"), W(n.vlan))),
    Append(PciSets(n.bondMembers, fmt, 0),
    If(!HasPci(n) && mac != "", Do(Set(W("target_mac"), W(ToLower(mac)))), Nil)))))
  }

  /** Decides between the lines at hit and those at next. */
  function Tests(n: Node, mac: string): Lines {
    if HasPci(n) then Append(PciTests(n.bondMembers, 0), Cons(Do(Goto("next")), Cons(Label("hit"), Nil)))
    else if mac != "" then
      Cons(Branch(Iseq(MacRef(Empty), Ref(W("target_mac"), Empty)), "hit"),
      Cons(Do(Goto("next")), Cons(Label("hit"), Nil)))
    else Nil
  }

  /** Brings the interface up and gives it its static configuration. */
  function Configure(n: Node): Lines {
    var v := n.vlan != "";
    Cons(Do(Echo([W("Configuring"), NetNic(Empty), Lit("(", MacRef(W(")...")))])),
    Cons(Try(Device("ifclose", [NetNic(Empty)])),
    Cons(Try(Device("ifopen", [NetNic(Empty)])),
    If(v, Try(Device("vcreate", [W("--tag"), Ref(W("vlan"), Empty), NetNic(Empty)])),
    If(n.ip != "", Do(Set(EffIface(v, W("/ip")), W(n.ip))),
    If(n.netmask != "", Do(Set(EffIface(v, W("/netmask")), W(n.netmask))),
    If(n.gw != "", Do(Set(EffIface(v, W("/gateway")), W(n.gw))),
    If(n.dns != "", Do(Set(EffIface(v, W("/dns")), W(n.dns))),
    Cons(Try(Device("ifopen", [EffIface(v, Empty)])), Nil)))))))))
  }

  /** Takes the interface down again. */
  function Cleanup(n: Node): Lines {
    If(n.vlan != "", Try(Device("ifclose", [EffIface(true, Empty)])),
    If(n.vlan != "", Try(Device("vdestroy", [EffIface(true, Empty)])),
    Cons(Try(Device("ifclose", [NetNic(Empty)])), Nil)))
  }

  function ChainUrl(base: string): Word { Lit(base + "/ipxe.cfg-", MacRef(Empty)) }

  const ENDPASS: Lines :=
    Cons(Do(Echo([W("no"), W("matching"), W("uplink"), W("reached"), W("proxy;"), W("retry"), W("in"), W("3s")])),
    Cons(Do(Sleep(3)),
    Cons(Do(Goto("top")),
    Cons(Label("os_done"),
    Cons(Do(Exit(0)), Nil)))))

  const NEXT: Lines := Cons(Run(AndThen(Inc("nic"), Last(Goto("loop")))), Cons(Label("endpass"), ENDPASS))

  function AtNext(n: Node, mac: string): Lines {
    If(HasPci(n) || mac != "", Label("next"), NEXT)
  }

  function AfterChain(n: Node, mac: string): Lines {
    Append(Cleanup(n), AtNext(n, mac))
  }

  function Body(n: Node, mac: string, base: string): Lines {
    Append(Configure(n), Cons(Branch(Chain(ChainUrl(base)), "os_done"), AfterChain(n, mac)))
  }

  function Loop(n: Node, mac: string, base: string): Lines {
    Cons(Run(OrElse(Isset(MacRef(Empty)), Last(Goto("endpass")))),
    Cons(Do(Echo([W("Checking"), NetNic(Empty), Lit("(", MacRef(Empty)), BusRef(W(")..."))])),
    Append(Tests(n, mac), Body(n, mac, base))))
  }

  function Top(n: Node, mac: string, base: string): Lines {
    Cons(Do(SetInt("nic", 0)), Cons(Label("loop"), Loop(n, mac, base)))
  }

  /** The script of a node; base is the proxy address without trailing slashes, and fmt the
      normal form of PCI addresses. */
  function Script(n: Node, mac: string, base: string, fmt: string -> string): Lines {
    Append(Prologue(n, mac, fmt), Cons(Label("top"), Top(n, mac, base)))
  }
}
