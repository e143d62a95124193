/** Every jump of a node's boot script has exactly one place to go. */
module IpxeLabels {
  import Text
  import opened Nodes
  import opened IpxeLang
  import opened IpxeScript
  import opened IpxePass

  function LabelCount(xs: Lines, name: string): nat {
    match xs
    case Nil => 0
    case Cons(l, tail) => (if l == Label(name) then 1 else 0) + LabelCount(tail, name)
  }

  function JumpsOfCmd(c: Cmd): set<string> { if c.Goto? then {c.target} else {} }

  function JumpsOfClauses(c: Clauses): set<string> {
    match c
    case Last(cmd) => JumpsOfCmd(cmd)
    case AndThen(cmd, rest) => JumpsOfCmd(cmd) + JumpsOfClauses(rest)
    case OrElse(cmd, rest) => JumpsOfCmd(cmd) + JumpsOfClauses(rest)
    case Always(cmd, rest) => JumpsOfCmd(cmd) + JumpsOfClauses(rest)
  }

  /** The targets of all jumps in a script. */
  function Jumps(xs: Lines): set<string> {
    match xs
    case Nil => {}
    case Cons(l, tail) => (if l.Run? then JumpsOfClauses(l.clauses) else {}) + Jumps(tail)
  }

  lemma {:induction false} AppendCounts(xs: Lines, ys: Lines, name: string)
    ensures LabelCount(Append(xs, ys), name) == LabelCount(xs, name) + LabelCount(ys, name)
    ensures Jumps(Append(xs, ys)) == Jumps(xs) + Jumps(ys)
  {
    match xs
    case Nil =>
    case Cons(_, tail) => AppendCounts(tail, ys, name);
  }

  lemma {:induction false} LabelFreeCount(xs: Lines, name: string)
    requires LabelFree(xs)
    ensures LabelCount(xs, name) == 0
  {
    match xs
    case Nil =>
    case Cons(_, tail) => LabelFreeCount(tail, name);
  }

  lemma {:induction false} QuietJumps(xs: Lines)
    requires Quiet(xs)
    ensures Jumps(xs) == {}
  {
    match xs
    case Nil =>
    case Cons(l, tail) =>
      QuietJumps(tail);
      assert JumpsOfClauses(Last(Nop)) == {};
  }

  lemma {:induction false} PciJumps(members: seq<string>, fmt: string -> string, i: nat)
    requires i <= |members|
    ensures Jumps(PciSets(members, fmt, i)) == {} && Jumps(PciTests(members, i)) <= {"hit"}
    decreases |members| - i
  {
    if i < |members| {
      PciJumps(members, fmt, i + 1);
      assert JumpsOfClauses(OrElse(Goto("hit"), Last(Nop))) == {"hit"};
    }
  }

  function B(b: bool): nat { if b then 1 else 0 }

  lemma CountCons(l: Line, tail: Lines, name: string)
    ensures LabelCount(Cons(l, tail), name) == B(l == Label(name)) + LabelCount(tail, name)
    ensures Jumps(Cons(l, tail)) == (if l.Run? then JumpsOfClauses(l.clauses) else {}) + Jumps(tail)
  {
  }

  lemma NextCounts(name: string)
    ensures LabelCount(NEXT, name) == B(name == "endpass") + B(name == "os_done")
    ensures Jumps(NEXT) == {"loop", "top"}
  {
    var xs := ENDPASS;
    CountCons(xs.head, xs.tail, name);
    CountCons(xs.tail.head, xs.tail.tail, name);
    CountCons(xs.tail.tail.head, xs.tail.tail.tail, name);
    CountCons(xs.tail.tail.tail.head, xs.tail.tail.tail.tail, name);
    CountCons(Do(Exit(0)), Nil, name);
    CountCons(Label("endpass"), ENDPASS, name);
    CountCons(NEXT.head, NEXT.tail, name);
    assert JumpsOfClauses(Last(Goto("loop"))) == {"loop"};
  }

  /** The jump and label counts of the lines between the tests and the end. */
  lemma BodyCounts(n: Node, mac: string, base: string, name: string)
    ensures LabelCount(Body(n, mac, base), name)
            == B((HasPci(n) || mac != "") && name == "next") + B(name == "endpass") + B(name == "os_done")
    ensures Jumps(Body(n, mac, base)) == {"os_done", "loop", "top"}
  {
    ConfigureQuiet(n);
    QuietLabelFree(Configure(n));
    QuietLabelFree(Cleanup(n));
    LabelFreeCount(Configure(n), name);
    LabelFreeCount(Cleanup(n), name);
    QuietJumps(Configure(n));
    QuietJumps(Cleanup(n));
    NextCounts(name);
    AppendCounts(Cleanup(n), AtNext(n, mac), name);
    var chain := Branch(Chain(ChainUrl(base)), "os_done");
    CountCons(chain, AfterChain(n, mac), name);
    assert JumpsOfClauses(OrElse(Goto("os_done"), Last(Nop))) == {"os_done"};
    AppendCounts(Configure(n), Cons(chain, AfterChain(n, mac)), name);
    hide Configure, Cleanup, ChainUrl, Quiet, LabelFree;
  }

  lemma TestsCounts(n: Node, mac: string, name: string)
    ensures LabelCount(Tests(n, mac), name) == B((HasPci(n) || mac != "") && name == "hit")
    ensures Jumps(Tests(n, mac)) <= if HasPci(n) || mac != "" then {"hit", "next"} else {}
  {
    var end := Cons(Do(Goto("next")), Cons(Label("hit"), Nil));
    CountCons(Label("hit"), Nil, name);
    CountCons(Do(Goto("next")), end.tail, name);
    PciLinesLabelFree(n.bondMembers, s => s, 0);
    LabelFreeCount(PciTests(n.bondMembers, 0), name);
    PciJumps(n.bondMembers, s => s, 0);
    AppendCounts(PciTests(n.bondMembers, 0), end, name);
    assert JumpsOfClauses(OrElse(Goto("hit"), Last(Nop))) == {"hit"};
    if !HasPci(n) && mac != "" {
      CountCons(Tests(n, mac).head, end, name);
    }
  }

  lemma PrologueCounts(n: Node, mac: string, fmt: string -> string, name: string)
    ensures LabelCount(Prologue(n, mac, fmt), name) == 0 && Jumps(Prologue(n, mac, fmt)) == {}
  {
    PrologueLabelFree(n, mac, fmt);
    LabelFreeCount(Prologue(n, mac, fmt), name);
    var p := Prologue(n, mac, fmt);
    PciJumps(n.bondMembers, fmt, 0);
    var macSet := If(!HasPci(n) && mac != "", Do(Set(W("target_mac"), W(Text.ToLower(mac)))), Nil);
    AppendCounts(PciSets(n.bondMembers, fmt, 0), macSet, name);
    CountCons(p.tail.head, p.tail.tail, name);
    CountCons(p.head, p.tail, name);
  }

  /** Every jump target has exactly one label, in every script. */
  lemma EveryJumpLands(n: Node, mac: string, base: string, fmt: string -> string, name: string)
    requires name in Jumps(Script(n, mac, base, fmt))
    ensures LabelCount(Script(n, mac, base, fmt), name) == 1
  {
    PrologueCounts(n, mac, fmt, name);
    TestsCounts(n, mac, name);
    BodyCounts(n, mac, base, name);
    hide Prologue, Tests, Body, HasPci;
    var loop := Loop(n, mac, base);
    AppendCounts(Tests(n, mac), Body(n, mac, base), name);
    CountCons(loop.tail.head, loop.tail.tail, name);
    CountCons(loop.head, loop.tail, name);
    assert JumpsOfClauses(Last(Goto("endpass"))) == {"endpass"};
    CountCons(Label("loop"), loop, name);
    CountCons(Do(SetInt("nic", 0)), Cons(Label("loop"), loop), name);
    CountCons(Label("top"), Top(n, mac, base), name);
    AppendCounts(Prologue(n, mac, fmt), Cons(Label("top"), Top(n, mac, base)), name);
  }
}
