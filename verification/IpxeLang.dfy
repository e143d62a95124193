/** A small-step interpreter for the iPXE script language, as far as the boot scripts use it. */
module IpxeLang {
  import opened Text

  /** A word of a command: literal text and ${...} references, which may nest. */
  datatype Word = Empty | Lit(text: string, rest: Word) | Ref(name: Word, rest: Word) {
    /** The word as written in a script. */
    function Print(): string {
      match this
      case Empty => ""
      case Lit(t, r) => t + r.Print()
      case Ref(n, r) => "${" + n.Print() + "}" + r.Print()
    }
  }

  datatype Cmd =
    | Nop
    | Set(name: Word, value: Word)
    | SetInt(intName: string, initial: nat)
    | Isset(word: Word)
    | Iseq(left: Word, right: Word)
    | Goto(target: string)
    | Echo(words: seq<Word>)
    | Inc(counter: string)
    | Chain(url: Word)
    | Device(verb: string, args: seq<Word>)
    | Sleep(seconds: nat)
    | Exit(code: nat)
    | Unknown(text: seq<string>)

  /** Commands of one line: after && the next runs on success, after || on failure, after ; always. */
  datatype Clauses =
    | Last(cmd: Cmd)
    | AndThen(cmd: Cmd, rest: Clauses)
    | OrElse(cmd: Cmd, rest: Clauses)
    | Always(cmd: Cmd, rest: Clauses)

  datatype Line = Label(name: string) | Note(text: string) | Run(clauses: Clauses)

  datatype Lines = Nil | Cons(head: Line, tail: Lines)

  function Append(xs: Lines, ys: Lines): Lines {
    match xs
    case Nil => ys
    case Cons(l, tail) => Cons(l, Append(tail, ys))
  }

  // ---- the machine ----

  datatype Nic = Nic(mac: string, bus: string)

  /** dev(t) is the outcome of the t-th device command; reach(k, url) says whether
      the k-th chain attempt, to url, succeeds. */
  datatype World = World(nics: seq<Nic>, dev: nat -> bool, reach: (nat, string) -> bool)

  datatype Value = Num(n: nat) | Str(s: string) {
    function Show(): string {
      if Num? then Dec(n) else s
    }
  }

  type Env = map<string, Value>

  function MacName(k: nat): string { "net" + Dec(k) + "/mac" }

  function BusName(k: nat): string { "net" + Dec(k) + "/busloc:busdevfn" }

  /** The settings a network device brings along; everything else is looked up in env. */
  function Lookup(w: World, env: Env, name: string, k: nat): (v: string)
    requires k <= |w.nics|
    decreases |w.nics| - k
  {
    if k == |w.nics| then (if name in env then env[name].Show() else "")
    else if name == MacName(k) then w.nics[k].mac
    else if name == BusName(k) then w.nics[k].bus
    else Lookup(w, env, name, k + 1)
  }

  /** The value of a word: references are replaced innermost first. */
  function Expand(w: World, env: Env, word: Word): (v: string)
    decreases word
  {
    match word
    case Empty => ""
    case Lit(t, r) => t + Expand(w, env, r)
    case Ref(n, r) => Lookup(w, env, Expand(w, env, n), 0) + Expand(w, env, r)
  }

  /** The values of several words. */
  function ExpandAll(w: World, env: Env, words: seq<Word>): (vs: seq<string>)
    ensures |vs| == |words|
  {
    seq(|words|, i requires 0 <= i < |words| => Expand(w, env, words[i]))
  }

  /** The state between lines: what is left of the script, the settings, the device commands
      and pauses, and the addresses chained to so far. */
  datatype State =
    | Running(rest: Lines, env: Env, done: seq<seq<string>>, tried: seq<string>)
    | Exited(tried: seq<string>)
    | Failed(tried: seq<string>)

  /** The lines after the first label called name. */
  function After(script: Lines, name: string): Lines {
    match script
    case Nil => Nil
    case Cons(l, tail) => if l == Label(name) then tail else After(tail, name)
  }

  predicate HasLabel(script: Lines, name: string) {
    match script
    case Nil => false
    case Cons(l, tail) => l == Label(name) || HasLabel(tail, name)
  }

  /** Runs a line from clause c on. Whether this clause is executed follows from the outcome
      of the last command executed before it. */
  function RunClauses(script: Lines, w: World, c: Clauses, skip: bool, ok: bool, st: State): (r: State)
    requires st.Running?
    decreases c
  {
    var (ok', st') := if skip then (ok, st) else RunCmd(script, w, c.cmd, st);
    if !st'.Running? || (!skip && c.cmd.Goto?) then st'
    else
      match c
      case Last(_) => if ok' then st' else Failed(st'.tried)
      case AndThen(_, rest) => RunClauses(script, w, rest, !ok', ok', st')
      case OrElse(_, rest) => RunClauses(script, w, rest, ok', ok', st')
      case Always(_, rest) => RunClauses(script, w, rest, false, ok', st')
  }

  function RunCmd(script: Lines, w: World, c: Cmd, st: State): (r: (bool, State))
    requires st.Running?
  {
    match c
    case Nop => (true, st)
    case Set(n, v) => (true, st.(env := st.env[Expand(w, st.env, n) := Str(Expand(w, st.env, v))]))
    case SetInt(n, k) => (true, st.(env := st.env[n := Num(k)]))
    case Isset(x) => (Expand(w, st.env, x) != "", st)
    case Iseq(a, b) => (Expand(w, st.env, a) == Expand(w, st.env, b), st)
    case Goto(l) => if HasLabel(script, l) then (true, st.(rest := After(script, l))) else (false, Failed(st.tried))
    case Echo(_) => (true, st)
    case Inc(n) =>
      if n in st.env && st.env[n].Num? then (true, st.(env := st.env[n := Num(st.env[n].n + 1)])) else (false, st)
    case Chain(u) =>
      var url := Expand(w, st.env, u);
      (w.reach(|st.tried|, url), st.(tried := st.tried + [url]))
    case Device(verb, args) => (w.dev(|st.done|), st.(done := st.done + [[verb] + ExpandAll(w, st.env, args)]))
    case Sleep(n) => (true, st.(done := st.done + [["sleep", Dec(n)]]))
    case Exit(_) => (true, Exited(st.tried))
    case Unknown(_) => (false, st)
  }

  /** One line. A line whose last command failed ends the script. */
  function Step(script: Lines, w: World, st: State): (r: State)
  {
    if !st.Running? then st
    else
      match st.rest
      case Nil => Exited(st.tried)
      case Cons(Label(_), tail) => st.(rest := tail)
      case Cons(Note(_), tail) => st.(rest := tail)
      case Cons(Run(c), tail) => RunClauses(script, w, c, false, true, st.(rest := tail))
  }

  function Steps(script: Lines, w: World, st: State, n: nat): (r: State)
    decreases n
  {
    if n == 0 then st else Steps(script, w, Step(script, w, st), n - 1)
  }

  lemma {:induction false} StepsAdd(script: Lines, w: World, a: State, m: nat, n: nat)
    ensures Steps(script, w, a, m + n) == Steps(script, w, Steps(script, w, a, m), n)
    decreases m
  {
    if m > 0 {
      StepsAdd(script, w, Step(script, w, a), m - 1, n);
    }
  }

  // ---- settings ----

  lemma {:induction false} LookupDevice(w: World, env: Env, i: nat, k: nat)
    requires k <= i < |w.nics|
    ensures Lookup(w, env, MacName(i), k) == w.nics[i].mac
    ensures Lookup(w, env, BusName(i), k) == w.nics[i].bus
    decreases i - k
  {
    NamesDistinct(i, k);
    if k < i {
      NamesDistinct(k, i);
      LookupDevice(w, env, i, k + 1);
      hide MacName, BusName;
    }
  }

  lemma NamesDistinct(i: nat, k: nat)
    ensures MacName(i) == MacName(k) ==> i == k
    ensures BusName(i) == BusName(k) ==> i == k
    ensures MacName(i) != BusName(k)
  {
    if MacName(i) == MacName(k) {
      assert MacName(i)[3..|MacName(i)| - 4] == Dec(i) && MacName(k)[3..|MacName(k)| - 4] == Dec(k);
      DecInjective(i, k);
    }
    if BusName(i) == BusName(k) {
      assert BusName(i)[3..|BusName(i)| - 16] == Dec(i) && BusName(k)[3..|BusName(k)| - 16] == Dec(k);
      DecInjective(i, k);
    }
    assert MacName(i)[|MacName(i)| - 1] == 'c' && BusName(k)[|BusName(k)| - 1] == 'n';
  }

  /** Past the last device its settings are unset. */
  lemma {:induction false} LookupPastEnd(w: World, env: Env, i: nat, k: nat)
    requires k <= |w.nics| <= i && MacName(i) !in env
    ensures Lookup(w, env, MacName(i), k) == ""
    decreases |w.nics| - k
  {
    if k < |w.nics| {
      NamesDistinct(i, k);
      LookupPastEnd(w, env, i, k + 1);
    }
  }

  /** Names of device settings start with "ne". */
  predicate DeviceLike(name: string) { |name| >= 2 && name[0] == 'n' && name[1] == 'e' }

  lemma {:induction false} LookupPlain(w: World, env: Env, name: string, k: nat)
    requires k <= |w.nics| && !DeviceLike(name)
    ensures Lookup(w, env, name, k) == if name in env then env[name].Show() else ""
    decreases |w.nics| - k
  {
    if k < |w.nics| {
      assert DeviceLike(MacName(k)) && DeviceLike(BusName(k));
      LookupPlain(w, env, name, k + 1);
    }
  }
}
