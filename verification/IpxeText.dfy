/** Scripts as text. */
module IpxeText {
  import opened Text
  import opened Nodes
  import opened IpxeLang
  import opened IpxeScript

  function PrintAll(ws: seq<Word>): (r: seq<string>)
    ensures |r| == |ws|
  {
    seq(|ws|, i requires 0 <= i < |ws| => ws[i].Print())
  }

  /** The words of a command as written. */
  function CmdWords(c: Cmd): seq<string> {
    match c
    case Nop => []
    case Set(n, v) => ["set", n.Print(), v.Print()]
    case SetInt(n, k) => ["set", n + ":int32", Dec(k)]
    case Isset(w) => ["isset", w.Print()]
    case Iseq(a, b) => ["iseq", a.Print(), b.Print()]
    case Goto(l) => ["goto", l]
    case Echo(ws) => ["echo"] + PrintAll(ws)
    case Inc(n) => ["inc", n]
    case Chain(u) => ["chain", "--autofree", u.Print()]
    case Device(verb, args) => [verb] + PrintAll(args)
    case Sleep(s) => ["sleep", Dec(s)]
    case Exit(k) => ["exit", Dec(k)]
    case Unknown(ws) => ws
  }

  function ClauseWords(c: Clauses): seq<string> {
    match c
    case Last(cmd) => CmdWords(cmd)
    case AndThen(cmd, rest) => CmdWords(cmd) + ["&&"] + ClauseWords(rest)
    case OrElse(cmd, rest) => CmdWords(cmd) + ["||"] + ClauseWords(rest)
    case Always(cmd, rest) => CmdWords(cmd) + [";"] + ClauseWords(rest)
  }

  function LineText(l: Line): string {
    match l
    case Label(n) => ":" + n
    case Note(t) => t
    case Run(c) => Join(ClauseWords(c))
  }

  function TextOf(xs: Lines): string {
    match xs
    case Nil => ""
    case Cons(l, tail) => LineText(l) + "\n" + TextOf(tail)
  }

  lemma TextCons(l: Line, tail: Lines)
    ensures TextOf(Cons(l, tail)) == LineText(l) + "\n" + TextOf(tail)
  {
  }

  /** The script as it is stored in the boot image; trailing slashes of the proxy address are dropped. */
  function Render(n: Node, mac: string, proxyBase: string, fmt: string -> string): string {
    TextOf(Script(n, mac, TrimSlashes(proxyBase), fmt))
  }
}
