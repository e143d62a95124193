/** Every boot attempt of every run is made with the network of the node set up. */
module IpxeAttempts {
  import opened Text
  import opened Nodes
  import opened IpxeLang
  import opened IpxeScript
  import opened IpxeSetup
  import opened IpxePass
  import opened IpxeText
  import opened IpxeReader
  import opened IpxeBoot

  /** Step t of a run is either on the way to b or a step of the run from b. */
  lemma Onward(script: Lines, w: World, n: Node, a: State, b: State, t: nat) returns (m: nat)
    requires Goes(script, w, n, a, b) && a != b
    ensures m > 0 && (t < m ==> Ready(n, Steps(script, w, a, t)))
    ensures t >= m ==> Steps(script, w, a, t) == Steps(script, w, b, t - m)
  {
    m :| GoesIn(script, w, n, a, b, m);
    assert Steps(script, w, a, 0) == a;
    hide Ready, Steps;
    if t >= m {
      StepsAdd(script, w, a, m, t - m);
    }
  }

  lemma {:induction false} ExitedStays(script: Lines, w: World, st: State, t: nat)
    requires st.Exited?
    ensures Steps(script, w, st, t) == st
    decreases t
  {
    if t > 0 {
      ExitedStays(script, w, st, t - 1);
    }
  }

  lemma Heads(n: Node, mac: string, base: string, fmt: string -> string)
    ensures Loop(n, mac, base) != ENDPASS && Top(n, mac, base) != ENDPASS && Top(n, mac, base) != Loop(n, mac, base)
    ensures Script(n, mac, base, fmt) != Top(n, mac, base)
  {
    hide Tests, Body;
    assert Loop(n, mac, base).head.clauses.OrElse?;
    assert Top(n, mac, base).head == Do(SetInt("nic", 0)) && ENDPASS.head.clauses.cmd.Echo?;
    assert Script(n, mac, base, fmt).head == Note("#!ipxe");
  }

  lemma OtherDevice(n: Node, mac: string, base: string, fmt: string -> string, i: nat, a: State, b: State)
    requires AtLoop(n, mac, base, fmt, i, a) && (AtLoop(n, mac, base, fmt, i + 1, b) || b.Exited?)
    ensures a != b
  {
    hide Prepared, Loop;
  }

  lemma {:induction false} FromLoop(w: World, n: Node, mac: string, base: string, fmt: string -> string, i: nat, st: State, t: nat)
    requires AtLoop(n, mac, base, fmt, i, st) && i <= |w.nics| && forall j :: 0 <= j < |w.nics| ==> w.nics[j].mac != ""
    ensures Ready(n, Steps(Script(n, mac, base, fmt), w, st, t))
    decreases t
  {
    var script := Script(n, mac, base, fmt);
    Heads(n, mac, base, fmt);
    hide Script, Loop, Top, Prepared, AtNic, Goes, Ready, Steps, Selected, Url;
    if i == |w.nics| {
      GuardRun(script, w, n, mac, base, fmt, i, st);
      var on := st.(rest := ENDPASS);
      var m := Onward(script, w, n, st, on, t);
      if t >= m {
        FromEnd(w, n, mac, base, fmt, on, t - m);
      }
    } else {
      var on := DeviceRun(script, w, n, mac, base, fmt, i, st);
      OtherDevice(n, mac, base, fmt, i, st, on);
      var m := Onward(script, w, n, st, on, t);
      if t >= m {
        if on.Exited? {
          ExitedStays(script, w, on, t - m);
          NoChain(n, on);
        } else {
          FromLoop(w, n, mac, base, fmt, i + 1, on, t - m);
        }
      }
    }
  }

  lemma NoChain(n: Node, st: State)
    requires st.Exited?
    ensures Ready(n, st)
  {
  }

  lemma {:induction false} FromEnd(w: World, n: Node, mac: string, base: string, fmt: string -> string, st: State, t: nat)
    requires st.Running? && st.rest == ENDPASS && Prepared(n, mac, fmt, st.env)
    requires forall j :: 0 <= j < |w.nics| ==> w.nics[j].mac != ""
    ensures Ready(n, Steps(Script(n, mac, base, fmt), w, st, t))
    decreases t
  {
    var script := Script(n, mac, base, fmt);
    Heads(n, mac, base, fmt);
    hide Script, Top, Prepared, Goes, Ready, Steps;
    var on := BackToTop(w, n, mac, base, fmt, st);
    var m := Onward(script, w, n, st, on, t);
    if t >= m {
      FromTop(w, n, mac, base, fmt, on, t - m);
    }
  }

  lemma {:induction false} FromTop(w: World, n: Node, mac: string, base: string, fmt: string -> string, st: State, t: nat)
    requires st.Running? && st.rest == Top(n, mac, base) && Prepared(n, mac, fmt, st.env)
    requires forall j :: 0 <= j < |w.nics| ==> w.nics[j].mac != ""
    ensures Ready(n, Steps(Script(n, mac, base, fmt), w, st, t))
    decreases t
  {
    var script := Script(n, mac, base, fmt);
    Heads(n, mac, base, fmt);
    hide Script, Top, Loop, Prepared, Goes, Ready, Steps;
    var on := EnterLoop(script, w, n, mac, base, fmt, st);
    var m := Onward(script, w, n, st, on, t);
    if t >= m {
      FromLoop(w, n, mac, base, fmt, 0, on, t - m);
    }
  }

  /** At every step of every run: if the next line is a boot attempt, then it is made on a device on
      which the address, netmask, gateway and name server of the node are set, for the interface of
      its VLAN if it has one, and which was brought up right before. */
  lemma EveryAttemptReady(w: World, n: Node, mac: string, base: string, fmt: string -> string, env: Env, t: nat)
    requires NoMacs(env) && forall j :: 0 <= j < |w.nics| ==> w.nics[j].mac != ""
    ensures var script := Script(n, mac, base, fmt); Ready(n, Steps(script, w, Running(script, env, [], []), t))
  {
    var script := Script(n, mac, base, fmt);
    Heads(n, mac, base, fmt);
    hide Script, Top, Prepared, Goes, Ready, Steps;
    var on := Begin(w, n, mac, base, fmt, env);
    var st := Running(script, env, [], []);
    var m := Onward(script, w, n, st, on, t);
    if t >= m {
      FromTop(w, n, mac, base, fmt, on, t - m);
    }
  }

  /** The same for the rendered script. */
  lemma AttemptsOfText(w: World, n: Node, mac: string, proxyBase: string, fmt: string -> string, env: Env, t: nat)
    requires SafeFields(n, mac, TrimSlashes(proxyBase), fmt)
    requires NoMacs(env) && forall j :: 0 <= j < |w.nics| ==> w.nics[j].mac != ""
    ensures var script := ReadText(Render(n, mac, proxyBase, fmt)); Ready(n, Steps(script, w, Running(script, env, [], []), t))
  {
    RenderedReads(n, mac, proxyBase, fmt);
    hide SafeFields, Script, ReadText, Render, Ready, Steps;
    EveryAttemptReady(w, n, mac, TrimSlashes(proxyBase), fmt, env, t);
  }
}
