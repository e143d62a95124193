/** The rackd watchdog: when it restarts the rack controller, over every run of checks. */
module Watchdog {

  /** What one check observes. The clock is read only where the script reads it: after the
      restart of a failed unit, and once a degraded status has reached the threshold. */
  datatype Observation =
    | Inactive(failed: bool, at: int)
    | Unreachable
    | Running
    | Degraded(at: int)

  datatype Action = Nothing | UnitRestart | StatusRestart

  /** FAILURE_THRESHOLD, COOLDOWN and MAX_RESTARTS. */
  datatype Limits = Limits(threshold: int, cooldown: int, maxRestarts: int)

  /** A check and what it led to. */
  datatype Entry = Entry(seen: Observation, did: Action)

  // ---- the reference: what a history of checks means ----

  /** Degraded checks since the status was last running or last led to a restart. */
  function FailuresSince(h: seq<Entry>): nat {
    if h == [] then 0
    else
      var e := h[|h| - 1];
      if e.seen.Running? || e.did.StatusRestart? then 0
      else FailuresSince(h[..|h| - 1]) + if e.seen.Degraded? then 1 else 0
  }

  /** Restarts for a degraded status since it was last running. */
  function RestartsSince(h: seq<Entry>): nat {
    if h == [] then 0
    else
      var e := h[|h| - 1];
      if e.seen.Running? then 0
      else RestartsSince(h[..|h| - 1]) + if e.did.StatusRestart? then 1 else 0
  }

  /** The time of the latest restart of either kind; zero before the first. */
  function LastRestart(h: seq<Entry>): int {
    if h == [] then 0
    else
      var e := h[|h| - 1];
      if !e.did.Nothing? && HasTime(e.seen) then e.seen.at else LastRestart(h[..|h| - 1])
  }

  predicate HasTime(o: Observation) { o.Inactive? || o.Degraded? }

  /** What the watchdog is to do at a check, given the history. */
  function Expected(l: Limits, h: seq<Entry>, o: Observation): Action {
    match o
    case Inactive(failed, _) => if failed then UnitRestart else Nothing
    case Unreachable => Nothing
    case Running => Nothing
    case Degraded(now) =>
      if && FailuresSince(h) + 1 >= l.threshold
         && now - LastRestart(h) >= l.cooldown
         && RestartsSince(h) < l.maxRestarts
      then StatusRestart else Nothing
  }

  ghost predicate IsRun(l: Limits, h: seq<Entry>) {
    forall i :: 0 <= i < |h| ==> h[i].did == Expected(l, h[..i], h[i].seen)
  }

  // ---- the script ----

  class Watchdog {
    const limits: Limits
    var failures: nat
    var restarts: nat
    var lastRestart: int

    /** The counters are the history's. */
    ghost predicate Agrees(h: seq<Entry>)
      reads this
    {
      failures == FailuresSince(h) && restarts == RestartsSince(h) && lastRestart == LastRestart(h)
    }

    constructor (limits: Limits)
      ensures this.limits == limits && Agrees([])
    {
      this.limits := limits;
      failures := 0;
      restarts := 0;
      lastRestart := 0;
    }

    /** The body of the loop. */
    method Check(o: Observation, ghost h: seq<Entry>) returns (did: Action)
      requires Agrees(h)
      modifies this
      ensures did == Expected(limits, h, o) && Agrees(h + [Entry(o, did)])
    {
      did := Nothing;
      match o
      case Inactive(failed, at) =>
        if failed {
          did := UnitRestart;
          lastRestart := at;
        }
      case Unreachable =>
      case Running =>
        failures := 0;
        restarts := 0;
      case Degraded(now) =>
        failures := failures + 1;
        if failures >= limits.threshold && now - lastRestart >= limits.cooldown && restarts < limits.maxRestarts {
          did := StatusRestart;
          restarts := restarts + 1;
          failures := 0;
          lastRestart := now;
        }
      assert (h + [Entry(o, did)])[..|h|] == h;
    }
  }

  /** The loop, over any number of checks. */
  method Watch(limits: Limits, seen: seq<Observation>) returns (done: seq<Action>)
    ensures |done| == |seen|
    ensures IsRun(limits, seq(|seen|, i requires 0 <= i < |seen| && |done| == |seen| => Entry(seen[i], done[i])))
  {
    var w := new Watchdog(limits);
    done := [];
    ghost var h: seq<Entry> := [];
    for i := 0 to |seen|
      invariant w.limits == limits && |done| == |h| == i
      invariant forall k :: 0 <= k < i ==> h[k] == Entry(seen[k], done[k])
      invariant w.Agrees(h) && IsRun(limits, h)
    {
      var did := w.Check(seen[i], h);
      RunStep(limits, h, Entry(seen[i], did));
      h := h + [Entry(seen[i], did)];
      done := done + [did];
    }
    assert h == seq(|seen|, i requires 0 <= i < |seen| && |done| == |seen| => Entry(seen[i], done[i]));
  }

  lemma RunStep(l: Limits, h: seq<Entry>, e: Entry)
    requires IsRun(l, h) && e.did == Expected(l, h, e.seen)
    ensures IsRun(l, h + [e])
  {
    var r := h + [e];
    forall i | 0 <= i < |r|
      ensures r[i].did == Expected(l, r[..i], r[i].seen)
    {
      if i < |h| {
        assert r[..i] == h[..i];
      } else {
        assert r[..i] == h;
      }
    }
  }

  lemma RunPrefix(l: Limits, h: seq<Entry>, n: nat)
    requires IsRun(l, h) && n <= |h|
    ensures IsRun(l, h[..n])
  {
    forall i | 0 <= i < n
      ensures h[..n][i].did == Expected(l, h[..n][..i], h[..n][i].seen)
    {
      assert h[..n][..i] == h[..i];
    }
  }

  // ---- spacing ----

  /** The clock readings of a run never go back. */
  ghost predicate ClockForward(h: seq<Entry>) {
    forall i, j :: 0 <= i < j < |h| && HasTime(h[i].seen) && HasTime(h[j].seen) ==> h[i].seen.at <= h[j].seen.at
  }

  /** The remembered time is that of some restart, and no earlier than any other one. */
  lemma {:induction false} LastRestartLatest(l: Limits, h: seq<Entry>, j: nat)
    requires IsRun(l, h) && ClockForward(h) && j < |h| && !h[j].did.Nothing?
    ensures HasTime(h[j].seen) && LastRestart(h) >= h[j].seen.at
  {
    assert h[j].did == Expected(l, h[..j], h[j].seen);
    var p := h[..|h| - 1];
    if j < |p| {
      RunPrefix(l, h, |p|);
      assert ClockForward(p);
      LastRestartLatest(l, p, j);
    }
  }

  /** A restart for a degraded status comes at least COOLDOWN after every earlier restart of
      either kind. */
  lemma Spaced(l: Limits, h: seq<Entry>, j: nat, i: nat)
    requires IsRun(l, h) && ClockForward(h) && j < i < |h|
    requires h[i].did.StatusRestart? && !h[j].did.Nothing?
    ensures HasTime(h[j].seen) && HasTime(h[i].seen) && h[i].seen.at - h[j].seen.at >= l.cooldown
  {
    RunPrefix(l, h, i);
    assert ClockForward(h[..i]);
    LastRestartLatest(l, h[..i], j);
    assert h[i].did == Expected(l, h[..i], h[i].seen);
  }

  // ---- counts ----

  function CountRestarts(h: seq<Entry>): nat {
    if h == [] then 0
    else CountRestarts(h[..|h| - 1]) + if h[|h| - 1].did.StatusRestart? then 1 else 0
  }

  function CountDegraded(h: seq<Entry>): nat {
    if h == [] then 0
    else CountDegraded(h[..|h| - 1]) + if h[|h| - 1].seen.Degraded? then 1 else 0
  }

  lemma RestartMeans(l: Limits, h: seq<Entry>)
    requires IsRun(l, h) && h != [] && h[|h| - 1].did.StatusRestart?
    ensures h[|h| - 1].seen.Degraded?
    ensures FailuresSince(h[..|h| - 1]) + 1 >= l.threshold && RestartsSince(h[..|h| - 1]) < l.maxRestarts
  {
    assert h[|h| - 1].did == Expected(l, h[..|h| - 1], h[|h| - 1].seen);
  }

  /** While the status is not seen running, at most MAX_RESTARTS restarts: from any check j on. */
  lemma {:induction false} AtMostMax(l: Limits, h: seq<Entry>, j: nat)
    requires IsRun(l, h) && j <= |h| && l.maxRestarts >= 0
    requires forall i :: j <= i < |h| ==> !h[i].seen.Running?
    ensures CountRestarts(h[j..]) <= RestartsSince(h) && CountRestarts(h[j..]) <= l.maxRestarts
    decreases |h|
  {
    if j < |h| {
      var p := h[..|h| - 1];
      RunPrefix(l, h, |p|);
      AtMostMax(l, p, j);
      assert h[j..][..|h| - j - 1] == p[j..];
      if h[|h| - 1].did.StatusRestart? {
        RestartMeans(l, h);
      }
    }
  }

  /** Every restart is paid for by FAILURE_THRESHOLD degraded checks of its own. */
  lemma {:induction false} Paid(l: Limits, h: seq<Entry>)
    requires IsRun(l, h)
    ensures l.threshold * CountRestarts(h) + FailuresSince(h) <= CountDegraded(h)
  {
    if h == [] {
      assert l.threshold * 0 == 0;
    } else {
      var p := h[..|h| - 1];
      RunPrefix(l, h, |p|);
      Paid(l, p);
      if h[|h| - 1].did.StatusRestart? {
        RestartMeans(l, h);
        assert l.threshold * (CountRestarts(p) + 1) == l.threshold * CountRestarts(p) + l.threshold;
      }
    }
  }

  // ---- the counters and the actions in words ----

  /** The failures counted are the degraded checks after the last check that found the status running
      or restarted for it. */
  lemma {:induction false} FailuresMean(h: seq<Entry>, k: nat)
    requires k <= |h| && forall i :: k <= i < |h| ==> !h[i].seen.Running? && !h[i].did.StatusRestart?
    requires k > 0 ==> h[k - 1].seen.Running? || h[k - 1].did.StatusRestart?
    ensures FailuresSince(h) == CountDegraded(h[k..])
    decreases |h|
  {
    if k < |h| {
      var p := h[..|h| - 1];
      FailuresMean(p, k);
      assert h[k..][..|h| - k - 1] == p[k..];
    } else {
      assert h[k..] == [];
    }
  }

  /** The restarts counted are those after the last check that found the status running. */
  lemma {:induction false} RestartsMean(h: seq<Entry>, k: nat)
    requires k <= |h| && forall i :: k <= i < |h| ==> !h[i].seen.Running?
    requires k > 0 ==> h[k - 1].seen.Running?
    ensures RestartsSince(h) == CountRestarts(h[k..])
    decreases |h|
  {
    if k < |h| {
      var p := h[..|h| - 1];
      RestartsMean(p, k);
      assert h[k..][..|h| - k - 1] == p[k..];
    } else {
      assert h[k..] == [];
    }
  }

  /** The time remembered is that of the last restart, zero before the first. */
  lemma {:induction false} LastRestartMeans(h: seq<Entry>, k: nat)
    requires k <= |h| && forall i :: k <= i < |h| ==> h[i].did.Nothing?
    requires k > 0 ==> !h[k - 1].did.Nothing? && HasTime(h[k - 1].seen)
    ensures LastRestart(h) == if k > 0 then h[k - 1].seen.at else 0
    decreases |h|
  {
    if k < |h| {
      LastRestartMeans(h[..|h| - 1], k);
    }
  }

  /** In every run: a check restarts a failed unit at once and always, and does so for nothing else;
      a restart for the status comes only at a degraded check. */
  lemma UnitRestartExactly(l: Limits, h: seq<Entry>, i: nat)
    requires IsRun(l, h) && i < |h|
    ensures h[i].did.UnitRestart? <==> h[i].seen.Inactive? && h[i].seen.failed
    ensures h[i].did.StatusRestart? ==> h[i].seen.Degraded?
  {
    assert h[i].did == Expected(l, h[..i], h[i].seen);
    hide FailuresSince, RestartsSince, LastRestart;
  }

  // ---- progress ----

  /** As long as degraded checks lead to no restart, they all count. */
  lemma {:induction false} Accumulate(l: Limits, h: seq<Entry>, j: nat)
    requires IsRun(l, h) && j <= |h|
    requires forall i :: j <= i < |h| ==> h[i].seen.Degraded? && h[i].did.Nothing?
    ensures FailuresSince(h) >= |h| - j && LastRestart(h) == LastRestart(h[..j])
    ensures RestartsSince(h) == RestartsSince(h[..j])
    decreases |h|
  {
    hide IsRun;
    if j < |h| {
      var p := h[..|h| - 1];
      RunPrefix(l, h, |p|);
      Accumulate(l, p, j);
      assert p[..j] == h[..j];
    } else {
      assert h[..j] == h;
    }
  }

  /** The last of FAILURE_THRESHOLD degraded checks in a row, if none before it did. */
  lemma LastRestarts(l: Limits, p: seq<Entry>, e: Entry, j: nat)
    requires IsRun(l, p) && j <= |p| && |p| + 1 - j >= l.threshold
    requires forall i :: j <= i < |p| ==> p[i].seen.Degraded? && p[i].did.Nothing?
    requires e.seen.Degraded? && e.did == Expected(l, p, e.seen)
    requires e.seen.at - LastRestart(p[..j]) >= l.cooldown && RestartsSince(p[..j]) < l.maxRestarts
    ensures e.did.StatusRestart?
  {
    Accumulate(l, p, j);
    hide IsRun, FailuresSince, LastRestart, RestartsSince;
  }

  lemma DegradedDoes(l: Limits, h: seq<Entry>, i: nat)
    requires IsRun(l, h) && i < |h| && h[i].seen.Degraded?
    ensures h[i].did == Expected(l, h[..i], h[i].seen) && !h[i].did.UnitRestart?
  {
  }

  /** FAILURE_THRESHOLD degraded checks in a row, the last of them past the cooldown and with
      restarts left, include a restart. */
  lemma RestartsInTime(l: Limits, h: seq<Entry>, j: nat)
    requires IsRun(l, h) && j < |h| && |h| - j >= l.threshold
    requires forall i :: j <= i < |h| ==> h[i].seen.Degraded?
    requires h[|h| - 1].seen.at - LastRestart(h[..j]) >= l.cooldown
    requires RestartsSince(h[..j]) < l.maxRestarts
    ensures exists i :: j <= i < |h| && h[i].did.StatusRestart?
  {
    hide IsRun, Expected, FailuresSince, LastRestart, RestartsSince;
    var p, e := h[..|h| - 1], h[|h| - 1];
    if forall i :: j <= i < |p| ==> p[i].did.Nothing? {
      RunPrefix(l, h, |p|);
      DegradedDoes(l, h, |p|);
      assert p[..j] == h[..j];
      LastRestarts(l, p, e, j);
      assert h[|p|].did.StatusRestart?;
    } else {
      var i :| j <= i < |p| && !p[i].did.Nothing?;
      DegradedDoes(l, h, i);
      assert h[i].did.StatusRestart?;
    }
  }

  // ---- what the threshold does not ask for ----

  /** The degraded checks need not follow one another: checks that find the region
      unreachable or the unit inactive stand between them without starting the count again. */
  lemma {:induction false} GapsIgnored(h: seq<Entry>, gap: seq<Entry>)
    requires forall e :: e in gap ==> (e.seen.Unreachable? || e.seen.Inactive?) && !e.did.StatusRestart?
    ensures FailuresSince(h + gap) == FailuresSince(h) && RestartsSince(h + gap) == RestartsSince(h)
  {
    if gap == [] {
      assert h + gap == h;
    } else {
      var n := |gap| - 1;
      assert gap[n] in gap;
      assert forall e :: e in gap[..n] ==> e in gap;
      GapsIgnored(h, gap[..n]);
      assert (h + gap)[..|h| + n] == h + gap[..n];
    }
  }

  lemma Extended(h: seq<Entry>, e: Entry)
    ensures FailuresSince(h + [e]) ==
      if e.seen.Running? || e.did.StatusRestart? then 0 else FailuresSince(h) + if e.seen.Degraded? then 1 else 0
    ensures RestartsSince(h + [e]) ==
      if e.seen.Running? then 0 else RestartsSince(h) + if e.did.StatusRestart? then 1 else 0
    ensures LastRestart(h + [e]) == if !e.did.Nothing? && HasTime(e.seen) then e.seen.at else LastRestart(h)
  {
    assert (h + [e])[..|h|] == h;
  }

  const SPLIT: seq<Entry> := [Entry(Degraded(0), Nothing)] + [Entry(Unreachable, Nothing)] + [Entry(Degraded(1), StatusRestart)]

  /** A run with a threshold of two that restarts although no two degraded checks follow one
      another. */
  lemma SplitRestarts()
    ensures IsRun(Limits(2, 0, 1), SPLIT) && SPLIT[2].did.StatusRestart?
    ensures SPLIT[1].seen.Unreachable? && |SPLIT| == 3
  {
    var l := Limits(2, 0, 1);
    var a, b, c := Entry(Degraded(0), Nothing), Entry(Unreachable, Nothing), Entry(Degraded(1), StatusRestart);
    assert FailuresSince([]) == 0 && RestartsSince([]) == 0 && LastRestart([]) == 0;
    RunStep(l, [], a);
    assert [] + [a] == [a];
    Extended([], a);
    RunStep(l, [a], b);
    Extended([a], b);
    RunStep(l, [a] + [b], c);
  }

  /** With m failures pending and nothing but running and degraded checks at the end, the last m
      are degraded. */
  lemma {:induction false} PendingDegraded(h: seq<Entry>, m: nat)
    requires FailuresSince(h) >= m && m <= |h|
    requires forall i :: |h| - m <= i < |h| ==> h[i].seen.Running? || h[i].seen.Degraded?
    ensures forall i :: |h| - m <= i < |h| ==> h[i].seen.Degraded?
  {
    if m > 0 {
      var p := h[..|h| - 1];
      PendingDegraded(p, m - 1);
      assert forall i :: 0 <= i < |p| ==> p[i] == h[i];
    }
  }

  lemma {:induction false} PendingLength(h: seq<Entry>)
    ensures FailuresSince(h) <= |h|
  {
    if h != [] {
      PendingLength(h[..|h| - 1]);
    }
  }

  /** At a restart for a degraded status: the last FAILURE_THRESHOLD checks were all degraded if
      and only if none of them found the region unreachable or the unit inactive. */
  lemma ConsecutiveExactly(l: Limits, h: seq<Entry>)
    requires IsRun(l, h) && h != [] && h[|h| - 1].did.StatusRestart? && l.threshold >= 1
    ensures l.threshold <= |h|
    ensures (forall i :: |h| - l.threshold <= i < |h| ==> h[i].seen.Degraded?) <==>
            (forall i :: |h| - l.threshold <= i < |h| ==> !h[i].seen.Unreachable? && !h[i].seen.Inactive?)
  {
    RestartMeans(l, h);
    var p := h[..|h| - 1];
    PendingLength(p);
    hide IsRun, FailuresSince, RestartsSince;
    var n := l.threshold - 1;
    if forall i :: |p| - n <= i < |h| ==> !h[i].seen.Unreachable? && !h[i].seen.Inactive? {
      assert forall i :: |p| - n <= i < |p| ==> p[i] == h[i];
      PendingDegraded(p, n);
    }
  }
}
