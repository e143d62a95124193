/** Which rack controllers serve DHCP: the choice of primary and secondary, and its effect on
    the VLAN. An empty name stands for no rack. */
module RackAssignment {

  datatype Vlan = Vlan(primary: string, secondary: string, dhcp: bool)

  /** The racks that run, and the list of active ones: those running and those with a pod, once
      each, in the order of sorting. */
  ghost predicate IsActive(running: set<string>, active: seq<string>) {
    && (forall r :: r in running ==> r in active)
    && "" !in active
    && (forall i, j :: 0 <= i < j < |active| ==> active[i] != active[j])
  }

  // ---- the reference ----

  /** The first rack in the list that is not other; empty if there is none. */
  function FirstOther(racks: seq<string>, other: string): (r: string)
    ensures (r in racks && r != other) || (r == "" && forall x :: x in racks ==> x == other)
  {
    if racks == [] then ""
    else if racks[0] != other then racks[0]
    else
      assert racks == [racks[0]] + racks[1..];
      FirstOther(racks[1..], other)
  }

  lemma {:induction false} FirstOtherIs(racks: seq<string>, other: string, k: nat)
    requires k < |racks| && racks[k] != other && forall i :: 0 <= i < k ==> racks[i] == other
    ensures FirstOther(racks, other) == racks[k]
  {
    if k > 0 {
      FirstOtherIs(racks[1..], other, k - 1);
    }
  }

  function Kept(running: set<string>, current: string): string {
    if current in running then current else ""
  }

  function Primary(running: set<string>, active: seq<string>, v: Vlan): (r: string) {
    if v.primary in running then v.primary else FirstOther(active, Kept(running, v.secondary))
  }

  function Secondary(running: set<string>, active: seq<string>, v: Vlan): (r: string) {
    if v.secondary in running then v.secondary
    else if |active| >= 2 then FirstOther(active, Primary(running, active, v))
    else ""
  }

  /** The VLAN after the update. */
  function Updated(running: set<string>, active: seq<string>, v: Vlan): Vlan {
    var p, s := Primary(running, active, v), Secondary(running, active, v);
    if p == "" then v
    else if s == "" then v.(primary := p, dhcp := true)
    else Vlan(p, s, true)
  }

  // ---- the script ----

  method FindOther(racks: seq<string>, other: string) returns (r: string)
    ensures r == FirstOther(racks, other)
  {
    r := "";
    var i := 0;
    while i < |racks|
      invariant 0 <= i <= |racks| && r == ""
      invariant FirstOther(racks, other) == FirstOther(racks[i..], other)
    {
      if racks[i] != other {
        r := racks[i];
        break;
      }
      i := i + 1;
    }
  }

  /** The targets, assigned step by step. */
  method Assign(running: set<string>, active: seq<string>, v: Vlan) returns (primary: string, secondary: string)
    requires IsActive(running, active)
    ensures primary == Primary(running, active, v) && secondary == Secondary(running, active, v)
  {
    primary, secondary := "", "";
    if v.primary != "" && v.primary in running {
      primary := v.primary;
    }
    if v.secondary != "" && v.secondary in running {
      secondary := v.secondary;
    }
    if primary == "" && |active| >= 1 {
      primary := FindOther(active, secondary);
    }
    if secondary == "" && |active| >= 2 {
      secondary := FindOther(active, primary);
    }
  }

  /** The updates sent, which are no more than the differences call for. */
  method Update(running: set<string>, active: seq<string>, v: Vlan) returns (w: Vlan)
    requires IsActive(running, active)
    ensures w == Updated(running, active, v)
  {
    var primary, secondary := Assign(running, active, v);
    w := v;
    if primary == "" {
      return;
    }
    var changePrimary := v.primary != primary;
    var enable := !v.dhcp;
    if secondary == "" {
      if !changePrimary && !enable {
        return;
      }
      if enable && changePrimary {
        w := w.(primary := primary, dhcp := true);
      } else {
        if changePrimary {
          w := w.(primary := primary);
        }
        if enable {
          w := w.(dhcp := true);
        }
      }
    } else {
      var changeSecondary := v.secondary != secondary;
      if !changePrimary && !changeSecondary && !enable {
        return;
      }
      if enable && (changePrimary || changeSecondary) {
        w := w.(primary := primary, secondary := secondary, dhcp := true);
      } else {
        if changePrimary || changeSecondary {
          w := w.(primary := primary, secondary := secondary);
        }
        if enable {
          w := w.(dhcp := true);
        }
      }
    }
  }

  // ---- what the assignment keeps and fills ----

  /** A rack in office that runs stays in office. */
  lemma KeepsRunning(running: set<string>, active: seq<string>, v: Vlan)
    requires IsActive(running, active)
    ensures v.primary in running ==> Updated(running, active, v).primary == v.primary
    ensures v.secondary in running ==> Updated(running, active, v).secondary == v.secondary
  {
  }

  /** With two active racks both offices are filled, with active racks. */
  lemma FillsBoth(running: set<string>, active: seq<string>, v: Vlan)
    requires IsActive(running, active) && |active| >= 2
    ensures Primary(running, active, v) in active && Secondary(running, active, v) in active
    ensures Updated(running, active, v) == Vlan(Primary(running, active, v), Secondary(running, active, v), true)
  {
    assert active[0] in active && active[1] in active;
  }

  /** With one active rack the primary is left vacant only if that rack is the running
      secondary; otherwise it becomes primary, DHCP is on and the secondary stays. With none nothing
      changes. */
  lemma OneActive(running: set<string>, active: seq<string>, v: Vlan)
    requires IsActive(running, active) && |active| <= 1
    ensures Primary(running, active, v) == "" <==>
      active == [] || (active[0] == v.secondary && v.secondary in running && v.primary !in running)
    ensures Primary(running, active, v) == "" ==> Updated(running, active, v) == v
    ensures Primary(running, active, v) != "" ==> Updated(running, active, v) == Vlan(active[0], v.secondary, true)
  {
    assert |active| == 1 ==> active[0] in active;
  }

  /** The targets are the same rack only if the same running rack held both offices. */
  lemma TargetsDistinct(running: set<string>, active: seq<string>, v: Vlan)
    requires IsActive(running, active) && Primary(running, active, v) != ""
    ensures Primary(running, active, v) == Secondary(running, active, v) <==>
      v.primary == v.secondary && v.primary in running
  {
  }

  /** From distinct offices, the VLAN ends up with one rack in both exactly when the only active
      rack is the secondary and it does not run: it becomes primary and stays secondary. */
  lemma DoubledExactly(running: set<string>, active: seq<string>, v: Vlan)
    requires IsActive(running, active) && v.primary != v.secondary
    ensures Updated(running, active, v).primary == Updated(running, active, v).secondary <==>
      active == [v.secondary] && v.secondary !in running
  {
    if |active| == 1 {
      assert active[0] in active;
      assert active == [active[0]];
    } else if |active| >= 2 {
      FillsBoth(running, active, v);
      TargetsDistinct(running, active, v);
      assert |active| != |[v.secondary]|;
    }
  }

  /** An instance of it. */
  lemma Doubled()
    ensures IsActive({}, ["b"])
    ensures Updated({}, ["b"], Vlan("a", "b", true)) == Vlan("b", "b", true)
  {
  }

  // ---- applied again ----

  /** Applying the assignment again, to the same racks, changes nothing. */
  lemma FixedPoint(running: set<string>, active: seq<string>, v: Vlan)
    requires IsActive(running, active)
    ensures Updated(running, active, Updated(running, active, v)) == Updated(running, active, v)
  {
    var w := Updated(running, active, v);
    if |active| == 1 {
      assert active[0] in active;
    }
  }
}
