/** Reloads, additions and lookups of the node store in any order of their atomic steps. */
module NodeReloads {
  import opened Wrappers
  import opened Nodes
  import opened NodeStore

  /** The fields guarded by the store's lock. */
  datatype Fields = Fields(nodes: map<string, Node>, hash: Option<string>)

  /** A reload that has read the file, one that has found its content new, and one that is over. */
  datatype Phase = HasRead(bytes: string) | Differs(bytes: string) | Over(outcome: Outcome)

  datatype System = System(fields: Fields, reloads: map<nat, Phase>)

  /** The atomic steps: an addition; and of reload id, reading the file, comparing digests,
      giving up on invalid content, and replacing the nodes by what was parsed. */
  datatype Event =
    | Put(mac: string, node: Node)
    | Read(id: nat, file: FileState)
    | Compare(id: nat)
    | Reject(id: nat)
    | Swap(id: nat, parsed: map<string, Node>)

  const INIT := System(Fields(map[], None), map[])

  ghost predicate Enabled(lib: Library, s: System, e: Event) {
    match e
    case Put(_, _) => true
    case Read(id, _) => id !in s.reloads
    case Compare(id) => id in s.reloads && s.reloads[id].HasRead?
    case Reject(id) => id in s.reloads && s.reloads[id].Differs? && !Accepts(lib, s.reloads[id].bytes)
    case Swap(id, m) =>
      && id in s.reloads && s.reloads[id].Differs? && Accepts(lib, s.reloads[id].bytes)
      && Normalizes(lib.norm, lib.unmarshal(s.reloads[id].bytes).value.nodes, m)
  }

  ghost function Step(lib: Library, s: System, e: Event): System
    requires Enabled(lib, s, e)
  {
    match e
    case Put(mac, n) => s.(fields := s.fields.(nodes := s.fields.nodes[lib.norm(mac) := n]))
    case Read(id, file) =>
      s.(reloads := s.reloads[id :=
        match file
        case Missing => Over(Unchanged)
        case Unreadable => Over(Failed)
        case Content(b) => HasRead(b)])
    case Compare(id) =>
      var b := s.reloads[id].bytes;
      s.(reloads := s.reloads[id := if s.fields.hash == Some(lib.sum(b)) then Over(Unchanged) else Differs(b)])
    case Reject(id) => s.(reloads := s.reloads[id := Over(Failed)])
    case Swap(id, m) =>
      System(Fields(m, Some(lib.sum(s.reloads[id].bytes))), s.reloads[id := Over(Reloaded)])
  }

  ghost predicate IsRun(lib: Library, es: seq<Event>)
    decreases |es|, 0
  {
    es == [] || (IsRun(lib, es[..|es| - 1]) && Enabled(lib, After(lib, es[..|es| - 1]), es[|es| - 1]))
  }

  ghost function After(lib: Library, es: seq<Event>): System
    requires IsRun(lib, es)
    decreases |es|, 1
  {
    if es == [] then INIT else Step(lib, After(lib, es[..|es| - 1]), es[|es| - 1])
  }

  /** The system once reload id is over. */
  function Ended(s: System, id: nat, outcome: Outcome, fields: Fields): System {
    System(fields, s.reloads[id := Over(outcome)])
  }

  lemma Overwritten<K, V>(m: map<K, V>, k: K, a: V, b: V)
    ensures m[k := a][k := b] == m[k := b]
  {
  }

  /** A reload whose steps are not interleaved with others does what the store's own reload does: a
      missing file and known content change nothing, unreadable and invalid content fail, and new
      content replaces nodes and digest. */
  lemma ReloadAlone(lib: Library, s: System, id: nat, file: FileState, m: map<string, Node>)
    requires id !in s.reloads
    ensures file.Missing? ==> Step(lib, s, Read(id, file)) == Ended(s, id, Unchanged, s.fields)
    ensures file.Unreadable? ==> Step(lib, s, Read(id, file)) == Ended(s, id, Failed, s.fields)
    ensures file.Content? ==> AfterContent(lib, s, id, file.bytes, m)
  {
    hide Normalizes;
    if file.Content? {
      var b := file.bytes;
      var read := Step(lib, s, Read(id, file));
      Overwritten(s.reloads, id, HasRead(b), Over(Unchanged));
      Overwritten(s.reloads, id, HasRead(b), Differs(b));
      Overwritten(s.reloads, id, Differs(b), Over(Failed));
      Overwritten(s.reloads, id, Differs(b), Over(Reloaded));
    }
  }

  ghost predicate AfterContent(lib: Library, s: System, id: nat, b: string, m: map<string, Node>)
    requires id !in s.reloads
  {
    var read := Step(lib, s, Read(id, Content(b)));
    && Enabled(lib, read, Compare(id))
    && var compared, f := Step(lib, read, Compare(id)), lib.unmarshal(b);
       if s.fields.hash == Some(lib.sum(b)) then compared == Ended(s, id, Unchanged, s.fields)
       else if f.None? || f.value.version > 1 then
         Enabled(lib, compared, Reject(id)) && Step(lib, compared, Reject(id)) == Ended(s, id, Failed, s.fields)
       else
         && (Enabled(lib, compared, Swap(id, m)) <==> Normalizes(lib.norm, f.value.nodes, m))
         && (Normalizes(lib.norm, f.value.nodes, m) ==>
              Step(lib, compared, Swap(id, m)) == Ended(s, id, Reloaded, Fields(m, Some(lib.sum(b)))))
  }

  // ---- the reference ----

  /** Additions laid over a map, in order. */
  function Overlay(norm: string -> string, m: map<string, Node>, es: seq<Event>): map<string, Node> {
    if es == [] then m
    else
      var o := Overlay(norm, m, es[..|es| - 1]);
      var e := es[|es| - 1];
      if e.Put? then o[norm(e.mac) := e.node] else o
  }

  /** Laid over: a key finds the node added to it last, or, if none was, what it found before. */
  lemma {:induction false} OverlayMeans(norm: string -> string, m: map<string, Node>, es: seq<Event>, key: string, k: nat)
    requires k <= |es| && forall i :: k <= i < |es| && es[i].Put? ==> norm(es[i].mac) != key
    requires k > 0 ==> es[k - 1].Put? && norm(es[k - 1].mac) == key
    ensures var o := Overlay(norm, m, es);
      if k > 0 then key in o && o[key] == es[k - 1].node else (key in o <==> key in m) && (key in m ==> o[key] == m[key])
    decreases |es|
  {
    if k < |es| {
      var p := es[..|es| - 1];
      assert forall i :: 0 <= i < |p| ==> p[i] == es[i];
      OverlayMeans(norm, m, p, key, k);
    }
  }

  ghost predicate IsLastSwap(es: seq<Event>, k: nat) {
    k < |es| && es[k].Swap? && forall i :: k < i < |es| ==> !es[i].Swap?
  }

  /** The content that reload id read in the run. */
  ghost predicate ReadContent(es: seq<Event>, id: nat, b: string) {
    exists j :: 0 <= j < |es| && es[j] == Read(id, Content(b))
  }

  lemma ReadContentLater(es: seq<Event>, e: Event, id: nat, b: string)
    requires ReadContent(es, id, b)
    ensures ReadContent(es + [e], id, b)
  {
    var j :| 0 <= j < |es| && es[j] == Read(id, Content(b));
    assert (es + [e])[j] == Read(id, Content(b));
  }

  /** What a reload still holds is what it read itself. */
  lemma {:induction false} HoldsOwn(lib: Library, es: seq<Event>, id: nat)
    requires IsRun(lib, es) && id in After(lib, es).reloads && !After(lib, es).reloads[id].Over?
    ensures ReadContent(es, id, After(lib, es).reloads[id].bytes)
  {
    if es != [] {
      var p, e := es[..|es| - 1], es[|es| - 1];
      assert es == p + [e];
      var s := After(lib, p);
      if id in s.reloads && !s.reloads[id].Over? {
        HoldsOwn(lib, p, id);
        ReadContentLater(p, e, id, s.reloads[id].bytes);
      } else {
        assert e == Read(id, Content(After(lib, es).reloads[id].bytes));
        assert es[|p|] == e;
      }
    }
  }

  /** A reload reads the file once. */
  lemma {:induction false} ReadOnce(lib: Library, es: seq<Event>, j: nat)
    requires IsRun(lib, es) && j < |es| && es[j].Read?
    ensures es[j].id in After(lib, es).reloads
    ensures forall i :: 0 <= i < |es| && es[i].Read? && es[i].id == es[j].id ==> i == j
  {
    var p, e := es[..|es| - 1], es[|es| - 1];
    if j < |p| {
      ReadOnce(lib, p, j);
      assert forall i :: 0 <= i < |p| ==> p[i] == es[i];
    } else {
      forall i | 0 <= i < |p| && es[i].Read?
        ensures es[i].id != e.id
      {
        assert p[i] == es[i];
        ReadOnce(lib, p, i);
      }
    }
  }

  /** After any run: before the first accepted content the nodes are the additions, and there is
      no digest. */
  lemma {:induction false} BeforeFirst(lib: Library, es: seq<Event>)
    requires IsRun(lib, es) && forall i :: 0 <= i < |es| ==> !es[i].Swap?
    ensures After(lib, es).fields == Fields(Overlay(lib.norm, map[], es), None)
  {
    if es != [] {
      var p := es[..|es| - 1];
      assert forall i :: 0 <= i < |p| ==> p[i] == es[i];
      BeforeFirst(lib, p);
    }
  }

  /** From then on nodes and digest come from one content, the one accepted last: the nodes are
      its nodes in canonical form with the additions since laid over them, the digest is its
      digest, and it was read by the reload that replaced the nodes. */
  lemma {:induction false} FromOneContent(lib: Library, es: seq<Event>, k: nat) returns (b: string)
    requires IsRun(lib, es) && IsLastSwap(es, k)
    ensures ReadContent(es, es[k].id, b) && Accepts(lib, b)
    ensures Normalizes(lib.norm, lib.unmarshal(b).value.nodes, es[k].parsed)
    ensures After(lib, es).fields == Fields(Overlay(lib.norm, es[k].parsed, es[k + 1..]), Some(lib.sum(b)))
  {
    var p, e := es[..|es| - 1], es[|es| - 1];
    assert es == p + [e];
    if k == |p| {
      b := After(lib, p).reloads[e.id].bytes;
      HoldsOwn(lib, p, e.id);
      ReadContentLater(p, e, e.id, b);
      assert es[k + 1..] == [];
    } else {
      assert p[k] == es[k] && forall i :: k < i < |p| ==> p[i] == es[i];
      b := FromOneContent(lib, p, k);
      ReadContentLater(p, e, es[k].id, b);
      assert es[k + 1..][..|es| - k - 2] == p[k + 1..];
      assert es[k + 1..][|es| - k - 2] == e;
    }
  }

  /** The digest has no collision among the contents read in the run. */
  ghost predicate CollisionFree(lib: Library, es: seq<Event>) {
    forall i, j, x, y :: ReadContent(es, i, x) && ReadContent(es, j, y) && lib.sum(x) == lib.sum(y) ==> x == y
  }

  lemma ReadUnique(lib: Library, es: seq<Event>, id: nat, b: string, c: string)
    requires IsRun(lib, es) && ReadContent(es, id, b) && ReadContent(es, id, c)
    ensures b == c
  {
    var i :| 0 <= i < |es| && es[i] == Read(id, Content(b));
    var j :| 0 <= j < |es| && es[j] == Read(id, Content(c));
    ReadOnce(lib, es, i);
  }

  /** A reload finds its content unchanged exactly when it has read the content accepted last,
      and never before one was accepted. */
  lemma UnchangedMeans(lib: Library, es: seq<Event>, id: nat, k: nat)
    requires IsRun(lib, es) && CollisionFree(lib, es) && IsLastSwap(es, k)
    requires Enabled(lib, After(lib, es), Compare(id))
    ensures Step(lib, After(lib, es), Compare(id)).reloads[id] == Over(Unchanged)
       <==> exists b :: ReadContent(es, id, b) && ReadContent(es, es[k].id, b)
  {
    var b := FromOneContent(lib, es, k);
    var own := After(lib, es).reloads[id].bytes;
    HoldsOwn(lib, es, id);
    hide ReadContent, Normalizes, Overlay, IsRun, After;
    assert Step(lib, After(lib, es), Compare(id)).reloads[id] == Over(Unchanged) <==> own == b;
    if c :| ReadContent(es, id, c) && ReadContent(es, es[k].id, c) {
      ReadUnique(lib, es, id, own, c);
      ReadUnique(lib, es, es[k].id, b, c);
    }
  }

  lemma NeverUnchangedFirst(lib: Library, es: seq<Event>, id: nat)
    requires IsRun(lib, es) && Enabled(lib, After(lib, es), Compare(id))
    requires forall i :: 0 <= i < |es| ==> !es[i].Swap?
    ensures Step(lib, After(lib, es), Compare(id)).reloads[id].Differs?
  {
    BeforeFirst(lib, es);
  }
}
