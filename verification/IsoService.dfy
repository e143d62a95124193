/** Serving boot ISOs: any number of concurrent requests share the cache with the sweeper. */
module IsoService {
  import opened Bytes
  import opened Wrappers
  import opened Text
  import opened Nodes
  import opened IsoCache
  import ConfigKey
  import BootIso
  import IsoTheorems
  import IpxeText

  datatype Request =
    | NodeIso(node: Node, mac: string, base: string)
    | GenericIso(base: string)

  /** The fixed surroundings: the iPXE binary, the PCI formatter, the text of the generic script
      for a proxy address without trailing slashes, and the hash. */
  datatype Site = Site(efi: seq<byte>, fmt: string -> string, generic: string -> string, hash: string -> string)

  const GENERIC_KEY := "generic"

  function CacheKey(r: Request): string {
    if r.NodeIso? then r.mac else GENERIC_KEY
  }

  function Preimage(r: Request): string {
    if r.NodeIso? then ConfigKey.Preimage(r.node, r.mac, r.base) else ConfigKey.GenericPreimage(r.base)
  }

  function WantHash(site: Site, r: Request): string { site.hash(Preimage(r)) }

  function ScriptText(site: Site, r: Request): string {
    if r.NodeIso? then IpxeText.Render(r.node, r.mac, r.base, site.fmt) else site.generic(TrimSlashes(r.base))
  }

  /** A fresh build for the request: the image, or nothing if the build fails. */
  ghost function Fresh(site: Site, r: Request): Option<seq<byte>> {
    var script := Ascii(ScriptText(site, r));
    if BootIso.Accepts(site.efi, script) then Some(BootIso.BootIsoBytes(site.efi, script)) else None
  }

  /** BuildNodeISO and BuildGenericISO. */
  method Build(site: Site, r: Request) returns (image: Result<seq<byte>>)
    ensures image.Ok? <==> Fresh(site, r).Some?
    ensures image.Ok? ==> Fresh(site, r) == Some(image.value)
  {
    image := BootIso.BuildBootIso(site.efi, Ascii(ScriptText(site, r)));
  }

  /** Requests for different nodes, and for the generic image, have entries of their own; requests
      for one node share one, however its address is spelled. */
  lemma EntriesApart(r: Request, q: Request)
    requires r.NodeIso? && Canonical(r.mac)
    ensures q.NodeIso? && Canonical(q.mac) ==> (Key(CacheKey(r)) == Key(CacheKey(q)) <==> r.mac == q.mac)
    ensures q.GenericIso? && r.mac != "generic" ==> Key(CacheKey(r)) != Key(CacheKey(q))
    ensures forall p, a, s :: Blank(p) && Blank(s) && SameLetters(a, r.mac) ==> Key(CacheKey(r.(mac := p + a + s))) == Key(CacheKey(r))
  {
    if q.NodeIso? && Canonical(q.mac) && r.mac != q.mac {
      KeysApart(r.mac, q.mac);
    }
    if q.GenericIso? && r.mac != "generic" {
      KeysApart(r.mac, "generic");
    }
    forall p, a, s | Blank(p) && Blank(s) && SameLetters(a, r.mac)
      ensures Key(CacheKey(r.(mac := p + a + s))) == Key(CacheKey(r))
    {
      KeySpelled(p, a, s, r.mac);
    }
  }

  // ---- one request on its own ----

  /** cachedISO: the cached image if its hash is the wanted one, otherwise a build that is then cached. */
  method CachedIso(site: Site, cache: ISOCache, r: Request, now: int, later: int, at: int)
    returns (image: Result<seq<byte>>)
    modifies cache
    ensures
      var (s, got) := Looked(old(cache.isos), cache.ttl, CacheKey(r), now, later);
      if got.Some? && got.value.configHash == WantHash(site, r) then
        image == Ok(got.value.data) && cache.isos == s
      else if Fresh(site, r).None? then image.Err? && cache.isos == s
      else image == Ok(Fresh(site, r).value) &&
           cache.isos == Stored(s, CacheKey(r), WantHash(site, r), Fresh(site, r).value, at)
  {
    var c := cache.Get(CacheKey(r), now, later);
    if c.Some? && c.value.configHash == WantHash(site, r) {
      return Ok(c.value.data);
    }
    image := Build(site, r);
    if image.Ok? {
      var _ := cache.Set(CacheKey(r), WantHash(site, r), image.value, at);
    }
  }

  // ---- all interleavings ----

  /** A request has not looked yet, has missed and is building, or is done. */
  datatype Phase = Arrived | Building | Served(data: seq<byte>) | Refused

  datatype System = System(store: Store, phases: map<nat, Phase>)

  /** Steps are atomic where the code holds the cache lock; building happens outside it. */
  datatype Step =
    | Arrive(id: nat)
    | Look(id: nat, now: int, later: int)
    | Store(id: nat, at: int)
    | Sweep(now: int)

  ghost predicate Enabled(s: System, step: Step) {
    match step
    case Arrive(id) => id !in s.phases
    case Look(id, _, _) => id in s.phases && s.phases[id] == Arrived
    case Store(id, _) => id in s.phases && s.phases[id] == Building
    case Sweep(_) => true
  }

  ghost function Next(site: Site, ttl: int, reqs: nat -> Request, s: System, step: Step): System
    requires Enabled(s, step)
  {
    match step
    case Arrive(id) => s.(phases := s.phases[id := Arrived])
    case Look(id, now, later) =>
      var r := reqs(id);
      var (store, got) := Looked(s.store, ttl, CacheKey(r), now, later);
      if got.Some? && got.value.configHash == WantHash(site, r) then
        System(store, s.phases[id := Served(got.value.data)])
      else System(store, s.phases[id := Building])
    case Store(id, at) =>
      var r := reqs(id);
      if Fresh(site, r).None? then s.(phases := s.phases[id := Refused])
      else System(Stored(s.store, CacheKey(r), WantHash(site, r), Fresh(site, r).value, at),
                  s.phases[id := Served(Fresh(site, r).value)])
    case Sweep(now) => s.(store := Reaped(s.store, ttl, now))
  }

  /** A run from an empty cache. */
  ghost predicate IsRun(site: Site, ttl: int, reqs: nat -> Request, states: seq<System>, steps: seq<Step>) {
    && |states| == |steps| + 1 && states[0] == System(map[], map[])
    && forall i :: 0 <= i < |steps| ==>
         Enabled(states[i], steps[i]) && states[i + 1] == Next(site, ttl, reqs, states[i], steps[i])
  }

  /** The fields of a request are such that its key is unambiguous. */
  ghost predicate Proper(r: Request) {
    r.NodeIso? ==> ConfigKey.LineFields(r.node, r.mac, r.base) && ConfigKey.CommaFree(r.node.bondMembers)
  }

  /** The hash has no collision among the requests in play. */
  ghost predicate CollisionFree(site: Site, reqs: nat -> Request) {
    forall i: nat, j: nat :: WantHash(site, reqs(i)) == WantHash(site, reqs(j)) ==> Preimage(reqs(i)) == Preimage(reqs(j))
  }

  lemma TrimmedPrefix(a: string, b: string)
    requires ConfigKey.GenericPreimage(a) == ConfigKey.GenericPreimage(b)
    ensures TrimSlashes(a) == TrimSlashes(b)
  {
    var k := |"generic\nproxy_base="|;
    assert ConfigKey.GenericPreimage(a)[k..] == TrimSlashes(a);
    assert ConfigKey.GenericPreimage(b)[k..] == TrimSlashes(b);
  }

  /** Requests with the same key text get the same image. */
  lemma SamePreimageSameImage(site: Site, r: Request, q: Request)
    requires Proper(r) && Proper(q) && Preimage(r) == Preimage(q)
    ensures Fresh(site, r) == Fresh(site, q)
  {
    if r.NodeIso? && q.NodeIso? {
      ConfigKey.KeyIdentifiesScript(r.node, q.node, r.mac, q.mac, r.base, q.base, site.fmt);
    } else if r.GenericIso? && q.GenericIso? {
      TrimmedPrefix(r.base, q.base);
    } else if r.NodeIso? {
      ConfigKey.GenericApart(r.node, r.mac, r.base, q.base);
    } else {
      ConfigKey.GenericApart(q.node, q.mac, q.base, r.base);
    }
  }

  /** Every entry was made by some request for its key. */
  ghost predicate StoreOk(site: Site, reqs: nat -> Request, s: Store) {
    forall k :: k in s ==> exists id: nat :: MadeBy(site, reqs(id), k, s[k])
  }

  ghost predicate MadeBy(site: Site, r: Request, k: string, e: CachedIso) {
    Key(CacheKey(r)) == k && WantHash(site, r) == e.configHash && Fresh(site, r) == Some(e.data)
  }

  /** Each request that is served has the bytes of a fresh build, and one is refused only if a
      fresh build fails. */
  ghost predicate AllFresh(site: Site, reqs: nat -> Request, s: System) {
    forall id :: id in s.phases ==>
      && (s.phases[id].Served? ==> Fresh(site, reqs(id)) == Some(s.phases[id].data))
      && (s.phases[id].Refused? ==> Fresh(site, reqs(id)) == None)
  }

  ghost predicate SystemOk(site: Site, reqs: nat -> Request, s: System) {
    StoreOk(site, reqs, s.store) && AllFresh(site, reqs, s)
  }

  /** Requests for one key with one hash have one image. */
  ghost predicate NoClash(site: Site, reqs: nat -> Request) {
    forall i: nat, j: nat :: Alike(site, reqs(i), reqs(j)) && Fresh(site, reqs(i)).Some? ==>
      Fresh(site, reqs(j)) == Fresh(site, reqs(i))
  }

  /** What the cache goes by. */
  predicate Alike(site: Site, r: Request, q: Request) {
    Key(CacheKey(r)) == Key(CacheKey(q)) && WantHash(site, r) == WantHash(site, q)
  }

  lemma LookKeeps(site: Site, ttl: int, reqs: nat -> Request, s: Store, mac: string, now: int, later: int)
    requires StoreOk(site, reqs, s)
    ensures StoreOk(site, reqs, Looked(s, ttl, mac, now, later).0)
  {
    hide WantHash, Fresh, CacheKey, Key, Expired;
    var t := Looked(s, ttl, mac, now, later).0;
    forall k | k in t
      ensures exists id: nat :: MadeBy(site, reqs(id), k, t[k])
    {
      assert k in s && s[k].configHash == t[k].configHash && s[k].data == t[k].data;
      var id: nat :| MadeBy(site, reqs(id), k, s[k]);
      assert MadeBy(site, reqs(id), k, t[k]);
    }
  }

  lemma StoreKeeps(site: Site, reqs: nat -> Request, s: Store, id: nat, at: int)
    requires StoreOk(site, reqs, s) && Fresh(site, reqs(id)).Some?
    ensures StoreOk(site, reqs, Stored(s, CacheKey(reqs(id)), WantHash(site, reqs(id)), Fresh(site, reqs(id)).value, at))
  {
    hide WantHash, Fresh, CacheKey, Key;
    var r := reqs(id);
    var t := Stored(s, CacheKey(r), WantHash(site, r), Fresh(site, r).value, at);
    forall k | k in t
      ensures exists i: nat :: MadeBy(site, reqs(i), k, t[k])
    {
      if k == Key(CacheKey(r)) {
        assert MadeBy(site, reqs(id), k, t[k]);
      } else {
        var i: nat :| MadeBy(site, reqs(i), k, s[k]);
        assert MadeBy(site, reqs(i), k, t[k]);
      }
    }
  }

  lemma LookStep(site: Site, ttl: int, reqs: nat -> Request, s: System, id: nat, now: int, later: int)
    requires SystemOk(site, reqs, s) && Enabled(s, Look(id, now, later)) && NoClash(site, reqs)
    ensures SystemOk(site, reqs, Next(site, ttl, reqs, s, Look(id, now, later)))
  {
    hide WantHash, Fresh, CacheKey, Key;
    var r := reqs(id);
    LookKeeps(site, ttl, reqs, s.store, CacheKey(r), now, later);
    var (store, got) := Looked(s.store, ttl, CacheKey(r), now, later);
    if got.Some? && got.value.configHash == WantHash(site, r) {
      var k := Key(CacheKey(r));
      assert k in store && store[k] == got.value;
      var i: nat :| MadeBy(site, reqs(i), k, store[k]);
      assert Alike(site, reqs(i), reqs(id));
      assert Fresh(site, r) == Some(got.value.data);
    }
    hide StoreOk, Looked, NoClash;
  }

  lemma StoreStep(site: Site, ttl: int, reqs: nat -> Request, s: System, id: nat, at: int)
    requires SystemOk(site, reqs, s) && Enabled(s, Step.Store(id, at))
    ensures SystemOk(site, reqs, Next(site, ttl, reqs, s, Step.Store(id, at)))
  {
    hide WantHash, Fresh, CacheKey, StoreOk, Stored;
    if Fresh(site, reqs(id)).Some? {
      StoreKeeps(site, reqs, s.store, id, at);
    }
  }

  lemma SweepStep(site: Site, ttl: int, reqs: nat -> Request, s: System, now: int)
    requires SystemOk(site, reqs, s)
    ensures SystemOk(site, reqs, Next(site, ttl, reqs, s, Sweep(now)))
  {
    hide MadeBy, Fresh;
  }

  /** Every step keeps the invariant. */
  lemma StepKeeps(site: Site, ttl: int, reqs: nat -> Request, s: System, step: Step)
    requires SystemOk(site, reqs, s) && Enabled(s, step) && NoClash(site, reqs)
    ensures SystemOk(site, reqs, Next(site, ttl, reqs, s, step))
  {
    hide WantHash, Fresh, NoClash, StoreOk;
    match step
    case Arrive(_) =>
    case Sweep(now) => SweepStep(site, ttl, reqs, s, now);
    case Look(id, now, later) => LookStep(site, ttl, reqs, s, id, now, later);
    case Store(id, at) => StoreStep(site, ttl, reqs, s, id, at);
  }

  lemma {:induction false} RunKeeps(site: Site, ttl: int, reqs: nat -> Request,
                                    states: seq<System>, steps: seq<Step>, i: nat)
    requires IsRun(site, ttl, reqs, states, steps) && i < |states| && NoClash(site, reqs)
    ensures SystemOk(site, reqs, states[i])
    decreases i
  {
    if i == 0 {
      assert SystemOk(site, reqs, states[0]);
    }
    hide SystemOk, NoClash, Next;
    if i > 0 {
      RunKeeps(site, ttl, reqs, states, steps, i - 1);
      StepKeeps(site, ttl, reqs, states[i - 1], steps[i - 1]);
      assert states[i - 1 + 1] == Next(site, ttl, reqs, states[i - 1], steps[i - 1]);
    }
  }

  // ---- and what a clash does ----

  /** The steps of two requests, one after the other. */
  function OneByOne(i: nat, j: nat): seq<Step> {
    [Arrive(i), Look(i, 0, 0), Step.Store(i, 0), Arrive(j), Look(j, 0, 0)]
  }

  ghost predicate ServesLast(site: Site, ttl: int, reqs: nat -> Request, i: nat, j: nat, states: seq<System>, data: seq<byte>) {
    && IsRun(site, ttl, reqs, states, OneByOne(i, j))
    && j in states[|states| - 1].phases && states[|states| - 1].phases[j] == Served(data)
  }

  /** Two requests for one key with one hash: there is a run that serves the second one with the
      image of the first. */
  lemma SecondServedFirst(site: Site, ttl: int, reqs: nat -> Request, i: nat, j: nat) returns (states: seq<System>)
    requires ttl >= 0 && i != j && Alike(site, reqs(i), reqs(j)) && Fresh(site, reqs(i)).Some?
    ensures ServesLast(site, ttl, reqs, i, j, states, Fresh(site, reqs(i)).value)
  {
    hide WantHash, Fresh, CacheKey, Key;
    var r := reqs(i);
    var data, hash, key := Fresh(site, r).value, WantHash(site, r), CacheKey(r);
    var s0 := System(map[], map[]);
    var s1 := System(map[], map[i := Arrived]);
    var s2 := System(map[], map[i := Building]);
    var s3 := System(Stored(map[], key, hash, data, 0), map[i := Served(data)]);
    var s4 := System(s3.store, map[i := Served(data), j := Arrived]);
    var s5 := Next(site, ttl, reqs, s4, Look(j, 0, 0));
    assert Next(site, ttl, reqs, s0, Arrive(i)) == s1;
    assert Next(site, ttl, reqs, s1, Look(i, 0, 0)) == s2;
    assert Next(site, ttl, reqs, s2, Step.Store(i, 0)) == s3;
    assert Next(site, ttl, reqs, s3, Arrive(j)) == s4;
    states := [s0, s1, s2, s3, s4, s5];
  }

  ghost predicate AlwaysFresh(site: Site, ttl: int, reqs: nat -> Request) {
    forall states: seq<System>, steps: seq<Step>, i: nat :: IsRun(site, ttl, reqs, states, steps) && i < |states| ==>
      AllFresh(site, reqs, states[i])
  }

  lemma ClashServes(site: Site, ttl: int, reqs: nat -> Request, i: nat, j: nat)
    requires ttl >= 0 && Alike(site, reqs(i), reqs(j)) && Fresh(site, reqs(i)).Some?
    requires Fresh(site, reqs(j)) != Fresh(site, reqs(i))
    ensures !AlwaysFresh(site, ttl, reqs)
  {
    hide Fresh, Alike;
    var states := SecondServedFirst(site, ttl, reqs, i, j);
    hide IsRun;
    assert !AllFresh(site, reqs, states[|states| - 1]);
  }

  /** Caching is invisible, in every run over these requests, if and only if no two of them for
      one key have one hash and different images. */
  lemma FreshExactly(site: Site, ttl: int, reqs: nat -> Request)
    requires ttl >= 0
    ensures AlwaysFresh(site, ttl, reqs) <==> NoClash(site, reqs)
  {
    hide Fresh, Alike, IsRun;
    if NoClash(site, reqs) {
      forall states: seq<System>, steps: seq<Step>, i: nat | IsRun(site, ttl, reqs, states, steps) && i < |states|
        ensures AllFresh(site, reqs, states[i])
      {
        RunKeeps(site, ttl, reqs, states, steps, i);
      }
    } else {
      var i: nat, j: nat :| Alike(site, reqs(i), reqs(j)) && Fresh(site, reqs(i)).Some?
        && Fresh(site, reqs(j)) != Fresh(site, reqs(i));
      ClashServes(site, ttl, reqs, i, j);
    }
  }

  // ---- conditions on the requests ----

  lemma ProperNoClash(site: Site, reqs: nat -> Request)
    requires CollisionFree(site, reqs) && forall i: nat :: Proper(reqs(i))
    ensures NoClash(site, reqs)
  {
    forall i: nat, j: nat | Alike(site, reqs(i), reqs(j))
      ensures Fresh(site, reqs(j)) == Fresh(site, reqs(i))
    {
      hide WantHash, Fresh, Proper, Preimage;
      SamePreimageSameImage(site, reqs(i), reqs(j));
    }
  }

  /** In every interleaving of lookups, builds, stores and sweeps, each request that is served
      gets exactly the bytes a fresh build would give it, and one is refused only if a fresh
      build would fail: for all requests with one-line fields and members without commas. */
  lemma ServedFresh(site: Site, ttl: int, reqs: nat -> Request, states: seq<System>, steps: seq<Step>, i: nat)
    requires IsRun(site, ttl, reqs, states, steps) && i < |states|
    requires CollisionFree(site, reqs) && forall j: nat :: Proper(reqs(j))
    ensures AllFresh(site, reqs, states[i])
  {
    ProperNoClash(site, reqs);
    hide NoClash, CollisionFree, Proper, IsRun;
    RunKeeps(site, ttl, reqs, states, steps, i);
  }

  ghost predicate OneLined(r: Request) {
    r.NodeIso? ==> ConfigKey.LineFields(r.node, r.mac, r.base)
  }

  /** Two requests for the image of a node that differ in how their members are cut at most. */
  predicate SameButCut(r: Request, q: Request) {
    && r.NodeIso? && q.NodeIso? && ConfigKey.SameButMembers(r.node, q.node)
    && ConfigKey.JoinComma(r.node.bondMembers) == ConfigKey.JoinComma(q.node.bondMembers)
    && r.mac == q.mac && TrimSlashes(r.base) == TrimSlashes(q.base)
  }

  /** With one-line fields, requests have one key text if and only if they are the same but for
      the cut, or are both generic, for one proxy address. */
  lemma SamePreimage(r: Request, q: Request)
    requires OneLined(r) && OneLined(q)
    ensures Preimage(r) == Preimage(q) <==>
      SameButCut(r, q) || (r.GenericIso? && q.GenericIso? && TrimSlashes(r.base) == TrimSlashes(q.base))
  {
    if r.NodeIso? && q.NodeIso? {
      ConfigKey.PreimageEqual(r.node, q.node, r.mac, q.mac, r.base, q.base);
    } else if r.GenericIso? && q.GenericIso? {
      if Preimage(r) == Preimage(q) {
        TrimmedPrefix(r.base, q.base);
      }
    } else if r.NodeIso? {
      ConfigKey.GenericApart(r.node, r.mac, r.base, q.base);
    } else {
      ConfigKey.GenericApart(q.node, q.mac, q.base, r.base);
    }
  }

  /** With one-line fields: caching is invisible if and only if requests that are the same but
      for the cut of their members have the same script, wherever an image can be built. */
  lemma OneLineExactly(site: Site, ttl: int, reqs: nat -> Request)
    requires ttl >= 0 && CollisionFree(site, reqs) && forall i: nat :: OneLined(reqs(i))
    ensures AlwaysFresh(site, ttl, reqs) <==>
      forall i: nat, j: nat :: SameButCut(reqs(i), reqs(j)) && Fresh(site, reqs(i)).Some? ==>
        Ascii(ScriptText(site, reqs(i))) == Ascii(ScriptText(site, reqs(j)))
  {
    FreshExactly(site, ttl, reqs);
    forall i: nat, j: nat
      ensures SameButCut(reqs(i), reqs(j)) ==> Alike(site, reqs(i), reqs(j))
      ensures Alike(site, reqs(i), reqs(j)) && !SameButCut(reqs(i), reqs(j)) ==> Fresh(site, reqs(j)) == Fresh(site, reqs(i))
      ensures Fresh(site, reqs(i)).Some? ==>
        (Fresh(site, reqs(j)) == Fresh(site, reqs(i)) <==> Ascii(ScriptText(site, reqs(i))) == Ascii(ScriptText(site, reqs(j))))
    {
      PairOf(site, reqs, i, j);
    }
    hide AlwaysFresh, Fresh, Alike, SameButCut, ScriptText, Ascii;
  }

  lemma PairOf(site: Site, reqs: nat -> Request, i: nat, j: nat)
    requires CollisionFree(site, reqs) && OneLined(reqs(i)) && OneLined(reqs(j))
    ensures SameButCut(reqs(i), reqs(j)) ==> Alike(site, reqs(i), reqs(j))
    ensures Alike(site, reqs(i), reqs(j)) && !SameButCut(reqs(i), reqs(j)) ==> Fresh(site, reqs(j)) == Fresh(site, reqs(i))
    ensures Fresh(site, reqs(i)).Some? ==>
      (Fresh(site, reqs(j)) == Fresh(site, reqs(i)) <==> Ascii(ScriptText(site, reqs(i))) == Ascii(ScriptText(site, reqs(j))))
  {
    var r, q := reqs(i), reqs(j);
    hide OneLined, BootIso.Accepts, BootIso.BootIsoBytes, Ascii, IpxeText.Render, ConfigKey.Preimage, ConfigKey.GenericPreimage;
    SamePreimage(r, q);
    if Fresh(site, r).Some? && Ascii(ScriptText(site, r)) != Ascii(ScriptText(site, q)) {
      FreshDiffers(site, r, q);
    }
  }

  /** Scripts that differ make images that differ. */
  lemma FreshDiffers(site: Site, r: Request, q: Request)
    requires Ascii(ScriptText(site, r)) != Ascii(ScriptText(site, q)) && Fresh(site, r).Some?
    ensures Fresh(site, r) != Fresh(site, q)
  {
    var x, y := Ascii(ScriptText(site, r)), Ascii(ScriptText(site, q));
    hide ScriptText, BootIso.Accepts, BootIso.BootIsoBytes;
    if Fresh(site, q) == Fresh(site, r) {
      IsoTheorems.IsoInjective(site.efi, x, site.efi, y);
    }
  }

  /** First one request, then another. */
  function Twice(r: Request, q: Request): nat -> Request {
    id => if id == 0 then r else q
  }

  lemma Confuses(site: Site, ttl: int, r: Request, q: Request)
    requires ttl >= 0 && CacheKey(r) == CacheKey(q) && Preimage(r) == Preimage(q)
    requires Ascii(ScriptText(site, r)) != Ascii(ScriptText(site, q)) && Fresh(site, r).Some?
    ensures !AlwaysFresh(site, ttl, Twice(r, q))
  {
    hide Fresh, ScriptText, Ascii, AlwaysFresh, Preimage, CacheKey;
    FreshDiffers(site, r, q);
    assert Twice(r, q)(0) == r && Twice(r, q)(1) == q;
    assert Alike(site, r, q);
    ClashServes(site, ttl, Twice(r, q), 0, 1);
  }

  /** The members of a node change from one with a comma to the two that it spells: there is a
      run that serves an image other than a fresh one. */
  lemma CommaConfuses(site: Site, ttl: int, n: Node, a: string, b: string, mac: string, base: string)
    requires IsPciAddr(a) && IsPciAddr(a + "," + b) && site.fmt(a) != site.fmt(a + "," + b)
    requires ConfigKey.PlainLine(site.fmt(a)) && ConfigKey.PlainLine(site.fmt(a + "," + b))
    requires ttl >= 0 && Fresh(site, NodeIso(n.(bondMembers := [a + "," + b]), mac, base)).Some?
    ensures !AlwaysFresh(site, ttl, Twice(NodeIso(n.(bondMembers := [a + "," + b]), mac, base),
                                          NodeIso(n.(bondMembers := [a, b]), mac, base)))
  {
    ConfigKey.CommaCollision(n, a, b, mac, base, site.fmt);
    hide Fresh, Ascii, ConfigKey.Preimage, IpxeText.Render, IsPciAddr, ConfigKey.PlainLine, AlwaysFresh;
    Confuses(site, ttl, NodeIso(n.(bondMembers := [a + "," + b]), mac, base), NodeIso(n.(bondMembers := [a, b]), mac, base));
  }

  /** Likewise when text moves over a newline from one field to the next. */
  lemma NewlineConfuses(site: Site, ttl: int, n: Node, a: string, b: string, mac: string, base: string)
    requires ttl >= 0 && Fresh(site, NodeIso(n.(hostname := a + "\ndns=" + b, dns := ""), mac, base)).Some?
    ensures !AlwaysFresh(site, ttl, Twice(NodeIso(n.(hostname := a + "\ndns=" + b, dns := ""), mac, base),
                                          NodeIso(n.(hostname := a, dns := b + "\ndns="), mac, base)))
  {
    ConfigKey.NewlineCollision(n, a, b, mac, base, site.fmt);
    hide Fresh, Ascii, ConfigKey.Preimage, IpxeText.Render, AlwaysFresh;
    Confuses(site, ttl, NodeIso(n.(hostname := a + "\ndns=" + b, dns := ""), mac, base),
             NodeIso(n.(hostname := a, dns := b + "\ndns="), mac, base));
  }
}
