/** The in-memory ISO cache with time-to-live, and its history specification. */
module IsoCache {
  import opened Bytes
  import opened Wrappers
  import opened Text

  datatype CachedIso = CachedIso(data: seq<byte>, configHash: string, modTime: int, lastAccess: int)

  type Store = map<string, CachedIso>

  const DEFAULT_TTL := 30 * 60 * 1_000_000_000

  function Key(mac: string): string { ToLower(TrimSpace(mac)) }

  /** Two addresses share a key exactly if, without the white space around them, they differ at
      most in ASCII case. */
  lemma KeyMeans(a: string, b: string)
    ensures Key(a) == Key(b) <==> SameLetters(TrimSpace(a), TrimSpace(b))
  {
    LowerMeans(TrimSpace(a), TrimSpace(b));
  }

  /** The form in which addresses are configured: no white space, no capitals. */
  ghost predicate Canonical(mac: string) {
    forall i :: 0 <= i < |mac| ==> !White(mac[i]) && !(65 <= mac[i] as int <= 90)
  }

  lemma CanonicalTrimmed(mac: string)
    requires Canonical(mac)
    ensures TrimSpace(mac) == mac
  {
    assert "" + mac + "" == mac;
    TrimIs("", mac, "");
  }

  lemma CanonicalSame(a: string, b: string)
    requires Canonical(a) && Canonical(b)
    ensures SameLetters(a, b) <==> a == b
  {
  }

  /** Different addresses have different keys. */
  lemma KeysApart(a: string, b: string)
    requires Canonical(a) && Canonical(b) && a != b
    ensures Key(a) != Key(b)
  {
    KeyMeans(a, b);
    CanonicalTrimmed(a);
    CanonicalTrimmed(b);
    CanonicalSame(a, b);
  }

  lemma SameLettersTight(a: string, b: string)
    requires SameLetters(a, b) && Canonical(b)
    ensures Tight(a)
  {
    hide Canonical;
    if a != "" {
      assert SameLetter(a[0], b[0]) && SameLetter(a[|a| - 1], b[|a| - 1]);
      CanonicalAt(b, 0);
      CanonicalAt(b, |a| - 1);
    }
  }

  lemma CanonicalAt(mac: string, i: nat)
    requires Canonical(mac) && i < |mac|
    ensures !White(mac[i])
  {
  }

  /** An address in any mixture of cases, with white space around it, has the key of the address. */
  lemma KeySpelled(p: string, a: string, q: string, mac: string)
    requires Blank(p) && Blank(q) && SameLetters(a, mac) && Canonical(mac)
    ensures Key(p + a + q) == Key(mac)
  {
    SameLettersTight(a, mac);
    TrimIs(p, a, q);
    CanonicalTrimmed(mac);
    KeyMeans(p + a + q, mac);
  }

  predicate Expired(e: CachedIso, ttl: int, now: int) { now - e.lastAccess > ttl }

  /** What a lookup returns and leaves behind. The clock is read twice: for the age and for the new access time. */
  function Looked(s: Store, ttl: int, mac: string, now: int, later: int): (r: (Store, Option<CachedIso>))
  {
    var k := Key(mac);
    if k !in s then (s, None)
    else if Expired(s[k], ttl, now) then (s - {k}, None)
    else
      var e := s[k].(lastAccess := later);
      (s[k := e], Some(e))
  }

  function Stored(s: Store, mac: string, hash: string, data: seq<byte>, at: int): Store {
    s[Key(mac) := CachedIso(data, hash, at, at)]
  }

  function Reaped(s: Store, ttl: int, now: int): (r: Store)
  {
    map k | k in s && !Expired(s[k], ttl, now) :: s[k]
  }

  class ISOCache {
    var isos: Store
    const ttl: int

    constructor (ttl: int)
      ensures isos == map[]
      ensures ttl > 0 ==> this.ttl == ttl
      ensures ttl <= 0 ==> this.ttl == 1_800_000_000_000
    {
      this.ttl := if ttl <= 0 then DEFAULT_TTL else ttl;
      isos := map[];
    }

    method Get(mac: string, now: int, later: int) returns (r: Option<CachedIso>)
      modifies this
      ensures (isos, r) == Looked(old(isos), ttl, mac, now, later)
    {
      var key := ToLower(TrimSpace(mac));
      if key !in isos {
        return None;
      }
      var entry := isos[key];
      if now - entry.lastAccess > ttl {
        isos := isos - {key};
        return None;
      }
      entry := entry.(lastAccess := later);
      isos := isos[key := entry];
      return Some(entry);
    }

    method Set(mac: string, configHash: string, data: seq<byte>, now: int) returns (e: CachedIso)
      modifies this
      ensures isos == Stored(old(isos), mac, configHash, data, now)
      ensures e == CachedIso(data, configHash, now, now)
    {
      e := CachedIso(data, configHash, now, now);
      isos := isos[ToLower(TrimSpace(mac)) := e];
    }

    /** Visits the entries in any order and deletes the expired ones. */
    method Reap(now: int) returns (evicted: nat)
      modifies this
      ensures isos == Reaped(old(isos), ttl, now)
      ensures forall k :: k in isos <==> k in old(isos) && now - old(isos)[k].lastAccess <= ttl
      ensures evicted == |old(isos)| - |isos|
    {
      ghost var before := isos;
      evicted := 0;
      var todo := isos.Keys;
      while todo != {}
        invariant todo <= isos.Keys <= before.Keys
        invariant forall k :: k in isos ==> isos[k] == before[k]
        invariant forall k :: k in before && k !in todo ==> (k in isos <==> !Expired(before[k], ttl, now))
        invariant evicted == |before| - |isos|
        decreases todo
      {
        var mac :| mac in todo;
        if now - isos[mac].lastAccess > ttl {
          RemoveOne(isos, mac);
          isos := isos - {mac};
          evicted := evicted + 1;
        }
        todo := todo - {mac};
      }
      assert isos == Reaped(before, ttl, now);
    }
  }

  /** A sweep leaves exactly the entries that are not too old, as they were. */
  lemma ReapedMeans(s: Store, ttl: int, now: int)
    ensures forall k :: k in Reaped(s, ttl, now) <==> k in s && now - s[k].lastAccess <= ttl
    ensures forall k :: k in Reaped(s, ttl, now) ==> Reaped(s, ttl, now)[k] == s[k]
  {
  }

  lemma RemoveOne(s: Store, k: string)
    requires k in s
    ensures |s - {k}| == |s| - 1
  {
    assert (s - {k}).Keys == s.Keys - {k};
  }

  /** A store under one address leaves every lookup of another as it was, and a lookup under any
      spelling of the address finds it until it is too old. */
  lemma StoreThenLook(s: Store, ttl: int, mac: string, hash: string, data: seq<byte>, at: int, other: string, now: int, later: int)
    requires Canonical(mac)
    ensures Canonical(other) && other != mac ==>
      Looked(Stored(s, mac, hash, data, at), ttl, other, now, later).1 == Looked(s, ttl, other, now, later).1
    ensures forall p, a, q :: Blank(p) && Blank(q) && SameLetters(a, mac) ==>
      Looked(Stored(s, mac, hash, data, at), ttl, p + a + q, now, later).1 ==
      if now - at > ttl then None else Some(CachedIso(data, hash, at, later))
  {
    if Canonical(other) && other != mac {
      KeysApart(mac, other);
    }
    forall p, a, q | Blank(p) && Blank(q) && SameLetters(a, mac)
      ensures Key(p + a + q) == Key(mac)
    {
      KeySpelled(p, a, q, mac);
    }
    hide Key;
  }

  // ---- histories ----

  datatype Event =
    | SetEv(mac: string, hash: string, data: seq<byte>, at: int)
    | GetEv(mac: string, now: int, later: int)
    | ReapEv(now: int)

  type History = seq<Event>

  function Front(h: History): History
    requires h != []
  {
    h[..|h| - 1]
  }

  function Final(h: History): Event
    requires h != []
  {
    h[|h| - 1]
  }

  /** The store after a history. */
  ghost function After(h: History, ttl: int): Store {
    if h == [] then map[]
    else
      var s := After(Front(h), ttl);
      match Final(h)
      case SetEv(mac, hash, data, at) => Stored(s, mac, hash, data, at)
      case GetEv(mac, now, later) => Looked(s, ttl, mac, now, later).0
      case ReapEv(now) => Reaped(s, ttl, now)
  }

  /** The latest time at which a lookup or a sweep happened, starting from c. */
  ghost function Clock(h: History, c: int): int {
    if h == [] then c
    else
      match Final(h)
      case SetEv(_, _, _, _) => Clock(Front(h), c)
      case GetEv(_, _, later) => later
      case ReapEv(now) => now
  }

  /** Lookups and sweeps read a nondecreasing clock. Stores carry a time read before they take
      the lock, which may be arbitrarily old. */
  ghost predicate Ordered(h: History, c: int) {
    h != [] ==>
      && Ordered(Front(h), c)
      && match Final(h)
         case SetEv(_, _, _, _) => true
         case GetEv(_, now, later) => Clock(Front(h), c) <= now <= later
         case ReapEv(now) => Clock(Front(h), c) <= now
  }

  /** The specification: the entry of a key according to the stores and lookups alone. */
  ghost function Live(h: History, ttl: int, key: string): (e: Option<CachedIso>)
  {
    if h == [] then None
    else
      var e := Live(Front(h), ttl, key);
      match Final(h)
      case SetEv(mac, hash, data, at) => if Key(mac) == key then Some(CachedIso(data, hash, at, at)) else e
      case GetEv(mac, now, later) =>
        if Key(mac) != key || e.None? then e
        else if Expired(e.value, ttl, now) then None
        else Some(e.value.(lastAccess := later))
      case ReapEv(_) => e
  }

  /** What a lookup must return after history h. */
  ghost function Expected(h: History, ttl: int, mac: string, now: int, later: int): (r: Option<CachedIso>)
  {
    var e := Live(h, ttl, Key(mac));
    if e.None? || Expired(e.value, ttl, now) then None else Some(e.value.(lastAccess := later))
  }

  /** The store holds the live entry of a key, or the live entry is too old to be hit again. */
  ghost predicate Agrees(s: Store, ttl: int, key: string, e: Option<CachedIso>, clock: int) {
    if key in s then e == Some(s[key]) else e.Some? ==> Expired(e.value, ttl, clock)
  }

  lemma {:induction false} StoreAgrees(h: History, ttl: int, c: int, key: string)
    requires Ordered(h, c)
    ensures Agrees(After(h, ttl), ttl, key, Live(h, ttl, key), Clock(h, c))
    decreases |h|
  {
    if h != [] {
      StoreAgrees(Front(h), ttl, c, key);
    }
  }

  /** The cache answers every lookup as the specification says, on every history. */
  lemma GetRefines(h: History, ttl: int, c: int, mac: string, now: int, later: int)
    requires Ordered(h, c) && Clock(h, c) <= now <= later
    ensures Looked(After(h, ttl), ttl, mac, now, later).1 == Expected(h, ttl, mac, now, later)
  {
    StoreAgrees(h, ttl, c, Key(mac));
  }

  // ---- sweeps change nothing ----

  ghost function WithoutReaps(h: History): History {
    if h == [] then []
    else if Final(h).ReapEv? then WithoutReaps(Front(h))
    else WithoutReaps(Front(h)) + [Final(h)]
  }

  lemma {:induction false} LiveWithoutReaps(h: History, ttl: int, c: int, key: string)
    requires Ordered(h, c)
    ensures Live(WithoutReaps(h), ttl, key) == Live(h, ttl, key)
    ensures Ordered(WithoutReaps(h), c) && Clock(WithoutReaps(h), c) <= Clock(h, c)
    decreases |h|
  {
    if h != [] {
      LiveWithoutReaps(Front(h), ttl, c, key);
      if !Final(h).ReapEv? {
        var g := WithoutReaps(Front(h));
        assert Front(g + [Final(h)]) == g;
      }
    }
  }

  /** Adding or removing sweeps anywhere changes no lookup. */
  lemma ReapsIrrelevant(h: History, g: History, ttl: int, c: int, mac: string, now: int, later: int)
    requires Ordered(h, c) && Ordered(g, c) && Clock(h, c) <= now <= later && Clock(g, c) <= now
    requires WithoutReaps(h) == WithoutReaps(g)
    ensures Looked(After(h, ttl), ttl, mac, now, later).1 == Looked(After(g, ttl), ttl, mac, now, later).1
  {
    LiveWithoutReaps(h, ttl, c, Key(mac));
    LiveWithoutReaps(g, ttl, c, Key(mac));
    GetRefines(h, ttl, c, mac, now, later);
    GetRefines(g, ttl, c, mac, now, later);
  }

  // ---- the specification in words ----

  predicate Sets(e: Event, key: string) { e.SetEv? && Key(e.mac) == key }

  predicate Gets(e: Event, key: string) { e.GetEv? && Key(e.mac) == key }

  /** The last time before event j that the entry stored by event i was stored or looked up. */
  ghost function Touched(h: History, key: string, i: nat, j: nat): int
    requires i < j <= |h| && h[i].SetEv?
    decreases j
  {
    if j == i + 1 then h[i].at
    else if Gets(h[j - 1], key) then h[j - 1].later
    else Touched(h, key, i, j - 1)
  }

  /** Event i is the last store of key, and no gap between it, the later lookups of key
      and the next of them exceeds the time to live. */
  ghost predicate Unbroken(h: History, ttl: int, key: string, i: nat) {
    && i < |h| && Sets(h[i], key)
    && (forall j :: i < j < |h| ==> !Sets(h[j], key))
    && (forall j :: i < j < |h| && Gets(h[j], key) ==> h[j].now - Touched(h, key, i, j) <= ttl)
  }

  lemma {:induction false} TouchedFront(h: History, key: string, i: nat, j: nat)
    requires h != [] && i < j < |h| && h[i].SetEv?
    ensures Touched(Front(h), key, i, j) == Touched(h, key, i, j)
    decreases j
  {
    if j > i + 1 {
      TouchedFront(h, key, i, j - 1);
    }
  }

  lemma UnbrokenFront(h: History, ttl: int, key: string, i: nat)
    requires h != [] && i < |h| - 1 && Unbroken(h, ttl, key, i)
    ensures Unbroken(Front(h), ttl, key, i)
  {
    hide Touched, Key;
    var f := Front(h);
    forall j | i < j < |f| && Gets(f[j], key)
      ensures f[j].now - Touched(f, key, i, j) <= ttl
    {
      assert f[j] == h[j];
      TouchedFront(h, key, i, j);
    }
  }

  lemma UnbrokenBack(h: History, ttl: int, key: string, i: nat)
    requires h != [] && Unbroken(Front(h), ttl, key, i) && !Sets(Final(h), key)
    requires Gets(Final(h), key) ==> Final(h).now - Touched(h, key, i, |h| - 1) <= ttl
    ensures Unbroken(h, ttl, key, i)
  {
    hide Touched, Key;
    var f := Front(h);
    forall j | i < j < |h|
      ensures !Sets(h[j], key)
    {
      if j < |f| {
        assert f[j] == h[j];
      }
    }
    forall j | i < j < |h| && Gets(h[j], key)
      ensures h[j].now - Touched(h, key, i, j) <= ttl
    {
      if j < |f| {
        assert f[j] == h[j];
        TouchedFront(h, key, i, j);
      }
    }
  }

  /** An unbroken store is live, with the time it was last touched. */
  lemma {:induction false} UnbrokenLive(h: History, ttl: int, key: string, i: nat)
    requires Unbroken(h, ttl, key, i)
    ensures Live(h, ttl, key) == Some(CachedIso(h[i].data, h[i].hash, h[i].at, Touched(h, key, i, |h|)))
    decreases |h|
  {
    if i < |h| - 1 {
      UnbrokenFront(h, ttl, key, i);
      UnbrokenLive(Front(h), ttl, key, i);
      TouchedFront(h, key, i, |h| - 1);
    }
  }

  lemma {:induction false} LiveUnbroken(h: History, ttl: int, key: string) returns (i: nat)
    requires Live(h, ttl, key).Some?
    ensures Unbroken(h, ttl, key, i)
    decreases |h|
  {
    if Sets(Final(h), key) {
      i := |h| - 1;
    } else {
      i := LiveUnbroken(Front(h), ttl, key);
      UnbrokenLive(Front(h), ttl, key, i);
      TouchedFront(h, key, i, |h| - 1);
      UnbrokenBack(h, ttl, key, i);
    }
  }

  /** A lookup hits exactly if some store of the key is unbroken and was touched within the time
      to live; it returns the data of that store. */
  lemma HitMeans(h: History, ttl: int, c: int, mac: string, now: int, later: int)
    requires Ordered(h, c) && Clock(h, c) <= now <= later
    ensures var r, key := Looked(After(h, ttl), ttl, mac, now, later).1, Key(mac);
      && (r.Some? <==> exists i: nat :: Unbroken(h, ttl, key, i) && now - Touched(h, key, i, |h|) <= ttl)
      && (forall i: nat :: Unbroken(h, ttl, key, i) && r.Some? ==>
            r == Some(CachedIso(h[i].data, h[i].hash, h[i].at, later)))
  {
    GetRefines(h, ttl, c, mac, now, later);
    var key := Key(mac);
    forall i: nat | Unbroken(h, ttl, key, i)
      ensures Live(h, ttl, key) == Some(CachedIso(h[i].data, h[i].hash, h[i].at, Touched(h, key, i, |h|)))
    {
      UnbrokenLive(h, ttl, key, i);
    }
    if Live(h, ttl, key).Some? {
      var i := LiveUnbroken(h, ttl, key);
    }
  }
}
