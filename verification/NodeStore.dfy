/** The node store: a map of known nodes, reloaded from a file while requests read and add to
    it. */
module NodeStore {
  import opened Wrappers
  import opened Nodes

  const MAX_VERSION := 1

  datatype NodesFile = NodesFile(version: int, nodes: map<string, Node>)

  /** The library functions: the canonical form of a key, the digest of a file's bytes, and
      the decoding of its JSON. */
  datatype Library = Library(norm: string -> string, sum: string -> string, unmarshal: string -> Option<NodesFile>)

  datatype FileState = Missing | Unreadable | Content(bytes: string)

  predicate Accepts(lib: Library, bytes: string) {
    var f := lib.unmarshal(bytes);
    f.Some? && f.value.version <= MAX_VERSION
  }

  // ---- parsing ----

  /** Every key in canonical form, with the node of one of the keys that have that form. */
  ghost predicate Normalizes<K(!new), V>(norm: K -> K, raw: map<K, V>, m: map<K, V>) {
    && (forall k :: k in raw ==> norm(k) in m)
    && (forall x :: x in m ==> exists k :: k in raw && norm(k) == x && raw[k] == m[x])
  }

  /** The loop over the decoded nodes, which come in no particular order. */
  method NormalizeNodes<K(==,!new), V>(norm: K -> K, raw: map<K, V>) returns (out: map<K, V>)
    ensures Normalizes(norm, raw, out)
  {
    out := map[];
    var todo := raw.Keys;
    while todo != {}
      invariant todo <= raw.Keys
      invariant forall k :: k in raw && k !in todo ==> norm(k) in out
      invariant forall x :: x in out ==> exists k :: k in raw && norm(k) == x && raw[k] == out[x]
      decreases |todo|
    {
      var k :| k in todo;
      out := out[norm(k) := raw[k]];
      todo := todo - {k};
    }
  }

  /** Some canonical map, with a given key's node where that key lands. */
  lemma NormalizedWith<K(!new), V>(norm: K -> K, raw: map<K, V>, k: K) returns (m: map<K, V>)
    requires k in raw
    ensures Normalizes(norm, raw, m) && m[norm(k)] == raw[k]
  {
    var forms := set j | j in raw :: norm(j);
    var some := map x | x in forms :: raw[NormalizedKey(norm, raw, x)];
    m := some[norm(k) := raw[k]];
  }

  ghost function NormalizedKey<K(!new), V>(norm: K -> K, raw: map<K, V>, x: K): (k: K)
    requires exists k :: k in raw && norm(k) == x
    ensures k in raw && norm(k) == x
  {
    var k :| k in raw && norm(k) == x; k
  }

  lemma SameNodes<K(!new), V>(norm: K -> K, raw: map<K, V>, m: map<K, V>, n: map<K, V>, x: K)
    requires Normalizes(norm, raw, m) && Normalizes(norm, raw, n) && x in m
    requires forall j, k :: j in raw && k in raw && norm(j) == norm(k) ==> raw[j] == raw[k]
    ensures x in n && m[x] == n[x]
  {
    var j :| j in raw && norm(j) == x && raw[j] == m[x];
    var k :| k in raw && norm(k) == x && raw[k] == n[x];
  }

  /** The result of parsing is determined by the file exactly when keys with one canonical form
      have one node. */
  lemma ParseDetermined<K(!new), V(!new)>(norm: K -> K, raw: map<K, V>)
    ensures (forall m, n :: Normalizes(norm, raw, m) && Normalizes(norm, raw, n) ==> m == n)
       <==> (forall j, k :: j in raw && k in raw && norm(j) == norm(k) ==> raw[j] == raw[k])
  {
    if forall j, k :: j in raw && k in raw && norm(j) == norm(k) ==> raw[j] == raw[k] {
      forall m, n | Normalizes(norm, raw, m) && Normalizes(norm, raw, n)
        ensures m == n
      {
        forall x | x in m ensures x in n && m[x] == n[x] { SameNodes(norm, raw, m, n, x); }
        forall x | x in n ensures x in m { SameNodes(norm, raw, n, m, x); }
        hide Normalizes;
      }
    } else {
      var j, k :| j in raw && k in raw && norm(j) == norm(k) && raw[j] != raw[k];
      var m := NormalizedWith(norm, raw, j);
      var n := NormalizedWith(norm, raw, k);
      hide Normalizes;
      assert m[norm(j)] != n[norm(j)];
    }
  }

  // ---- differences ----

  function Changed<K, V(==)>(before: map<K, V>, after: map<K, V>): set<K> {
    set k | k in after && k in before && before[k] != after[k]
  }

  /** The loop over the new nodes. */
  method CountNew<K(==), V(==)>(before: map<K, V>, after: map<K, V>) returns (added: nat, changed: nat)
    ensures added == |after.Keys - before.Keys| && changed == |Changed(before, after)|
  {
    added, changed := 0, 0;
    var todo := after.Keys;
    ghost var both := Changed(before, after);
    assert todo * both == both;
    while todo != {}
      invariant todo <= after.Keys
      invariant added + |todo - before.Keys| == |after.Keys - before.Keys|
      invariant changed + |todo * both| == |both|
      decreases |todo|
    {
      var k :| k in todo;
      LessOne(todo, k, before.Keys);
      assert k in both <==> k in before && before[k] != after[k];
      if k !in before {
        added := added + 1;
      } else if before[k] != after[k] {
        changed := changed + 1;
      }
      LessOneMeet(todo, k, both);
      todo := todo - {k};
    }
  }

  /** The loop over the old nodes. */
  method CountGone<K(==), V>(before: map<K, V>, after: map<K, V>) returns (removed: nat)
    ensures removed == |before.Keys - after.Keys|
  {
    removed := 0;
    var todo := before.Keys;
    while todo != {}
      invariant todo <= before.Keys
      invariant removed + |todo - after.Keys| == |before.Keys - after.Keys|
      decreases |todo|
    {
      var k :| k in todo;
      LessOne(todo, k, after.Keys);
      if k !in after {
        removed := removed + 1;
      }
      todo := todo - {k};
    }
  }

  method DiffNodes<K(==), V(==)>(before: map<K, V>, after: map<K, V>)
    returns (added: nat, removed: nat, changed: nat)
    ensures added == |after.Keys - before.Keys| && removed == |before.Keys - after.Keys|
    ensures changed == |Changed(before, after)|
    ensures |after| - |before| == added - removed
  {
    added, changed := CountNew(before, after);
    removed := CountGone(before, after);
    SizeDifference(before.Keys, after.Keys);
    assert |after| == |after.Keys| && |before| == |before.Keys|;
  }

  /** No difference is reported exactly if the nodes are the same. */
  lemma NoDifference<K, V>(before: map<K, V>, after: map<K, V>)
    ensures after.Keys - before.Keys == {} && before.Keys - after.Keys == {} && Changed(before, after) == {} <==> before == after
    ensures forall k :: k in Changed(before, after) <==> k in before && k in after && before[k] != after[k]
  {
    if after.Keys - before.Keys == {} && before.Keys - after.Keys == {} && Changed(before, after) == {} {
      forall k | k in before
        ensures k in after && before[k] == after[k]
      {
        assert k in after by {
          assert k !in before.Keys - after.Keys;
        }
        assert k !in Changed(before, after);
      }
      forall k | k in after
        ensures k in before
      {
        assert k !in after.Keys - before.Keys;
      }
    }
  }

  lemma LessOne<K>(todo: set<K>, k: K, other: set<K>)
    requires k in todo
    ensures |todo - other| == |todo - {k} - other| + if k in other then 0 else 1
    ensures |todo - {k}| == |todo| - 1
  {
    if k in other {
      assert todo - other == todo - {k} - other;
    } else {
      assert todo - {k} - other == (todo - other) - {k};
    }
  }

  lemma LessOneMeet<K>(todo: set<K>, k: K, other: set<K>)
    requires k in todo
    ensures |todo * other| == |(todo - {k}) * other| + if k in other then 1 else 0
  {
    if k in other {
      assert (todo - {k}) * other == todo * other - {k};
    } else {
      assert todo * other == (todo - {k}) * other;
    }
  }

  lemma SizeDifference<K>(a: set<K>, b: set<K>)
    ensures |b| - |a| == |b - a| - |a - b|
  {
    assert a == (a - b) + (a * b) && b == (b - a) + (a * b);
    assert |a| == |a - b| + |a * b|;
    assert |b| == |b - a| + |a * b|;
  }

  // ---- the store ----

  /** The node that a lookup finds under a spelling of its key. */
  function Find<K, V>(norm: K -> K, m: map<K, V>, a: K): Option<V> {
    if norm(a) in m then Some(m[norm(a)]) else None
  }

  /** After loading: a key finds a node if and only if some key of the file spells the same, and
      then the node of such a key; so it finds the file's own node where the file is consistent. */
  lemma FoundAfterLoad<K(!new), V>(norm: K -> K, raw: map<K, V>, m: map<K, V>, a: K)
    requires Normalizes(norm, raw, m)
    ensures Find(norm, m, a).Some? <==> exists k :: k in raw && norm(k) == norm(a)
    ensures Find(norm, m, a).Some? ==> exists k :: k in raw && norm(k) == norm(a) && Find(norm, m, a) == Some(raw[k])
    ensures (forall j, k :: j in raw && k in raw && norm(j) == norm(k) ==> raw[j] == raw[k]) && a in raw ==>
      Find(norm, m, a) == Some(raw[a])
  {
    if norm(a) in m {
      var k :| k in raw && norm(k) == norm(a) && raw[k] == m[norm(a)];
      assert Find(norm, m, a) == Some(raw[k]);
    }
  }

  datatype Outcome = Unchanged | Failed | Reloaded

  class NodeStore {
    const lib: Library
    const hasPath: bool
    var nodes: map<string, Node>
    var hash: Option<string>

    constructor (lib: Library, hasPath: bool)
      ensures this.lib == lib && this.hasPath == hasPath && nodes == map[] && hash == None
    {
      this.lib := lib;
      this.hasPath := hasPath;
      nodes := map[];
      hash := None;
    }

    /** The answer is that of every spelling of the key. */
    method Get(mac: string) returns (n: Option<Node>)
      ensures forall a :: lib.norm(a) == lib.norm(mac) ==> n == Find(lib.norm, nodes, a)
    {
      if lib.norm(mac) in nodes {
        n := Some(nodes[lib.norm(mac)]);
      } else {
        n := None;
      }
    }

    /** Every spelling of the key finds the new node; every other key finds what it found before. */
    method Put(mac: string, n: Node)
      modifies this
      ensures nodes == old(nodes)[lib.norm(mac) := n] && hash == old(hash)
      ensures forall a :: lib.norm(a) == lib.norm(mac) ==> Find(lib.norm, nodes, a) == Some(n)
      ensures forall a :: lib.norm(a) != lib.norm(mac) ==> Find(lib.norm, nodes, a) == Find(lib.norm, old(nodes), a)
    {
      nodes := nodes[lib.norm(mac) := n];
    }

    /** A reload on its own. Whatever fails, and whatever repeats the last content, leaves the
        store as it was; new content replaces nodes and digest together. */
    method Reload(file: FileState) returns (r: Outcome)
      modifies this
      ensures !hasPath || file.Missing? ==> r == Unchanged && nodes == old(nodes) && hash == old(hash)
      ensures hasPath && file.Unreadable? ==> r == Failed && nodes == old(nodes) && hash == old(hash)
      ensures hasPath && file.Content? ==>
        if old(hash) == Some(lib.sum(file.bytes)) then
          r == Unchanged && nodes == old(nodes) && hash == old(hash)
        else if lib.unmarshal(file.bytes).None? || lib.unmarshal(file.bytes).value.version > 1 then
          r == Failed && nodes == old(nodes) && hash == old(hash)
        else
          && r == Reloaded && hash == Some(lib.sum(file.bytes))
          && Normalizes(lib.norm, lib.unmarshal(file.bytes).value.nodes, nodes)
    {
      if !hasPath {
        return Unchanged;
      }
      match file
      case Missing => return Unchanged;
      case Unreadable => return Failed;
      case Content(b) =>
        var sum := lib.sum(b);
        if hash == Some(sum) {
          return Unchanged;
        }
        var f := lib.unmarshal(b);
        if f.None? || f.value.version > MAX_VERSION {
          return Failed;
        }
        var parsed := NormalizeNodes(lib.norm, f.value.nodes);
        var before := nodes;
        nodes := parsed;
        hash := Some(sum);
        var added, removed, changed := DiffNodes(before, parsed);
        return Reloaded;
    }
  }
}
