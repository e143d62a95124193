/** Byte strings, fixed-width integers and in-place writes into a zeroed buffer. */
module Bytes {

  type byte = x: int | 0 <= x < 256

  function Zeros(n: nat): (r: seq<byte>)
    ensures |r| == n
    ensures forall i :: 0 <= i < n ==> r[i] == 0
  {
    seq(n, _ => 0)
  }

  lemma ZerosSplit(m: nat, n: nat)
    ensures Zeros(m) + Zeros(n) == Zeros(m + n)
  {
  }

  /** The bytes of an ASCII string. */
  function Ascii(s: string): (r: seq<byte>)
    ensures |r| == |s|
    ensures forall i :: 0 <= i < |s| ==> r[i] == s[i] as int % 256
  {
    seq(|s|, i requires 0 <= i < |s| => s[i] as int % 256)
  }

  lemma AsciiConcat(a: string, b: string)
    ensures Ascii(a + b) == Ascii(a) + Ascii(b)
  {
  }

  lemma SliceOfPrefix(s: seq<byte>, t: seq<byte>, lo: nat, hi: nat)
    requires s <= t && lo <= hi <= |s|
    ensures t[lo..hi] == s[lo..hi]
  {
  }

  /** Go's uint16(x) for a non-negative x. */
  function U16(x: nat): (r: nat)
    ensures r < 0x1_0000
    ensures x < 0x1_0000 ==> r == x
  {
    x % 0x1_0000
  }

  /** Go's uint32(x) for a non-negative x. */
  function U32(x: nat): (r: nat)
    ensures r < 0x1_0000_0000
    ensures x < 0x1_0000_0000 ==> r == x
  {
    x % 0x1_0000_0000
  }

  function Le16(v: nat): (r: seq<byte>)
    requires v < 0x1_0000
    ensures |r| == 2
    ensures ReadLe16(r, 0) == v
  {
    [v % 256, v / 256]
  }

  function Le32(v: nat): (r: seq<byte>)
    requires v < 0x1_0000_0000
    ensures |r| == 4
    ensures ReadLe32(r, 0) == v
  {
    Le16(v % 0x1_0000) + Le16(v / 0x1_0000)
  }

  function Be16(v: nat): (r: seq<byte>)
    requires v < 0x1_0000
    ensures |r| == 2
  {
    [v / 256, v % 256]
  }

  function Be32(v: nat): (r: seq<byte>)
    requires v < 0x1_0000_0000
    ensures |r| == 4
  {
    Be16(v / 0x1_0000) + Be16(v % 0x1_0000)
  }

  function ReadLe16(s: seq<byte>, at: nat): (v: nat)
    requires at + 2 <= |s|
    ensures v < 0x1_0000
  {
    s[at] as int + 256 * (s[at + 1] as int)
  }

  function ReadLe32(s: seq<byte>, at: nat): (v: nat)
    requires at + 4 <= |s|
    ensures v < 0x1_0000_0000
  {
    ReadLe16(s, at) + 0x1_0000 * ReadLe16(s, at + 2)
  }

  /** Reading a field depends only on the bytes of its own slice. */
  lemma ReadSlice(s: seq<byte>, at: nat, field: seq<byte>)
    requires at + |field| <= |s| && s[at..at + |field|] == field
    ensures |field| >= 2 ==> ReadLe16(s, at) == ReadLe16(field, 0)
    ensures |field| >= 4 ==> ReadLe32(s, at) == ReadLe32(field, 0)
  {
    var slice := s[at..at + |field|];
    assert |field| >= 2 ==> s[at] == slice[0] && s[at + 1] == slice[1];
    assert |field| >= 4 ==> s[at + 2] == slice[2] && s[at + 3] == slice[3];
  }

  /** Go's copy(buf[at:], src): copies as much of src as fits and returns the count. */
  method Copy(buf: array<byte>, at: nat, src: seq<byte>) returns (n: nat)
    requires at <= buf.Length
    modifies buf
    ensures n == if |src| <= buf.Length - at then |src| else buf.Length - at
    ensures buf[..] == old(buf[..at]) + src[..n] + old(buf[at + n..])
  {
    n := if |src| <= buf.Length - at then |src| else buf.Length - at;
    forall i | 0 <= i < n {
      buf[at + i] := src[i];
    }
  }

  /** A field inside a slice reads the same through the whole. */
  lemma ReadWithin(s: seq<byte>, lo: nat, r: seq<byte>, at: nat)
    requires lo + |r| <= |s| && s[lo..lo + |r|] == r && at < |r|
    ensures s[lo + at] == r[at]
    ensures at + 2 <= |r| ==> ReadLe16(s, lo + at) == ReadLe16(r, at)
    ensures at + 4 <= |r| ==> ReadLe32(s, lo + at) == ReadLe32(r, at)
  {
    assert forall i :: 0 <= i < |r| ==> r[i] == s[lo..lo + |r|][i];
  }

  lemma SliceWithin(s: seq<byte>, lo: nat, r: seq<byte>, a: nat, b: nat)
    requires lo + |r| <= |s| && s[lo..lo + |r|] == r && a <= b <= |r|
    ensures s[lo + a..lo + b] == r[a..b]
  {
    forall i | 0 <= i < b - a
      ensures s[lo + a..lo + b][i] == r[a..b][i]
    {
      assert s[lo..lo + |r|][a + i] == s[lo + a + i];
    }
  }

  // ---- images as lists of in-place writes ----

  /** One in-place write. */
  datatype Write = Write(at: nat, data: seq<byte>) {
    function End(): nat { at + |data| }
  }

  ghost predicate InBounds(ws: seq<Write>, n: nat) {
    forall i :: 0 <= i < |ws| ==> ws[i].End() <= n
  }

  /** The writes lie between lo and hi, each one at or after the end of the one before. */
  ghost predicate Spans(ws: seq<Write>, lo: nat, hi: nat) {
    && lo <= hi
    && (forall i :: 0 <= i < |ws| ==> lo <= ws[i].at && ws[i].End() <= hi)
    && (forall i, j :: 0 <= i < j < |ws| ==> ws[i].End() <= ws[j].at)
  }

  lemma SpansConcat(a: seq<Write>, b: seq<Write>, lo: nat, mid: nat, hi: nat)
    requires Spans(a, lo, mid) && Spans(b, mid, hi)
    ensures Spans(a + b, lo, hi)
  {
  }

  lemma SpansOne(w: Write, lo: nat, hi: nat)
    requires lo <= w.at && w.End() <= hi
    ensures Spans([w], lo, hi)
  {
  }

  /** s with data written over it at offset at. */
  function Overwrite(s: seq<byte>, at: nat, data: seq<byte>): (r: seq<byte>)
    requires at + |data| <= |s|
    ensures |r| == |s|
  {
    s[..at] + data + s[at + |data|..]
  }

  /** s after the writes ws, first to last. */
  ghost function Apply(ws: seq<Write>, s: seq<byte>): (r: seq<byte>)
    requires InBounds(ws, |s|)
    ensures |r| == |s|
  {
    if ws == [] then s
    else
      Overwrite(Apply(ws[..|ws| - 1], s), ws[|ws| - 1].at, ws[|ws| - 1].data)
  }

  lemma OverwriteElsewhere(s: seq<byte>, at: nat, data: seq<byte>, lo: nat, hi: nat)
    requires at + |data| <= |s| && lo <= hi <= at
    ensures Overwrite(s, at, data)[lo..hi] == s[lo..hi]
  {
  }

  /** Of ordered writes each one reads back exactly. */
  lemma {:induction false} ReadBack(ws: seq<Write>, s: seq<byte>, j: nat)
    requires Spans(ws, 0, |s|) && j < |ws|
    ensures ws[j].End() <= |s| && Apply(ws, s)[ws[j].at..ws[j].End()] == ws[j].data
    decreases |ws|
  {
    var n := |ws| - 1;
    var before := Apply(ws[..n], s);
    if j < n {
      ReadBack(ws[..n], s, j);
      OverwriteElsewhere(before, ws[n].at, ws[n].data, ws[j].at, ws[j].End());
    } else {
      assert Overwrite(before, ws[n].at, ws[n].data)[ws[n].at..ws[n].End()] == ws[n].data;
    }
  }

  lemma ReadBackOf(ws: seq<Write>, s: seq<byte>, w: Write)
    requires Spans(ws, 0, |s|) && w in ws
    ensures w.End() <= |s| && Apply(ws, s)[w.at..w.End()] == w.data
  {
    var j :| 0 <= j < |ws| && ws[j] == w;
    ReadBack(ws, s, j);
  }

  /** A byte outside every write keeps its old value. */
  lemma {:induction false} Untouched(ws: seq<Write>, s: seq<byte>, p: nat)
    requires InBounds(ws, |s|) && p < |s|
    requires forall i :: 0 <= i < |ws| ==> p < ws[i].at || ws[i].End() <= p
    ensures Apply(ws, s)[p] == s[p]
    decreases |ws|
  {
    if ws != [] {
      Untouched(ws[..|ws| - 1], s, p);
    }
  }

  lemma UntouchedIn(ws: seq<Write>, s: seq<byte>, p: nat)
    requires Spans(ws, 0, |s|) && p < |s|
    requires forall w :: w in ws ==> p < w.at || w.End() <= p
    ensures Apply(ws, s)[p] == s[p]
  {
    Untouched(ws, s, p);
  }

  /** A byte in the gap after write j keeps its old value. */
  lemma GapUntouched(ws: seq<Write>, s: seq<byte>, j: nat, p: nat)
    requires Spans(ws, 0, |s|) && j < |ws| && p < |s|
    requires ws[j].End() <= p && (j + 1 < |ws| ==> p < ws[j + 1].at)
    ensures Apply(ws, s)[p] == s[p]
  {
    forall i | 0 <= i < |ws|
      ensures p < ws[i].at || ws[i].End() <= p
    {
      if i < j {
        assert ws[i].End() <= ws[j].at;
      } else if i > j + 1 {
        assert ws[j + 1].End() <= ws[i].at;
      }
    }
    Untouched(ws, s, p);
  }

  lemma ApplySnoc(ws: seq<Write>, w: Write, s: seq<byte>)
    requires InBounds(ws, |s|) && w.End() <= |s|
    ensures InBounds(ws + [w], |s|)
    ensures Apply(ws + [w], s) == Overwrite(Apply(ws, s), w.at, w.data)
  {
    assert (ws + [w])[..|ws|] == ws;
  }

  lemma ApplyTwo(ws: seq<Write>, v: Write, w: Write, s: seq<byte>)
    requires InBounds(ws, |s|) && v.End() <= |s| && w.End() <= |s|
    ensures InBounds(ws + [v] + [w], |s|)
    ensures Apply(ws + [v] + [w], s) == Overwrite(Overwrite(Apply(ws, s), v.at, v.data), w.at, w.data)
  {
    ApplySnoc(ws, v, s);
    ApplySnoc(ws + [v], w, s);
  }

  /** Two adjacent writes are one write of the joined data. */
  lemma MergeAdjacent(ws: seq<Write>, at: nat, x: seq<byte>, y: seq<byte>, s: seq<byte>)
    requires InBounds(ws, |s|) && at + |x| + |y| <= |s|
    ensures InBounds(ws + [Write(at, x)] + [Write(at + |x|, y)], |s|) && InBounds(ws + [Write(at, x + y)], |s|)
    ensures Apply(ws + [Write(at, x)] + [Write(at + |x|, y)], s) == Apply(ws + [Write(at, x + y)], s)
  {
    hide Apply, InBounds;
    ApplyTwo(ws, Write(at, x), Write(at + |x|, y), s);
    ApplySnoc(ws, Write(at, x + y), s);
    OverwriteAdjacent(Apply(ws, s), at, x, y);
  }

  lemma OverwriteAdjacent(s: seq<byte>, at: nat, x: seq<byte>, y: seq<byte>)
    requires at + |x| + |y| <= |s|
    ensures Overwrite(Overwrite(s, at, x), at + |x|, y) == Overwrite(s, at, x + y)
  {
  }

  /** buf started as zeros and has received exactly the writes ws. */
  ghost predicate Holds(buf: array<byte>, ws: seq<Write>)
    reads buf
  {
    InBounds(ws, buf.Length) && buf[..] == Apply(ws, Zeros(buf.Length))
  }

  /** copy(buf[at:], src), where src fits. */
  method Put(buf: array<byte>, at: nat, src: seq<byte>, ghost ws: seq<Write>) returns (ghost ws': seq<Write>)
    requires Holds(buf, ws) && at + |src| <= buf.Length
    modifies buf
    ensures ws' == ws + [Write(at, src)] && Holds(buf, ws')
  {
    var n := Copy(buf, at, src);
    ws' := ws + [Write(at, src)];
    ApplySnoc(ws, Write(at, src), Zeros(buf.Length));
  }

  // ---- several writes into one region ----

  /** The region of buf from lo on has become t, on top of the writes ws. */
  ghost predicate Window(buf: array<byte>, ws: seq<Write>, lo: nat, t: seq<byte>)
    reads buf
  {
    InBounds(ws, buf.Length) && lo + |t| <= buf.Length && Holds(buf, ws + [Write(lo, t)])
  }

  lemma OverwriteInside(s: seq<byte>, lo: nat, t: seq<byte>, at: nat, data: seq<byte>)
    requires lo + |t| <= |s| && lo <= at && at + |data| <= lo + |t|
    ensures Overwrite(Overwrite(s, lo, t), at, data) == Overwrite(s, lo, Overwrite(t, at - lo, data))
  {
  }

  /** A region that no write has reached is a window of zeros. */
  lemma OpenWindow(buf: array<byte>, ws: seq<Write>, lo: nat, n: nat)
    requires Holds(buf, ws) && Spans(ws, 0, lo) && lo + n <= buf.Length
    ensures Window(buf, ws, lo, Zeros(n))
  {
    var s := Zeros(buf.Length);
    forall p | lo <= p < lo + n
      ensures Apply(ws, s)[p] == 0
    {
      Untouched(ws, s, p);
    }
    hide Apply;
    ApplySnoc(ws, Write(lo, Zeros(n)), s);
    assert Apply(ws, s)[lo..lo + n] == Zeros(n);
    assert Overwrite(Apply(ws, s), lo, Zeros(n)) == Apply(ws, s);
  }

  lemma WindowBytes(buf: array<byte>, ws: seq<Write>, lo: nat, t: seq<byte>)
    requires Window(buf, ws, lo, t)
    ensures lo + |t| <= buf.Length && buf[lo..lo + |t|] == t
  {
    ApplySnoc(ws, Write(lo, t), Zeros(buf.Length));
  }

  method PutInside(buf: array<byte>, lo: nat, at: nat, src: seq<byte>, ghost ws: seq<Write>, ghost t: seq<byte>)
    returns (ghost t': seq<byte>)
    requires Window(buf, ws, lo, t) && lo <= at && at + |src| <= lo + |t|
    modifies buf
    ensures t' == Overwrite(t, at - lo, src) && Window(buf, ws, lo, t')
  {
    ghost var s := Zeros(buf.Length);
    ghost var _ := Put(buf, at, src, ws + [Write(lo, t)]);
    t' := Overwrite(t, at - lo, src);
    hide Apply;
    ApplyTwo(ws, Write(lo, t), Write(at, src), s);
    ApplySnoc(ws, Write(lo, t'), s);
    OverwriteInside(Apply(ws, s), lo, t, at, src);
  }

  /** The byte strings of es one after the other. */
  function Flatten(es: seq<seq<byte>>): (r: seq<byte>)
  {
    if es == [] then [] else Flatten(es[..|es| - 1]) + es[|es| - 1]
  }

  /** One more record at the end of the records already copied. */
  method PutNext(buf: array<byte>, at: nat, done: seq<byte>, e: seq<byte>, ghost ws: seq<Write>)
    requires Holds(buf, ws + [Write(at, done)]) && InBounds(ws, buf.Length)
    requires at + |done| + |e| <= buf.Length
    modifies buf
    ensures Holds(buf, ws + [Write(at, done + e)])
  {
    ghost var _ := Put(buf, at + |done|, e, ws + [Write(at, done)]);
    MergeAdjacent(ws, at, done, e, Zeros(buf.Length));
  }

  /** Copies records one after the other, each at the end of the last. */
  method PutRecords(buf: array<byte>, at: nat, es: seq<seq<byte>>, ghost ws: seq<Write>) returns (ghost ws': seq<Write>)
    requires Holds(buf, ws) && at + |Flatten(es)| <= buf.Length
    modifies buf
    ensures ws' == ws + [Write(at, Flatten(es))] && Holds(buf, ws')
  {
    ApplySnoc(ws, Write(at, []), Zeros(buf.Length));
    for i := 0 to |es|
      invariant Holds(buf, ws + [Write(at, Flatten(es[..i]))])
    {
      assert es[..i + 1][..i] == es[..i];
      FlattenPrefix(es, i + 1);
      hide Apply, Zeros;
      PutNext(buf, at, Flatten(es[..i]), es[i], ws);
    }
    assert es[..|es|] == es;
    ws' := ws + [Write(at, Flatten(es))];
  }

  lemma {:induction false} FlattenPrefix(es: seq<seq<byte>>, n: nat)
    requires n <= |es|
    ensures |Flatten(es[..n])| <= |Flatten(es)|
    decreases |es|
  {
    if n < |es| {
      FlattenPrefix(es[..|es| - 1], n);
      assert es[..|es| - 1][..n] == es[..n];
    } else {
      assert es[..n] == es;
    }
  }
}
