/** The writer that breaks its output into lines of fixed length. */
module LineWrap {
  const NL := '\n'

  /** What is written for data when the current line already has col characters. */
  function Wrapped(data: string, lineLen: nat, col: nat): (r: string)
    requires col < lineLen
    decreases |data|
  {
    if data == [] then []
    else if col + 1 == lineLen then [data[0], NL] + Wrapped(data[1..], lineLen, 0)
    else [data[0]] + Wrapped(data[1..], lineLen, col + 1)
  }

  /** The column after n more characters. */
  function Column(col: nat, n: nat, lineLen: nat): (c: nat)
    requires col < lineLen
    ensures c < lineLen
    decreases n
  {
    if n == 0 then col
    else if col + 1 == lineLen then Column(0, n - 1, lineLen)
    else Column(col + 1, n - 1, lineLen)
  }

  class LineWrapWriter {
    var out: string
    const lineLen: nat
    var col: nat

    ghost predicate Valid()
      reads this
    {
      col < lineLen
    }

    constructor (lineLen: nat)
      requires lineLen > 0
      ensures Valid() && out == [] && col == 0 && this.lineLen == lineLen
    {
      this.lineLen := lineLen;
      out := [];
      col := 0;
    }

    method Write(data: string) returns (n: nat)
      requires Valid()
      modifies this
      ensures Valid() && n == |data|
      ensures out == old(out) + Wrapped(data, lineLen, old(col))
      ensures col == Column(old(col), |data|, lineLen)
    {
      n := |data|;
      var p := data;
      assert out + Wrapped(p, lineLen, col) == old(out) + Wrapped(data, lineLen, old(col));
      while |p| > 0
        invariant Valid()
        invariant out + Wrapped(p, lineLen, col) == old(out) + Wrapped(data, lineLen, old(col))
        invariant Column(col, |p|, lineLen) == Column(old(col), |data|, lineLen)
        decreases |p|
      {
        var remain := lineLen - col;
        if |p| < remain {
          ShortRun(p, lineLen, col);
          out := out + p;
          col := col + |p|;
          p := [];
          break;
        }
        FullRun(p, lineLen, col);
        assert out + (p[..remain] + [NL] + Wrapped(p[remain..], lineLen, 0))
            == out + p[..remain] + [NL] + Wrapped(p[remain..], lineLen, 0);
        out := out + p[..remain];
        out := out + [NL];
        p := p[remain..];
        col := 0;
      }
      assert out + Wrapped([], lineLen, col) == out;
    }
  }

  /** Data that does not fill the line is written as it is. */
  lemma {:induction false} ShortRun(p: string, lineLen: nat, col: nat)
    requires col + |p| < lineLen
    ensures Wrapped(p, lineLen, col) == p && Column(col, |p|, lineLen) == col + |p|
    decreases |p|
  {
    if p != [] {
      ShortRun(p[1..], lineLen, col + 1);
    }
  }

  /** Data that fills the line ends it. */
  lemma {:induction false} FullRun(p: string, lineLen: nat, col: nat)
    requires col < lineLen && |p| >= lineLen - col
    ensures var remain := lineLen - col;
      && Wrapped(p, lineLen, col) == p[..remain] + [NL] + Wrapped(p[remain..], lineLen, 0)
      && Column(col, |p|, lineLen) == Column(0, |p| - remain, lineLen)
    decreases lineLen - col
  {
    var remain := lineLen - col;
    if remain > 1 {
      FullRun(p[1..], lineLen, col + 1);
      assert p[1..][remain - 1..] == p[remain..];
      assert [p[0]] + (p[1..][..remain - 1] + [NL] + Wrapped(p[remain..], lineLen, 0))
          == p[..remain] + [NL] + Wrapped(p[remain..], lineLen, 0);
    }
  }

  /** Writing in two pieces is writing the whole. */
  lemma {:induction false} WrappedConcat(a: string, b: string, lineLen: nat, col: nat)
    requires col < lineLen
    ensures Wrapped(a + b, lineLen, col) == Wrapped(a, lineLen, col) + Wrapped(b, lineLen, Column(col, |a|, lineLen))
    ensures Column(col, |a + b|, lineLen) == Column(Column(col, |a|, lineLen), |b|, lineLen)
    decreases |a|
  {
    if a == [] {
      assert a + b == b;
    } else {
      assert (a + b)[1..] == a[1..] + b;
      WrappedConcat(a[1..], b, lineLen, if col + 1 == lineLen then 0 else col + 1);
    }
  }

  /** A sequence of writes. */
  ghost function WriteAll(chunks: seq<string>, lineLen: nat, col: nat): (r: string)
    requires col < lineLen
    decreases |chunks|
  {
    if chunks == [] then []
    else Wrapped(chunks[0], lineLen, col) + WriteAll(chunks[1..], lineLen, Column(col, |chunks[0]|, lineLen))
  }

  ghost function Concat(chunks: seq<string>): string {
    if chunks == [] then [] else chunks[0] + Concat(chunks[1..])
  }

  /** The output depends only on the concatenation of the writes, however it is cut. */
  lemma {:induction false} ChunksIrrelevant(chunks: seq<string>, lineLen: nat, col: nat)
    requires col < lineLen
    ensures WriteAll(chunks, lineLen, col) == Wrapped(Concat(chunks), lineLen, col)
    decreases |chunks|
  {
    if chunks != [] {
      ChunksIrrelevant(chunks[1..], lineLen, Column(col, |chunks[0]|, lineLen));
      WrappedConcat(chunks[0], Concat(chunks[1..]), lineLen, col);
    }
  }

  /** Lines of exactly lineLen characters, and a last one that is shorter. */
  ghost function ByLines(data: string, lineLen: nat): string
    requires lineLen > 0
    decreases |data|
  {
    if |data| < lineLen then data else data[..lineLen] + [NL] + ByLines(data[lineLen..], lineLen)
  }

  /** From an empty line, every completed line has exactly lineLen characters. */
  lemma {:induction false} LinesExact(data: string, lineLen: nat)
    requires lineLen > 0
    ensures Wrapped(data, lineLen, 0) == ByLines(data, lineLen)
    decreases |data|
  {
    if |data| < lineLen {
      ShortRun(data, lineLen, 0);
    } else {
      FullRun(data, lineLen, 0);
      LinesExact(data[lineLen..], lineLen);
    }
  }

  /** s without the characters in drop. */
  function Strip(s: string, drop: set<char>): string {
    if s == "" then "" else (if s[0] in drop then "" else [s[0]]) + Strip(s[1..], drop)
  }

  lemma StripCons(x: char, s: string, drop: set<char>)
    ensures Strip([x] + s, drop) == (if x in drop then "" else [x]) + Strip(s, drop)
  {
    assert ([x] + s)[1..] == s;
  }

  /** One character and its line break, as they are stripped. */
  lemma StripStep(x: char, broken: bool, w: string, drop: set<char>)
    requires NL in drop
    ensures Strip((if broken then [x, NL] else [x]) + w, drop) == (if x in drop then "" else [x]) + Strip(w, drop)
  {
    StripCons(NL, w, drop);
    if broken {
      StripCons(x, [NL] + w, drop);
      assert [x, NL] + w == [x] + ([NL] + w);
    } else {
      StripCons(x, w, drop);
    }
  }

  /** Dropping newlines, and whatever else, from the output is dropping them from the data. */
  lemma {:induction false} UnwrapRestores(data: string, lineLen: nat, col: nat, drop: set<char>)
    requires col < lineLen && NL in drop
    ensures Strip(Wrapped(data, lineLen, col), drop) == Strip(data, drop)
    decreases |data|
  {
    if data != "" {
      var next := if col + 1 == lineLen then 0 else col + 1;
      UnwrapRestores(data[1..], lineLen, next, drop);
      StripStep(data[0], col + 1 == lineLen, Wrapped(data[1..], lineLen, next), drop);
      assert Strip(data, drop) == (if data[0] in drop then "" else [data[0]]) + Strip(data[1..], drop);
      hide Strip;
    }
  }

  /** Data with nothing to drop comes back as it was. */
  lemma {:induction false} StripNothing(data: string, drop: set<char>)
    requires forall c :: c in data ==> c !in drop
    ensures Strip(data, drop) == data
  {
    if data != "" {
      StripNothing(data[1..], drop);
    }
  }
}
