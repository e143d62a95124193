/** The network and identity configuration of a bare-metal machine. */
module Nodes {

  datatype Node = Node(
    ip: string, netmask: string, gw: string, vlan: string, dev: string, hostname: string,
    dns: string, dns2: string, bondMembers: seq<string>, bondName: string, bondMode: string,
    lacpRate: string, hashPolicy: string, kernelNet: string)
  {
    predicate Bonded() { |bondMembers| > 0 }
  }

  function Count(s: string, c: char): nat {
    if s == "" then 0 else (if s[0] == c then 1 else 0) + Count(s[1..], c)
  }

  /** Whether a bond member is given by PCI address rather than by interface name. */
  predicate IsPciAddr(s: string) {
    Count(s, ':') >= 2 || (':' in s && '.' in s)
  }

  lemma {:induction false} CountConcat(a: string, b: string, c: char)
    ensures Count(a + b, c) == Count(a, c) + Count(b, c)
  {
    if a == "" {
      assert a + b == b;
    } else {
      CountConcat(a[1..], b, c);
      assert (a + b)[1..] == a[1..] + b;
    }
  }

  lemma {:induction false} CountNone(a: string, c: char)
    ensures Count(a, c) == 0 <==> c !in a
  {
    if a != "" {
      CountNone(a[1..], c);
      assert a == [a[0]] + a[1..];
    }
  }

  ghost predicate TwoOf(s: string, c: char) { exists i, j :: 0 <= i < j < |s| && s[i] == c && s[j] == c }

  lemma {:induction false} CountTwo(s: string, c: char)
    ensures Count(s, c) >= 2 <==> TwoOf(s, c)
  {
    if s != "" {
      var t := s[1..];
      CountTwo(t, c);
      CountNone(t, c);
      if TwoOf(t, c) {
        var i, j :| 0 <= i < j < |t| && t[i] == c && t[j] == c;
        assert s[i + 1] == c && s[j + 1] == c;
      } else if s[0] == c && c in t {
        var j :| 0 <= j < |t| && t[j] == c;
        assert s[0] == c && s[j + 1] == c;
      }
      if TwoOf(s, c) {
        var i, j :| 0 <= i < j < |s| && s[i] == c && s[j] == c;
        assert t[j - 1] == c;
        assert i > 0 ==> t[i - 1] == c;
      }
    }
  }

  /** A member is a PCI address exactly if it has two colons, or a colon and a dot. */
  lemma PciMeans(s: string)
    ensures IsPciAddr(s) <==> TwoOf(s, ':') || ((exists i :: 0 <= i < |s| && s[i] == ':') && (exists i :: 0 <= i < |s| && s[i] == '.'))
  {
    CountTwo(s, ':');
  }
}
