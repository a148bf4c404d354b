/** lib/volumes.go: comparing two lists of volume mappings. */
module Volumes {
  import opened Types

  /** `(*Volume).Equal`. */
  predicate SameVolume(v: Volume, o: Volume) {
    v.host == o.host && v.container == o.container && v.mode == o.mode
  }

  lemma SwapWithLast<T>(s: seq<T>, i: nat)
    requires i < |s|
    ensures multiset(s[i := s[|s| - 1]][..|s| - 1]) == multiset(s) - multiset{s[i]}
  {
    var n := |s| - 1;
    assert s == s[..n] + [s[n]];
    if i < n {
      assert s[..n] == s[..i] + [s[i]] + s[i + 1..n];
      assert s[i := s[n]][..n] == s[..i] + [s[n]] + s[i + 1..n];
    } else {
      assert s[i := s[n]][..n] == s[..n];
    }
  }

  lemma Struck<T>(all: seq<T>, i: nat, n: nat, v: T)
    requires i < n <= |all| && all[i] == v
    ensures v in all[..n] && multiset(all[i := all[n - 1]][..n - 1]) == multiset(all[..n]) - multiset{v}
  {
    assert all[..n][i] == v;
    SwapWithLast(all[..n], i);
    assert all[i := all[n - 1]][..n - 1] == all[..n][i := all[..n][n - 1]][..n - 1];
  }

  lemma OneStruck<T>(vs: seq<T>, k: nat, left: seq<T>, rest: seq<T>, o: multiset<T>)
    requires k < |vs| && multiset(vs[..k]) + multiset(left) == o
    requires vs[k] in left && multiset(rest) == multiset(left) - multiset{vs[k]}
    ensures multiset(vs[..k + 1]) + multiset(rest) == o
  {
    assert vs[..k + 1] == vs[..k] + [vs[k]];
    assert vs[k] in multiset(left);
  }

  lemma NoneStruck<T>(vs: seq<T>, k: nat, left: seq<T>, o: multiset<T>)
    requires k < |vs| && multiset(vs[..k]) + multiset(left) == o
    requires vs[k] !in left
    ensures multiset(vs) != o
  {
    assert vs == vs[..k] + [vs[k]] + vs[k + 1..];
    assert multiset(left)[vs[k]] == 0;
    assert multiset(vs)[vs[k]] >= multiset(vs[..k])[vs[k]] + 1;
  }

  /** The inner loop of `Volumes.Equal`: strikes one volume equal to `v` off the first `n` of
      `c`, and the last of them takes its place. */
  method StrikeOff(v: Volume, c: array<Volume>, n: nat) returns (matched: bool)
    requires n <= c.Length
    modifies c
    ensures matched <==> v in old(c[..n])
    ensures matched ==> multiset(c[..n - 1]) == multiset(old(c[..n])) - multiset{v}
    ensures !matched ==> c[..] == old(c[..])
  {
    ghost var all := c[..];
    assert c[..n] == all[..n];
    for i := 0 to n
      invariant c[..] == all && v !in all[..i]
    {
      assert all[..i + 1] == all[..i] + [all[i]];
      if SameVolume(v, c[i]) {
        Struck(all, i, n, v);
        c[i] := c[n - 1];
        assert c[..] == all[i := all[n - 1]];
        assert c[..n - 1] == c[..][..n - 1];
        return true;
      }
    }
    return false;
  }

  /** `Volumes.Equal`: each volume of `vs` strikes one equal volume off a copy of `o`. */
  method Equal(vs: array<Volume>, o: array<Volume>) returns (equal: bool)
    ensures equal <==> multiset(vs[..]) == multiset(o[..])
  {
    ghost var (wanted, target) := (vs[..], multiset(o[..]));
    assert |multiset(wanted)| == vs.Length && |target| == o.Length;
    if vs.Length != o.Length {
      return false;
    }
    var c := new Volume[o.Length](i requires 0 <= i < o.Length reads o => o[i]);
    assert c[..c.Length] == o[..];
    var n := c.Length;
    for k := 0 to vs.Length
      invariant n == vs.Length - k
      invariant multiset(wanted[..k]) + multiset(c[..n]) == target
    {
      ghost var left := c[..n];
      var matched := StrikeOff(vs[k], c, n);
      if !matched {
        NoneStruck(wanted, k, left, target);
        return false;
      }
      n := n - 1;
      OneStruck(wanted, k, left, c[..n], target);
    }
    assert wanted[..vs.Length] == wanted;
    return n == 0;
  }
}
