/** Families of maps and their disjoint unions. */
module Families {

  ghost predicate SubMap<I(!new), V>(a: map<I, V>, b: map<I, V>) {
    a.Keys <= b.Keys && forall i | i in a :: b[i] == a[i]
  }

  /** No key occurs in two members of the family. */
  ghost predicate PairwiseDisjoint<K(!new), I(!new), V>(f: map<K, map<I, V>>) {
    forall j, k | j in f && k in f && j != k :: f[j].Keys !! f[k].Keys
  }

  ghost predicate InMember<K(!new), I, V>(f: map<K, map<I, V>>, i: I, k: K) {
    k in f && i in f[k]
  }

  ghost predicate Within<K(!new), I(!new), V>(f: map<K, map<I, V>>, u: map<I, V>) {
    forall k | k in f :: SubMap(f[k], u)
  }

  ghost predicate Covered<K(!new), I(!new), V>(f: map<K, map<I, V>>, u: map<I, V>) {
    forall i :: i in u ==> exists k :: InMember(f, i, k)
  }

  ghost predicate IsUnion<K(!new), I(!new), V>(f: map<K, map<I, V>>, u: map<I, V>) {
    Within(f, u) && Covered(f, u)
  }

  lemma DisjointWith<K(!new), I(!new), V>(f: map<K, map<I, V>>, u: map<I, V>, k: K, m: map<I, V>)
    requires PairwiseDisjoint(f) && IsUnion(f, u) && k !in f
    ensures PairwiseDisjoint(f[k := m]) <==> u.Keys !! m.Keys
  {
    var g := f[k := m];
    if i :| i in u && i in m {
      var j :| InMember(f, i, j);
      assert g[j] == f[j] && g[k] == m;
      assert !PairwiseDisjoint(g);
    } else {
      forall j | j in f ensures f[j].Keys !! m.Keys {
        hide InMember;
        assert SubMap(f[j], u);
      }
    }
  }

  lemma SubMapUnion<I(!new), V>(a: map<I, V>, u: map<I, V>, m: map<I, V>)
    requires SubMap(a, u) && u.Keys !! m.Keys
    ensures SubMap(a, u + m)
  {}

  lemma SubMapRight<I(!new), V>(u: map<I, V>, m: map<I, V>)
    ensures SubMap(m, u + m)
  {}

  lemma WithinUnion<K(!new), I(!new), V>(f: map<K, map<I, V>>, u: map<I, V>, k: K, m: map<I, V>)
    requires Within(f, u) && k !in f && u.Keys !! m.Keys
    ensures Within(f[k := m], u + m)
  {
    hide SubMap;
    var g := f[k := m];
    forall j | j in g ensures SubMap(g[j], u + m) {
      if j == k { SubMapRight(u, m); } else { SubMapUnion(f[j], u, m); }
    }
  }

  lemma CoveredUnion<K(!new), I(!new), V>(f: map<K, map<I, V>>, u: map<I, V>, k: K, m: map<I, V>)
    requires Covered(f, u) && k !in f
    ensures Covered(f[k := m], u + m)
  {
    var g := f[k := m];
    forall i | i in u + m ensures exists j :: InMember(g, i, j) {
      if i in m {
        assert InMember(g, i, k);
      } else {
        var j :| InMember(f, i, j);
        assert InMember(g, i, j);
      }
    }
  }

  lemma UnionAt<K(!new), I(!new), V>(f: map<K, map<I, V>>, u: map<I, V>, w: map<I, V>, i: I)
    requires Covered(f, u) && Within(f, u) && Within(f, w) && i in u
    ensures i in w && u[i] == w[i]
  {
    var k :| InMember(f, i, k);
    assert SubMap(f[k], w) && SubMap(f[k], u);
    hide Covered;
  }

  lemma UnionUnique<K(!new), I(!new), V>(f: map<K, map<I, V>>, u: map<I, V>, w: map<I, V>)
    requires IsUnion(f, u) && IsUnion(f, w)
    ensures u == w
  {
    hide Covered, Within;
    forall i | i in u ensures i in w && u[i] == w[i] { UnionAt(f, u, w, i); }
    forall i | i in w ensures i in u { UnionAt(f, w, u, i); }
  }

  /** Part of a disjoint family is disjoint. */
  lemma DisjointPart<K(!new), I(!new), V>(f: map<K, map<I, V>>, g: map<K, map<I, V>>)
    requires forall k | k in g :: k in f && f[k] == g[k]
    ensures PairwiseDisjoint(f) ==> PairwiseDisjoint(g)
  {}

  lemma EmptyUnion<K(!new), I(!new), V>(f: map<K, map<I, V>>, u: map<I, V>)
    requires f == map[] && u == map[]
    ensures PairwiseDisjoint(f) && IsUnion(f, u)
  {}
}
