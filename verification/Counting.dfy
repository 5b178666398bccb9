/** Counting the entries of a finite map whose value satisfies a predicate. */
module Counting {

  ghost function Matching<K, V>(m: map<K, V>, p: V -> bool): set<K> {
    set k | k in m && p(m[k])
  }

  ghost function Count<K, V>(m: map<K, V>, p: V -> bool): nat {
    |Matching(m, p)|
  }

  function One(b: bool): nat {
    if b then 1 else 0
  }

  lemma CountUpdate<K, V>(m: map<K, V>, k: K, v: V, p: V -> bool)
    ensures Count(m[k := v], p) == Count(m, p) - One(k in m && p(m[k])) + One(p(v))
  {
    var others := set j | j in m && j != k && p(m[j]);
    MatchingSplit(m, k, p, others);
    assert forall j :: j in others <==> j in m[k := v] && j != k && p(m[k := v][j]);
    MatchingSplit(m[k := v], k, p, others);
  }

  lemma MatchingSplit<K, V>(m: map<K, V>, k: K, p: V -> bool, others: set<K>)
    requires forall j :: j in others <==> j in m && j != k && p(m[j])
    ensures Count(m, p) == |others| + One(k in m && p(m[k]))
  {
    if k in m && p(m[k]) {
      assert Matching(m, p) == others + {k};
    } else {
      assert Matching(m, p) == others;
    }
  }

  lemma CountRemove<K, V>(m: map<K, V>, k: K, p: V -> bool)
    requires k in m
    ensures Count(m - {k}, p) == Count(m, p) - One(p(m[k]))
  {
    var others := set j | j in m && j != k && p(m[j]);
    MatchingSplit(m, k, p, others);
    assert forall j :: j in others <==> j in m - {k} && j != k && p((m - {k})[j]);
    MatchingSplit(m - {k}, k, p, others);
  }

  lemma CountWitness<K, V>(m: map<K, V>, p: V -> bool) returns (k: K)
    requires Count(m, p) > 0
    ensures k in m && p(m[k])
  {
    k :| k in Matching(m, p);
  }

  lemma CountPositive<K, V>(m: map<K, V>, k: K, p: V -> bool)
    requires k in m && p(m[k])
    ensures Count(m, p) > 0
  {
    assert k in Matching(m, p);
  }

  lemma CountZero<K, V>(m: map<K, V>, p: V -> bool)
    requires forall k :: k in m ==> !p(m[k])
    ensures Count(m, p) == 0
  {
    assert Matching(m, p) == {};
  }

  lemma CountMonotone<K, V>(m: map<K, V>, p: V -> bool, q: V -> bool)
    requires forall k :: k in m && p(m[k]) ==> q(m[k])
    ensures Count(m, p) <= Count(m, q)
  {
    var rest := Matching(m, q) - Matching(m, p);
    assert Matching(m, q) == Matching(m, p) + rest;
  }

  lemma SubsetSize<T>(a: set<T>, b: set<T>)
    requires a <= b
    ensures |a| <= |b|
  {
    assert b == a + (b - a);
  }

  lemma SubsetOfSameSize<T>(a: set<T>, b: set<T>)
    requires a <= b && |a| == |b|
    ensures a == b
  {
    var rest := b - a;
    assert b == a + rest;
    assert |rest| == 0;
  }

  /** A number above all those of a set. */
  lemma {:induction false} Above(xs: set<int>) returns (b: int)
    ensures forall x :: x in xs ==> x < b
    decreases |xs|
  {
    if x :| x in xs {
      var rest := xs - {x};
      SubsetSize(rest, xs);
      assert xs == rest + {x};
      b := Above(rest);
      b := if x < b then b else x + 1;
    } else {
      b := 0;
    }
  }
}
