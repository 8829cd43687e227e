/** Shared vocabulary: optional values, counting over the entries of a map, and sums. */
module Common {
  datatype Option<+T> = None | Some(value: T)

  function Bit(b: bool): int {
    if b then 1 else 0
  }

  /** Keys of `m` whose value satisfies `p`. */
  function Matching<K, V>(m: map<K, V>, p: V -> bool): (s: set<K>)
    ensures s <= m.Keys
  {
    set k | k in m && p(m[k])
  }

  /** An entry that does not match may come, go or change. */
  lemma SameMatching<K, V>(m: map<K, V>, m': map<K, V>, k: K, p: V -> bool)
    requires m - {k} == m' - {k}
    requires !(k in m && p(m[k])) && !(k in m' && p(m'[k]))
    ensures Matching(m, p) == Matching(m', p)
  {
    assert forall j :: j != k && j in m ==> j in m - {k} && (m - {k})[j] == m[j];
    assert forall j :: j != k && j in m' ==> j in m' - {k} && (m' - {k})[j] == m'[j];
  }

  /** How many entries of `m` satisfy `p`. */
  function Count<K, V>(m: map<K, V>, p: V -> bool): nat {
    |Matching(m, p)|
  }

  /** Writing one entry moves the count by what the entry was and what it became. */
  lemma CountUpdate<K, V>(m: map<K, V>, k: K, v: V, p: V -> bool)
    ensures Count(m[k := v], p)
         == Count(m, p) - Bit(k in m && p(m[k])) + Bit(p(v))
  {
    var before, after := Matching(m, p), Matching(m[k := v], p);
    if p(v) {
      assert after == before + {k};
    } else {
      assert after == before - {k};
    }
  }

  /** Dropping one entry takes away exactly its own contribution. */
  lemma CountRemove<K, V>(m: map<K, V>, k: K, p: V -> bool)
    ensures Count(m - {k}, p) == Count(m, p) - Bit(k in m && p(m[k]))
  {
    assert Matching(m - {k}, p) == Matching(m, p) - {k};
  }

  lemma CountMonotone<K, V>(m: map<K, V>, p: V -> bool, q: V -> bool)
    requires forall k :: k in m && p(m[k]) ==> q(m[k])
    ensures Count(m, p) <= Count(m, q)
  {
    SubsetSize(Matching(m, p), Matching(m, q));
  }

  /** A property that splits into two exclusive ones is counted by adding. */
  lemma CountSplit<K, V>(m: map<K, V>, p: V -> bool, q: V -> bool, both: V -> bool)
    requires forall k :: k in m ==> (both(m[k]) <==> p(m[k]) || q(m[k])) && !(p(m[k]) && q(m[k]))
    ensures Count(m, both) == Count(m, p) + Count(m, q)
  {
    assert Matching(m, both) == Matching(m, p) + Matching(m, q);
    assert Matching(m, p) !! Matching(m, q);
  }

  lemma SomeMember<T>(s: set<T>) returns (x: T)
    requires |s| >= 1
    ensures x in s
  {
    x :| x in s;
  }

  function First<T>(s: seq<T>): (x: T)
    requires s != []
    ensures x in s
  {
    s[0]
  }

  lemma SubsetSize<T>(a: set<T>, b: set<T>)
    requires a <= b
    ensures |a| <= |b|
  {
    assert |b| == |b - a| + |a| by {
      assert b == (b - a) + a;
    }
  }

  function Sum(s: seq<int>): int {
    if s == [] then 0 else s[0] + Sum(s[1..])
  }

  lemma {:induction false} SumAppend(s: seq<int>, t: seq<int>)
    ensures Sum(s + t) == Sum(s) + Sum(t)
  {
    if s == [] {
      assert s + t == t;
    } else {
      SumAppend(s[1..], t);
      assert (s + t)[1..] == s[1..] + t;
    }
  }

  function Max(a: int, b: int): (r: int)
    ensures a <= r && b <= r && (r == a || r == b)
  {
    if a < b then b else a
  }
}
