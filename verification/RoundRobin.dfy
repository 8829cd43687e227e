/**
  Arithmetic of the round-robin cursor: a 32-bit counter that is bumped once per
  route and read modulo the number of candidates.
*/
module RoundRobin {
  const U32: nat := 0x1_0000_0000

  /** `fetch_add(1)` on a counter with `wrap` values. */
  function Bump(v: nat, wrap: nat): nat {
    if v + 1 == wrap then 0 else v + 1
  }

  /** How often the cursor, starting at `v`, points at position `p` in its next `k` readings. */
  function CursorHits(v: nat, k: nat, wrap: nat, n: nat, p: nat): nat
    requires n > 0
    decreases k
  {
    if k == 0 then 0
    else (if v % n == p then 1 else 0) + CursorHits(Bump(v, wrap), k - 1, wrap, n, p)
  }

  /** The same with a counter that never wraps. */
  function PlainHits(v: nat, k: nat, n: nat, p: nat): nat
    requires n > 0
    decreases k
  {
    if k == 0 then 0
    else (if v % n == p then 1 else 0) + PlainHits(v + 1, k - 1, n, p)
  }

  /** The floor or the ceiling of an even share. */
  ghost predicate Balanced(hits: nat, k: nat, n: nat)
    requires n > 0
  {
    k / n <= hits <= (k + n - 1) / n
  }

  // ---------------------------------------------------------------- residues

  lemma ModUnique(v: int, n: int, q: int, r: int)
    requires n > 0 && v == q * n + r && 0 <= r < n
    ensures v % n == r && v / n == q
  {
    var d := v / n - q;
    assert d * n == r - v % n;
    assert d >= 1 ==> d * n >= n;
    assert d <= -1 ==> d * n <= -n;
  }

  lemma Divide(v: nat, n: nat) returns (q: nat, r: nat)
    requires n > 0
    ensures v == q * n + r && r < n && r == v % n && q == v / n
  {
    q, r := v / n, v % n;
  }

  lemma ModNext(v: nat, n: nat)
    requires n > 0
    ensures (v + 1) % n == if v % n == n - 1 then 0 else v % n + 1
  {
    var q, r := Divide(v, n);
    if r == n - 1 {
      ModUnique(v + 1, n, q + 1, 0);
    } else {
      ModUnique(v + 1, n, q, r + 1);
    }
  }

  lemma FloorIs(v: nat, n: nat, q: nat)
    requires n > 0 && q * n <= v < q * n + n
    ensures v / n == q
  {
    ModUnique(v, n, q, v - q * n);
  }

  // ----------------------------------------------------------- plain counting

  lemma {:induction false} HitsSplit(v: nat, a: nat, b: nat, n: nat, p: nat)
    requires n > 0
    ensures PlainHits(v, a + b, n, p) == PlainHits(v, a, n, p) + PlainHits(v + a, b, n, p)
    decreases a
  {
    if a > 0 {
      HitsSplit(v + 1, a - 1, b, n, p);
    }
  }

  /** Within at most a full turn, position `p` is met once if it lies ahead. */
  lemma {:induction false} PartTurn(v: nat, k: nat, n: nat, p: nat)
    requires p < n && k <= n
    ensures PlainHits(v, k, n, p)
         == var r := v % n; if (r <= p < r + k) || p + n < r + k then 1 else 0
    decreases k
  {
    if k > 0 {
      ModNext(v, n);
      PartTurn(v + 1, k - 1, n, p);
    }
  }

  lemma {:induction false} FullTurns(v: nat, q: nat, n: nat, p: nat)
    requires p < n
    ensures PlainHits(v, q * n, n, p) == q
    decreases q
  {
    if q > 0 {
      assert q * n == n + (q - 1) * n;
      HitsSplit(v, n, (q - 1) * n, n, p);
      PartTurn(v, n, n, p);
      FullTurns(v + n, q - 1, n, p);
    }
  }

  lemma PlainBalanced(v: nat, k: nat, n: nat, p: nat)
    requires p < n
    ensures Balanced(PlainHits(v, k, n, p), k, n)
  {
    var q, r := Divide(k, n);
    var turns := q * n;
    HitsSplit(v, turns, r, n, p);
    FullTurns(v, q, n, p);
    PartTurn(v + turns, r, n, p);
    Ceiling(q, r, n);
    assert k + n - 1 == turns + r + n - 1;
  }

  lemma Ceiling(q: nat, r: nat, n: nat)
    requires r < n
    ensures (q * n + r + n - 1) / n == if r == 0 then q else q + 1
  {
    if r == 0 {
      FloorIs(q * n + n - 1, n, q);
    } else {
      assert (q + 1) * n == q * n + n;
      FloorIs(q * n + r + n - 1, n, q + 1);
    }
  }

  lemma {:induction false} SameResidue(v: nat, w: nat, k: nat, n: nat, p: nat)
    requires n > 0 && v % n == w % n
    ensures PlainHits(v, k, n, p) == PlainHits(w, k, n, p)
    decreases k
  {
    if k > 0 {
      ModNext(v, n);
      ModNext(w, n);
      SameResidue(v + 1, w + 1, k - 1, n, p);
    }
  }

  // ----------------------------------------------------------------- wrapping

  /** The wrap is invisible when it is not reached or when it preserves residues. */
  lemma {:induction false} CursorIsPlain(v: nat, k: nat, wrap: nat, n: nat, p: nat)
    requires n > 0 && v < wrap && (v + k <= wrap || wrap % n == 0)
    ensures CursorHits(v, k, wrap, n, p) == PlainHits(v, k, n, p)
    decreases k
  {
    if k > 0 {
      if v + 1 < wrap {
        CursorIsPlain(v + 1, k - 1, wrap, n, p);
      } else if k > 1 {
        CursorIsPlain(0, k - 1, wrap, n, p);
        ModUnique(0, n, 0, 0);
        SameResidue(0, wrap, k - 1, n, p);
      }
    }
  }

  lemma CursorBalanced(v: nat, k: nat, wrap: nat, n: nat, p: nat)
    requires p < n && v < wrap && (v + k <= wrap || wrap % n == 0)
    ensures Balanced(CursorHits(v, k, wrap, n, p), k, n)
  {
    CursorIsPlain(v, k, wrap, n, p);
    PlainBalanced(v, k, n, p);
  }

  /** `i` readings before an uneven wrap, position 0 is next met right after it. */
  lemma {:induction false} UpToWrap(i: nat, wrap: nat, n: nat, q: nat, r: nat)
    requires wrap == q * n + r && 0 < r < n && i < r
    ensures CursorHits(wrap - i - 1, i + 2, wrap, n, 0) == (if r - i == 1 then 1 else 0) + 1
    decreases i
  {
    ModUnique(wrap - i - 1, n, q, r - i - 1);
    if i > 0 {
      UpToWrap(i - 1, wrap, n, q, r);
      assert Bump(wrap - i - 1, wrap) == wrap - (i - 1) - 1;
    } else {
      ModUnique(0, n, 0, 0);
      assert CursorHits(Bump(0, wrap), 0, wrap, n, 0) == 0;
      assert CursorHits(0, 1, wrap, n, 0) == 1;
    }
  }

  /** An uneven wrap serves position 0 twice within one turn. */
  lemma UnevenWrap(wrap: nat, n: nat)
    requires 0 < n && wrap % n != 0
    ensures !Balanced(CursorHits(wrap - wrap % n, wrap % n + 1, wrap, n, 0), wrap % n + 1, n)
  {
    var q, r := Divide(wrap, n);
    UpToWrap(r - 1, wrap, n, q, r);
    ModUnique(r + n, n, 1, r);
  }

  /**
    Exactly when round robin stays balanced through the wrap of its 32-bit
    cursor: for every starting value and every number of routes, if and only if
    the number of candidates divides 2^32.
  */
  lemma BalancedThroughWrap(n: nat)
    requires 0 < n
    ensures (forall v, k, p :: 0 <= v < U32 && 0 <= k && 0 <= p < n ==> Balanced(CursorHits(v, k, U32, n, p), k, n))
       <==> U32 % n == 0
  {
    if U32 % n == 0 {
      forall v, k, p | 0 <= v < U32 && 0 <= k && 0 <= p < n
        ensures Balanced(CursorHits(v, k, U32, n, p), k, n)
      {
        CursorBalanced(v, k, U32, n, p);
      }
    } else {
      UnevenWrap(U32, n);
    }
  }
}
