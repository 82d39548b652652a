/** Tables of rows keyed by auto-increment ids, scanned in key order, and sums over rows. */
module Tables {

  /** The rows of `m` stored under keys `0 .. n-1`, in ascending key order. */
  function Rows<T>(m: map<nat, T>, n: nat): (rows: seq<T>)
    ensures |rows| <= n
  {
    if n == 0 then [] else Rows(m, n - 1) + (if n - 1 in m then [m[n - 1]] else [])
  }

  /** Row `k` of `m` exists and its foreign key (its `owner`) is `r`. */
  predicate OwnedAt<T>(m: map<nat, T>, owner: T -> nat, r: nat, k: nat) {
    k in m && owner(m[k]) == r
  }

  /** The rows of `m` with key below `n` whose foreign key is `r`, in ascending key order:
      `filter(fk=r)` over a table whose ids are all below `n`. */
  function Owned<T>(m: map<nat, T>, owner: T -> nat, r: nat, n: nat): (rows: seq<T>)
    ensures |rows| <= n
    ensures forall x :: x in rows ==> owner(x) == r
  {
    if n == 0 then []
    else Owned(m, owner, r, n - 1) + (if OwnedAt(m, owner, r, n - 1) then [m[n - 1]] else [])
  }

  /** The keys of `m` whose rows have `key` value `v`: a `filter` on one column, as a set of ids. */
  ghost function KeysWhere<T, K>(m: map<nat, T>, key: T -> K, v: K): set<nat> {
    set k | k in m && key(m[k]) == v
  }

  /** The keys of `KeysWhere(m, key, v)` below `n`. */
  ghost function KeysWhereBelow<T, K>(m: map<nat, T>, key: T -> K, v: K, n: nat): set<nat> {
    set k | k in KeysWhere(m, key, v) && k < n
  }

  /** The sum of `w` over a sequence of rows. */
  function SumBy<T>(xs: seq<T>, w: T -> int): int {
    if xs == [] then 0 else SumBy(xs[..|xs| - 1], w) + w(xs[|xs| - 1])
  }

  lemma SumByAppend<T>(xs: seq<T>, x: T, w: T -> int)
    ensures SumBy(xs + [x], w) == SumBy(xs, w) + w(x)
  {
    assert (xs + [x])[..|xs|] == xs;
  }

  /** The scan returns exactly one row per key below `n`. */
  lemma {:induction false} RowsCount<T>(m: map<nat, T>, n: nat)
    ensures |Rows(m, n)| == |set k | k in m && k < n|
  {
    if n > 0 {
      RowsCount(m, n - 1);
      if n - 1 in m {
        assert (set k | k in m && k < n) == (set k | k in m && k < n - 1) + {n - 1};
      } else {
        assert (set k | k in m && k < n) == (set k | k in m && k < n - 1);
      }
    }
  }

  /** When every key is below `n`, the scan sees the whole table. */
  lemma RowsCountAll<T>(m: map<nat, T>, n: nat)
    requires forall k :: k in m ==> k < n
    ensures |Rows(m, n)| == |m|
  {
    RowsCount(m, n);
    assert (set k | k in m && k < n) == m.Keys;
  }

  /** The filtered scan returns exactly one row per key owned by `r`. */
  lemma {:induction false} OwnedCount<T>(m: map<nat, T>, owner: T -> nat, r: nat, n: nat)
    ensures |Owned(m, owner, r, n)| == |KeysWhereBelow(m, owner, r, n)|
  {
    if n > 0 {
      OwnedCount(m, owner, r, n - 1);
      if OwnedAt(m, owner, r, n - 1) {
        assert KeysWhereBelow(m, owner, r, n) == KeysWhereBelow(m, owner, r, n - 1) + {n - 1};
      } else {
        assert KeysWhereBelow(m, owner, r, n) == KeysWhereBelow(m, owner, r, n - 1);
      }
    }
  }

  /** A row is returned by the filtered scan exactly when some owned key below `n` holds it. */
  lemma {:induction false} OwnedMember<T>(m: map<nat, T>, owner: T -> nat, r: nat, n: nat, x: T)
    ensures x in Owned(m, owner, r, n) <==> exists k: nat :: k < n && OwnedAt(m, owner, r, k) && m[k] == x
  {
    if n > 0 {
      OwnedMember(m, owner, r, n - 1, x);
      if exists k: nat :: k < n && OwnedAt(m, owner, r, k) && m[k] == x {
        var k: nat :| k < n && OwnedAt(m, owner, r, k) && m[k] == x;
        if k < n - 1 {
          assert x in Owned(m, owner, r, n - 1);
        }
      }
    }
  }

  /** Two tables agree on every key below `n` that either of them gives to owner `r`. */
  ghost predicate AgreeBelow<T>(m: map<nat, T>, m': map<nat, T>, owner: T -> nat, r: nat, n: nat) {
    forall k: nat :: k < n ==>
      (OwnedAt(m, owner, r, k) <==> OwnedAt(m', owner, r, k)) && (OwnedAt(m, owner, r, k) ==> m[k] == m'[k])
  }

  /** The filtered scan only depends on the rows owner `r` holds. */
  lemma {:induction false} OwnedFrame<T>(m: map<nat, T>, m': map<nat, T>, owner: T -> nat, r: nat, n: nat)
    requires AgreeBelow(m, m', owner, r, n)
    ensures Owned(m, owner, r, n) == Owned(m', owner, r, n)
  {
    if n > 0 {
      OwnedFrame(m, m', owner, r, n - 1);
      assert OwnedAt(m, owner, r, n - 1) <==> OwnedAt(m', owner, r, n - 1);
    }
  }

  /** What row `k` contributes to owner `r`'s sum of `w`. */
  function Weight<T>(m: map<nat, T>, owner: T -> nat, w: T -> int, r: nat, k: nat): int {
    if OwnedAt(m, owner, r, k) then w(m[k]) else 0
  }

  /** Two tables agree on every key below `n` except `j`. */
  ghost predicate AgreeExcept<T>(m: map<nat, T>, m': map<nat, T>, j: nat, n: nat) {
    forall k: nat :: k < n && k != j ==> (k in m <==> k in m') && (k in m ==> m[k] == m'[k])
  }

  /** Changing, adding or removing one row changes an owner's sum by exactly that row's contributions. */
  lemma {:induction false} SumOwnedExcept<T>(m: map<nat, T>, m': map<nat, T>, owner: T -> nat, w: T -> int, r: nat, n: nat, j: nat)
    requires j < n
    requires AgreeExcept(m, m', j, n)
    ensures SumBy(Owned(m', owner, r, n), w) - Weight(m', owner, w, r, j)
         == SumBy(Owned(m, owner, r, n), w) - Weight(m, owner, w, r, j)
  {
    if n - 1 == j {
      OwnedFrame(m, m', owner, r, j);
    } else {
      SumOwnedExcept(m, m', owner, w, r, n - 1, j);
      assert OwnedAt(m, owner, r, n - 1) <==> OwnedAt(m', owner, r, n - 1);
    }
    SumOwnedStep(m, owner, w, r, n);
    SumOwnedStep(m', owner, w, r, n);
  }

  /** Extending the scan by one key adds that key's contribution. */
  lemma SumOwnedStep<T>(m: map<nat, T>, owner: T -> nat, w: T -> int, r: nat, n: nat)
    requires n > 0
    ensures SumBy(Owned(m, owner, r, n), w) == SumBy(Owned(m, owner, r, n - 1), w) + Weight(m, owner, w, r, n - 1)
  {
    var prev := Owned(m, owner, r, n - 1);
    if OwnedAt(m, owner, r, n - 1) {
      SumByAppend(prev, m[n - 1], w);
    } else {
      assert Owned(m, owner, r, n) == prev;
    }
  }

  /** An owner holding no row has nothing in its filtered scan. */
  lemma OwnedNone<T>(m: map<nat, T>, owner: T -> nat, r: nat, n: nat)
    requires forall k :: k in m ==> owner(m[k]) != r
    ensures Owned(m, owner, r, n) == []
  {
    OwnedCount(m, owner, r, n);
    assert KeysWhereBelow(m, owner, r, n) == {};
  }
}
