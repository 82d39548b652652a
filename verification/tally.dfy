/** Per-key counts over rows (a `GROUP BY ... COUNT` or one filtered count per key) and their totals. */
module Tallies {

  /** How many rows carry key `k`. */
  function Count<T>(xs: seq<T>, key: T -> string, k: string): (c: nat)
    ensures c <= |xs|
    ensures c > 0 <==> exists i :: 0 <= i < |xs| && key(xs[i]) == k
  {
    if xs == [] then 0
    else
      var prefix := xs[..|xs| - 1];
      assert forall i :: 0 <= i < |prefix| ==> prefix[i] == xs[i];
      Count(prefix, key, k) + (if key(xs[|xs| - 1]) == k then 1 else 0)
  }

  /** How many rows carry a key outside `keys`. */
  function Outside<T>(xs: seq<T>, key: T -> string, keys: set<string>): (c: nat)
    ensures c <= |xs|
    ensures c == 0 <==> forall i :: 0 <= i < |xs| ==> key(xs[i]) in keys
  {
    if xs == [] then 0
    else
      var prefix := xs[..|xs| - 1];
      assert forall i :: 0 <= i < |prefix| ==> prefix[i] == xs[i];
      Outside(prefix, key, keys) + (if key(xs[|xs| - 1]) in keys then 0 else 1)
  }

  /** One count per key of `keys`, zero-filled for keys no row carries. */
  function Tally<T>(keys: set<string>, xs: seq<T>, key: T -> string): (t: map<string, nat>)
    ensures t.Keys == keys
    ensures forall k :: k in t ==> t[k] == Count(xs, key, k)
  {
    map k | k in keys :: Count(xs, key, k)
  }

  /** The sum of a map's values. */
  ghost function SumValues(t: map<string, nat>): int
    decreases |t|
  {
    if |t| == 0 then 0
    else
      var k :| k in t;
      assert (t - {k}).Keys == t.Keys - {k};
      t[k] + SumValues(t - {k})
  }

  /** `SumValues` may start from any key. */
  lemma {:induction false} SumValuesPick(t: map<string, nat>, k: string)
    requires k in t
    ensures SumValues(t) == t[k] + SumValues(t - {k})
    decreases |t|
  {
    var j :| j in t && SumValues(t) == t[j] + SumValues(t - {j});
    if j != k {
      assert (t - {j}).Keys == t.Keys - {j};
      assert (t - {k}).Keys == t.Keys - {k};
      SumValuesPick(t - {j}, k);
      SumValuesPick(t - {k}, j);
      assert t - {j} - {k} == t - {k} - {j};
    }
  }

  /** Every row is counted once: under its own key when that key is tallied, otherwise as outside. */
  lemma {:induction false} TallySum<T>(keys: set<string>, xs: seq<T>, key: T -> string)
    ensures SumValues(Tally(keys, xs, key)) + Outside(xs, key, keys) == |xs|
  {
    if xs == [] {
      TallyZero(Tally(keys, xs, key));
    } else {
      var prefix := xs[..|xs| - 1];
      TallySum(keys, prefix, key);
      TallyStep(keys, xs, key);
    }
  }

  /** Adding one row raises the sum of the tally by one exactly when its key is tallied. */
  lemma TallyStep<T>(keys: set<string>, xs: seq<T>, key: T -> string)
    requires xs != []
    ensures SumValues(Tally(keys, xs, key))
         == SumValues(Tally(keys, xs[..|xs| - 1], key)) + (if key(xs[|xs| - 1]) in keys then 1 else 0)
  {
    var t := Tally(keys, xs[..|xs| - 1], key);
    var k := key(xs[|xs| - 1]);
    if k in keys {
      TallyIncrement(keys, xs, key);
      SumValuesUpdate(t, k, t[k] + 1);
    } else {
      TallyUnchanged(keys, xs, key);
    }
  }

  lemma TallyUnchanged<T>(keys: set<string>, xs: seq<T>, key: T -> string)
    requires xs != [] && key(xs[|xs| - 1]) !in keys
    ensures Tally(keys, xs, key) == Tally(keys, xs[..|xs| - 1], key)
  {
  }

  lemma TallyIncrement<T>(keys: set<string>, xs: seq<T>, key: T -> string)
    requires xs != [] && key(xs[|xs| - 1]) in keys
    ensures var t, k := Tally(keys, xs[..|xs| - 1], key), key(xs[|xs| - 1]);
            Tally(keys, xs, key) == t[k := t[k] + 1]
  {
  }

  /** Replacing one value changes the sum by the difference. */
  lemma SumValuesUpdate(t: map<string, nat>, k: string, v: nat)
    requires k in t
    ensures SumValues(t[k := v]) == SumValues(t) - t[k] + v
  {
    SumValuesPick(t, k);
    SumValuesPick(t[k := v], k);
    assert t[k := v] - {k} == t - {k};
  }

  /** A map of zeros sums to zero. */
  lemma {:induction false} TallyZero(t: map<string, nat>)
    requires forall k :: k in t ==> t[k] == 0
    ensures SumValues(t) == 0
    decreases |t|
  {
    if |t| != 0 {
      var k :| k in t;
      assert (t - {k}).Keys == t.Keys - {k};
      SumValuesPick(t, k);
      TallyZero(t - {k});
    }
  }
}
