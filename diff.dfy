/**
 * The diff engine inside the sampling loop of
 * ObjectInspector/src/me/inplex/objectinspector/ObjectInspector.java: how one
 * read of the observed object becomes a snapshot keyed by field index, and which
 * change records a comparison of two snapshots yields.
 */
module Diff {
  import opened Wrappers
  import opened ObjectChanges

  /** One public field of the observed object as reflection reports it: its name and its value. */
  datatype Field<V> = Field(name: string, value: Option<V>)

  /** The snapshot that one read of the fields produces: index i maps to the i-th field's value. */
  function Snapshot<V>(fields: seq<Field<V>>): (m: map<nat, Option<V>>)
    ensures forall i: nat :: i in m <==> i < |fields|
    ensures forall i :: 0 <= i < |fields| ==> m[i] == fields[i].value
  {
    map i: nat | i < |fields| :: fields[i].value
  }

  /** The field names, by index, of one read of the object. */
  function Names<V>(fields: seq<Field<V>>): (ns: seq<string>)
    ensures |ns| == |fields|
    ensures forall i :: 0 <= i < |fields| ==> ns[i] == fields[i].name
  {
    seq(|fields|, i requires 0 <= i < |fields| => fields[i].name)
  }

  /** Every index below n is a key of m. */
  predicate Covers<V>(m: map<nat, Option<V>>, n: nat)
  {
    forall i: nat :: i < n ==> i in m
  }

  /** The first index at or after j whose value is null, or n when there is none. */
  function NullFrom<V>(prev: map<nat, Option<V>>, n: nat, j: nat): (k: nat)
    requires j <= n && Covers(prev, n)
    ensures j <= k <= n
    ensures k < n ==> prev[k].None?
    ensures forall i: nat :: j <= i < k ==> prev[i].Some?
    decreases n - j
  {
    if j == n then n
    else if prev[j].None? then j
    else NullFrom(prev, n, j + 1)
  }

  /**
   * The index at which the comparison loop throws: the first key whose previous
   * value is null (calling `equals` on it raises NullPointerException), or n when
   * every previous value is non-null and the loop runs to the end.
   */
  function NullIndex<V>(prev: map<nat, Option<V>>, n: nat): (k: nat)
    requires Covers(prev, n)
    ensures k <= n
    ensures k < n ==> prev[k].None?
    ensures forall i: nat :: i < k ==> prev[i].Some?
  {
    NullFrom(prev, n, 0)
  }

  /**
   * The records the comparison loop appends while it visits keys 0..k-1 in
   * ascending order: one (name, previous, current) record for each key whose two
   * values are not equal.
   */
  function Changes<V(==)>(names: seq<string>, prev: map<nat, Option<V>>, cur: map<nat, Option<V>>, k: nat): (cs: seq<Change<V>>)
    requires k <= |names| && Covers(prev, k) && Covers(cur, k)
    ensures |cs| <= k
  {
    if k == 0 then []
    else
      Changes(names, prev, cur, k - 1)
      + (if prev[k - 1] != cur[k - 1] then [Change(names[k - 1], prev[k - 1], cur[k - 1])] else [])
  }

  /**
   * Reference definition of the keys that differ: the indices below k whose two
   * values are not equal, listed once each in strictly ascending order.
   */
  function Differing<V(==)>(prev: map<nat, Option<V>>, cur: map<nat, Option<V>>, k: nat): (d: seq<nat>)
    requires Covers(prev, k) && Covers(cur, k)
    ensures forall j :: 0 <= j < |d| ==> d[j] < k && prev[d[j]] != cur[d[j]]
    ensures forall i: nat :: i < k && prev[i] != cur[i] ==> i in d
    ensures forall a, b :: 0 <= a < b < |d| ==> d[a] < d[b]
  {
    if k == 0 then []
    else Differing(prev, cur, k - 1) + (if prev[k - 1] != cur[k - 1] then [k - 1] else [])
  }

  /**
   * The comparison loop appends exactly one record per differing key, in
   * ascending key order, and the j-th record is (name, previous, current) of the
   * j-th differing key.
   */
  lemma {:induction false} ChangesFollowDiffering<V>(names: seq<string>, prev: map<nat, Option<V>>, cur: map<nat, Option<V>>, k: nat)
    requires k <= |names| && Covers(prev, k) && Covers(cur, k)
    ensures var cs := Changes(names, prev, cur, k);
            var d := Differing(prev, cur, k);
            |cs| == |d|
            && forall j :: 0 <= j < |d| ==> cs[j] == Change(names[d[j]], prev[d[j]], cur[d[j]])
  {
    if k > 0 {
      ChangesFollowDiffering(names, prev, cur, k - 1);
    }
  }

  /** No record is appended exactly when the two snapshots agree on every visited key. */
  lemma {:induction false} ChangesEmptyIff<V>(names: seq<string>, prev: map<nat, Option<V>>, cur: map<nat, Option<V>>, k: nat)
    requires k <= |names| && Covers(prev, k) && Covers(cur, k)
    ensures Changes(names, prev, cur, k) == [] <==> forall i: nat :: i < k ==> prev[i] == cur[i]
  {
    if k > 0 {
      ChangesEmptyIff(names, prev, cur, k - 1);
    }
  }
}
