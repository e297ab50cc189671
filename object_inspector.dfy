/**
 * The field-change recorder of
 * ObjectInspector/src/me/inplex/objectinspector/ObjectInspector.java as a
 * sequential state machine. The background sampling thread becomes explicit
 * calls: `Start` runs the thread's prologue (both snapshots filled from one read
 * of the object), each `Tick` is one pass of its `while (running)` loop, and
 * `Stop` clears the flag and joins. Reflection is replaced by the read of the
 * object handed to each call: `None` for a null reference, otherwise the fields'
 * names and values in the order reflection lists them.
 */
module Inspector {
  import opened Wrappers
  import opened ObjectChanges
  import opened Diff

  /** The sampling interval, in milliseconds, the shorter constructors pass on. */
  const DefaultInterval: int := 20

  /** Why the sampling thread left its loop: each is an exception caught around the loop. */
  datatype Fault =
    | NullReference              // the handle held null: `getClass()` on it throws
    | NullPreviousValue(index: nat)  // `lastValues.get(key).equals(...)` on a null previous value
    | NegativeInterval           // `sleep` refuses a negative interval

  /** Where the sampling thread is: never created, looping, ended by an exception, or joined. */
  datatype Phase = Idle | Sampling | Halted(fault: Fault) | Stopped

  /** What `stop` does: joins the thread, or throws because no thread was ever created. */
  datatype StopOutcome = Joined | NullThread

  /** Every key of m is below n. */
  predicate KeysBelow<V>(m: map<nat, Option<V>>, n: nat)
  {
    forall i: nat :: i in m ==> i < n
  }

  /**
   * What the comparison loop has left in the log `cs` and the flag `ch` once it
   * has visited keys 0..k-1, given the log and flag before it: the old log
   * followed by one record per visited key whose previous value differs from its
   * current one, in ascending key order, and the flag raised iff a record was
   * appended.
   */
  ghost predicate Appended<V>(cs: seq<ObjectChange<V>>, ch: bool, names: seq<string>,
                                  prev: map<nat, Option<V>>, cur: map<nat, Option<V>>,
                                  k: nat, log0: seq<ObjectChange<V>>, changed0: bool)
    requires k <= |names| && Covers(prev, k) && Covers(cur, k)
    reads cs
  {
    var added := Changes(names, prev, cur, k);
    && |cs| == |log0| + |added| && cs[..|log0|] == log0
    && (forall j :: |log0| <= j < |cs| ==> cs[j].View() == added[j - |log0|])
    && ch == (changed0 || |cs| > |log0|)
  }

  /** When the two snapshots agree, the comparison loop appends nothing and leaves the flag alone. */
  lemma NothingAppended<V>(cs: seq<ObjectChange<V>>, ch: bool, names: seq<string>, snap: map<nat, Option<V>>,
                           k: nat, log0: seq<ObjectChange<V>>, changed0: bool)
    requires k <= |names| && Covers(snap, k)
    requires Appended(cs, ch, names, snap, snap, k, log0, changed0)
    ensures cs == log0 && ch == changed0
  {
    ChangesEmptyIff(names, snap, snap, k);
  }

  class ObjectInspector<V(==)> {
    /** The number of public fields of the observed object's class. */
    const N: nat
    var values: map<nat, Option<V>>
    var lastValues: map<nat, Option<V>>
    var interval: int
    var output: bool
    var changes: seq<ObjectChange<V>>
    var changed: bool
    var running: bool
    var phase: Phase

    ghost predicate Valid()
      reads this
    {
      && KeysBelow(values, N) && KeysBelow(lastValues, N)
      && (phase.Sampling? ==> Covers(values, N) && Covers(lastValues, N))
      && running == (phase.Sampling? || phase.Halted?)
    }

    constructor (n: nat, interval: int, output: bool)
      ensures Valid() && N == n && this.interval == interval && this.output == output
      ensures values == map[] && lastValues == map[]
      ensures changes == [] && !changed && !running && phase == Idle
    {
      N := n;
      values := map[];
      lastValues := map[];
      this.interval := interval;
      changes := [];
      this.output := output;
      changed := false;
      running := false;
      phase := Idle;
    }

    constructor Default(n: nat)
      ensures Valid() && N == n && interval == DefaultInterval && !output
      ensures values == map[] && lastValues == map[]
      ensures changes == [] && !changed && !running && phase == Idle
    {
      N := n;
      values := map[];
      lastValues := map[];
      interval := DefaultInterval;
      changes := [];
      output := false;
      changed := false;
      running := false;
      phase := Idle;
    }

    constructor WithInterval(n: nat, interval: int)
      ensures Valid() && N == n && this.interval == interval && !output
      ensures values == map[] && lastValues == map[]
      ensures changes == [] && !changed && !running && phase == Idle
    {
      N := n;
      values := map[];
      lastValues := map[];
      this.interval := interval;
      changes := [];
      output := false;
      changed := false;
      running := false;
      phase := Idle;
    }

    constructor WithOutput(n: nat, output: bool)
      ensures Valid() && N == n && interval == DefaultInterval && this.output == output
      ensures values == map[] && lastValues == map[]
      ensures changes == [] && !changed && !running && phase == Idle
    {
      N := n;
      values := map[];
      lastValues := map[];
      interval := DefaultInterval;
      changes := [];
      this.output := output;
      changed := false;
      running := false;
      phase := Idle;
    }

    /** Reports whether a record was appended since the last call, and clears the flag. */
    method HasChanged() returns (b: bool)
      requires Valid()
      modifies this`changed
      ensures Valid()
      ensures b == old(changed)
      ensures !changed
    {
      if changed {
        changed := false;
        return true;
      }
      return false;
    }

    /** The newest record, or null when the log is empty. */
    function GetLastChange(): (c: ObjectChange?<V>)
      reads this
      ensures c == null <==> changes == []
      ensures c != null ==> c == changes[|changes| - 1]
    {
      if |changes| == 0 then null else changes[|changes| - 1]
    }

    /** The log itself, oldest record first; its last entry is what `GetLastChange` returns. */
    function GetChanges(): (r: seq<ObjectChange<V>>)
      reads this
      ensures r == changes
      ensures GetLastChange() == if r == [] then null else r[|r| - 1]
    {
      changes
    }

    /**
     * `start`: raises the running flag and runs the sampling thread's prologue on
     * one read of the object, writing every field into `values` and then into
     * `lastValues`, so that both snapshots agree. A null reference ends the thread.
     */
    method Start(obj: Option<seq<Field<V>>>)
      requires Valid() && !phase.Sampling?
      requires obj.Some? ==> |obj.value| == N
      modifies this`running, this`values, this`lastValues, this`phase
      ensures Valid() && running
      ensures obj.None? ==> phase == Halted(NullReference)
                            && values == old(values) && lastValues == old(lastValues)
      ensures obj.Some? ==> phase == Sampling
                            && values == Snapshot(obj.value) && lastValues == Snapshot(obj.value)
    {
      running := true;
      if obj.None? {
        phase := Halted(NullReference);
        return;
      }
      var fields := obj.value;
      values := Store(values, fields);
      lastValues := Store(lastValues, fields);
      phase := Sampling;
    }

    /**
     * One pass of the sampling loop. A null reference throws before anything is
     * written. Otherwise `values` is overwritten from the new read and the keys
     * are compared (see `Compare`).
     */
    method Tick(obj: Option<seq<Field<V>>>)
      requires Valid() && phase == Sampling
      requires obj.Some? ==> |obj.value| == N
      modifies this`values, this`lastValues, this`changes, this`changed, this`phase
      ensures Valid()
      ensures obj.None? ==> phase == Halted(NullReference)
                            && values == old(values) && lastValues == old(lastValues)
                            && changes == old(changes) && changed == old(changed)
      ensures obj.Some? ==> values == Snapshot(obj.value)
      ensures obj.Some? ==> Compared(Names(obj.value), old(lastValues), old(changes), old(changed))
      ensures obj.Some? ==> forall j :: |old(changes)| <= j < |changes| ==> fresh(changes[j])
    {
      if obj.None? {
        phase := Halted(NullReference);
        return;
      }
      var fields := obj.value;
      values := Store(values, fields);
      Compare(Names(fields));
    }

    /**
     * What the rest of a pass leaves behind, given the state before it: the log
     * is the old log plus one record per key whose previous value differs from
     * the one in `values`, in ascending key order, up to the first null previous
     * value; `changed` is raised iff a record was appended; a null previous value
     * ends the thread and leaves `lastValues` alone, and otherwise `lastValues`
     * becomes `values` and the sleep ends the thread on a negative interval. When
     * the two snapshots agree, nothing is appended.
     */
    ghost predicate Compared(names: seq<string>, prev: map<nat, Option<V>>,
                             log0: seq<ObjectChange<V>>, changed0: bool)
      requires |names| == N && Covers(prev, N) && Covers(values, N)
      reads this, changes
    {
      var k := NullIndex(prev, N);
      && Appended(changes, changed, names, prev, values, k, log0, changed0)
      && (k < N ==> phase == Halted(NullPreviousValue(k)) && lastValues == prev)
      && (k == N ==> lastValues == values && phase == if interval < 0 then Halted(NegativeInterval) else Sampling)
      && (prev == values ==> changes == log0 && changed == changed0)
    }

    /**
     * The rest of a pass once `values` holds the new read: the keys are compared
     * in ascending order (see `AppendChanges`); a null previous value ends the
     * thread, and a pass that gets through every key ends with `Commit`.
     */
    method Compare(names: seq<string>)
      requires |names| == N && Covers(values, N) && Covers(lastValues, N)
      requires KeysBelow(values, N) && KeysBelow(lastValues, N)
      modifies this`lastValues, this`changes, this`changed, this`phase
      ensures Compared(names, old(lastValues), old(changes), old(changed))
      ensures forall j :: |old(changes)| <= j < |changes| ==> fresh(changes[j])
    {
      ghost var prev, k := lastValues, NullIndex(lastValues, N);
      var nullAt := AppendChanges(names);
      if prev == values {
        NothingAppended(changes, changed, names, values, k, old(changes), old(changed));
      }
      if nullAt.Some? {
        phase := Halted(NullPreviousValue(nullAt.value));
        return;
      }
      Commit();
    }

    /** The end of a pass that got through every key: copy the snapshot, then sleep. */
    method Commit()
      requires Covers(values, N) && KeysBelow(values, N) && Covers(lastValues, N) && KeysBelow(lastValues, N)
      modifies this`lastValues, this`phase
      ensures lastValues == values
      ensures phase == if interval < 0 then Halted(NegativeInterval) else Sampling
    {
      lastValues := CopyInto(lastValues, values);
      phase := if interval < 0 then Halted(NegativeInterval) else Sampling;
    }

    /**
     * The comparison loop of one pass: keys in ascending order, a record appended
     * for each key whose previous value is unequal to its current one, stopping at
     * the first null previous value (the key that throws, returned in `nullAt`).
     */
    method AppendChanges(names: seq<string>) returns (nullAt: Option<nat>)
      requires |names| == N && Covers(values, N) && Covers(lastValues, N)
      modifies this`changes, this`changed
      ensures var k := NullIndex(lastValues, N); nullAt == (if k < N then Some(k) else None)
      ensures Appended(changes, changed, names, lastValues, values, NullIndex(lastValues, N), old(changes), old(changed))
      ensures forall j :: |old(changes)| <= j < |changes| ==> fresh(changes[j])
    {
      ghost var log0, changed0 := changes, changed;
      var k := 0;
      while k < N
        invariant 0 <= k <= N
        invariant forall i: nat :: i < k ==> lastValues[i].Some?
        invariant Appended(changes, changed, names, lastValues, values, k, log0, changed0)
        invariant forall j :: |log0| <= j < |changes| ==> fresh(changes[j])
      {
        if lastValues[k].None? {
          assert NullIndex(lastValues, N) == k;
          return Some(k);
        }
        Visit(names, k, log0, changed0);
        k := k + 1;
      }
      assert NullIndex(lastValues, N) == N;
      return None;
    }

    /**
     * The comparison loop's body for key k, whose previous value is non-null: a
     * fresh record is appended, and `changed` set, iff the two values differ.
     */
    method Visit(names: seq<string>, k: nat, ghost log0: seq<ObjectChange<V>>, ghost changed0: bool)
      requires k < N && |names| == N && Covers(values, N) && Covers(lastValues, N)
      requires lastValues[k].Some?
      requires Appended(changes, changed, names, lastValues, values, k, log0, changed0)
      modifies this`changes, this`changed
      ensures Appended(changes, changed, names, lastValues, values, k + 1, log0, changed0)
      ensures |changes| >= |old(changes)| && changes[..|old(changes)|] == old(changes)
      ensures forall j :: |old(changes)| <= j < |changes| ==> fresh(changes[j])
    {
      if lastValues[k] != values[k] {
        var c := new ObjectChange(names[k], lastValues[k], values[k]);
        changes := changes + [c];
        changed := true;
      }
    }

    /**
     * `stop`: clears the running flag and joins the thread. Before any `start`
     * there is no thread, and joining it throws a NullPointerException after the
     * flag has been cleared.
     */
    method Stop() returns (outcome: StopOutcome)
      requires Valid()
      modifies this`running, this`phase
      ensures Valid() && !running
      ensures old(phase).Idle? ==> outcome == NullThread && phase == Idle
      ensures !old(phase).Idle? ==> outcome == Joined && phase == Stopped
    {
      running := false;
      if phase.Idle? {
        return NullThread;
      }
      phase := Stopped;
      return Joined;
    }
  }

  /** The `put` loop over the fields: key i is overwritten with the i-th field's value. */
  method Store<V>(m: map<nat, Option<V>>, fields: seq<Field<V>>) returns (r: map<nat, Option<V>>)
    requires KeysBelow(m, |fields|)
    ensures r == Snapshot(fields)
  {
    r := m;
    var i := 0;
    while i < |fields|
      invariant 0 <= i <= |fields|
      invariant KeysBelow(r, |fields|)
      invariant forall j: nat :: j < i ==> j in r && r[j] == fields[j].value
    {
      r := r[i := fields[i].value];
      i := i + 1;
    }
  }

  /** The copy loop over the keys of `src`: each key of `src` is put into `dst` with its value. */
  method CopyInto<V>(dst: map<nat, Option<V>>, src: map<nat, Option<V>>) returns (r: map<nat, Option<V>>)
    requires dst.Keys == src.Keys
    ensures r == src
  {
    r := dst;
    var keys := src.Keys;
    while keys != {}
      invariant keys <= src.Keys && r.Keys == src.Keys
      invariant forall j :: j in src && j !in keys ==> r[j] == src[j]
      decreases keys
    {
      var key :| key in keys;
      r := r[key := src[key]];
      keys := keys - {key};
    }
  }
}

/**
 * A client of the recorder: a two-field object x=1, y=2 is sampled, left alone
 * for one tick, then both fields change before the next tick.
 */
module Scenarios {
  import opened Wrappers
  import opened ObjectChanges
  import opened Diff
  import opened Inspector

  /** The diff of the two reads: x from 1 to 1337, then y from 2 to 3100, in field order. */
  lemma TwoFieldDiff()
    ensures NullIndex(Snapshot(PointBefore()), 2) == 2
    ensures Changes(Names(PointAfter()), Snapshot(PointBefore()), Snapshot(PointAfter()), 2)
            == [Change("x", Some(1), Some(1337)), Change("y", Some(2), Some(3100))]
  {
    var prev, cur := Snapshot(PointBefore()), Snapshot(PointAfter());
    assert prev[0] == Some(1) && prev[1] == Some(2) && cur[0] == Some(1337) && cur[1] == Some(3100);
    assert Changes(Names(PointAfter()), prev, cur, 1) == [Change("x", Some(1), Some(1337))];
  }

  function PointBefore(): (fields: seq<Field<int>>)
  {
    [Field("x", Some(1)), Field("y", Some(2))]
  }

  function PointAfter(): (fields: seq<Field<int>>)
  {
    [Field("x", Some(1337)), Field("y", Some(3100))]
  }

  /** Start on the two-field object, then one tick with the object left alone: nothing is recorded. */
  method SampleUnchanged() returns (inspector: ObjectInspector<int>)
    ensures fresh(inspector) && inspector.Valid() && inspector.N == 2 && inspector.phase == Sampling
    ensures inspector.lastValues == Snapshot(PointBefore())
    ensures inspector.changes == [] && !inspector.changed
  {
    inspector := new ObjectInspector<int>.Default(2);
    inspector.Start(Some(PointBefore()));
    inspector.Tick(Some(PointBefore()));
  }

  /**
   * The sampling history of the two-field object: nothing is recorded while it is
   * left alone, then one record per changed field in field order; the flag reads
   * true once and false on the next read; the join succeeds.
   */
  method TwoSimultaneousChanges() returns (quiet: bool, log: seq<Change<int>>, first: bool, second: bool, stopped: StopOutcome)
    ensures quiet
    ensures log == [Change("x", Some(1), Some(1337)), Change("y", Some(2), Some(3100))]
    ensures first && !second && stopped == Joined
  {
    var inspector := SampleUnchanged();
    quiet := inspector.GetLastChange() == null && !inspector.changed;
    TwoFieldDiff();
    inspector.Tick(Some(PointAfter()));
    assert |inspector.changes| == 2;
    log := [inspector.changes[0].View(), inspector.changes[1].View()];
    assert log[0] == Change("x", Some(1), Some(1337));
    assert log[1] == Change("y", Some(2), Some(3100));
    first := inspector.HasChanged();
    second := inspector.HasChanged();
    stopped := inspector.Stop();
  }
}
