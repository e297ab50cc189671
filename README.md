# ObjectInspector field-change recorder, modelled in Dafny

ObjectInspector watches one Java object in the background. A sampling thread
re-reads all of the object's public fields every `interval` milliseconds. It
compares each field with the value read last time. For every field that
differs, it appends an `ObjectChange(name, from, to)` record to a log and
raises a dirty flag. Callers can ask whether anything changed since they last
asked (`hasChanged`), get the newest record (`getLastChange`) or get the whole
log (`getChanges`).

The model turns that thread into a sequential state machine over a class with
the recorder's fields:

- `Start` is the thread's prologue. It fills both snapshots from one read.
- `Tick` is one pass of the `while (running)` loop.
- `Stop` clears the running flag and joins.

Reflection is replaced by the read each call receives: `None` when the
reference holds null, or otherwise the fields' names and values in the order
reflection lists them. Java's `null` is `Option.None`. `Object.equals` is
Dafny's `==` on the value type `V`. `Object.toString` is a function
`show: V -> string` passed in. An exception that ends the thread is recorded
as a `Halted(fault)` phase.

Files:

- `wrappers.dfy`: `Option`.
- `object_change.dfy`: the `ObjectChange` record class, its value view
  `Change`, and its rendering.
- `diff.dfy`: the pure diff of two snapshots. It has the reference definition
  `Differing` of the keys that differ, and the lemmas tying the comparison
  loop's output to it.
- `object_inspector.dfy`: the `ObjectInspector` class, its lifecycle and the
  sampling pass, plus a scenario module replaying the example from the
  source's header comment.

How the code behaves on nulls and in the lifecycle edge cases, as the model
states it:

- **Null previous value.** The comparison calls `equals` on the previous value
  with no null check (ObjectInspector.java:156), so a null previous value
  throws a NullPointerException. The catch around the loop (170-172) then ends
  the thread. Records already appended for lower keys in that pass stay in the
  log, and `lastValues` is not updated (`Halted(NullPreviousValue(k))`).
- **Null current value.** Non-null `equals(null)` is false, so a change to
  null is recorded.
- **Null reference.** If the reference holds null, `getClass()` throws before
  anything is written (`Halted(NullReference)`).
- **Negative interval.** `sleep` rejects a negative interval after the first
  full pass has been committed. That ends the thread
  (`Halted(NegativeInterval)`).
- **Stop before start.** `stop` before any `start` clears the flag and then
  throws, because the thread field is null (`StopOutcome.NullThread`).
- **A halted thread keeps the flag.** When the thread ends on an exception,
  `running` stays true.

## Model

| member | source | states |
|---|---|---|
| ObjectChanges.ShowValue | ObjectInspector/src/me/inplex/objectinspector/ObjectChange.java:17 | a null value renders as "null", any other value as its own `toString` |
| ObjectChanges.Render | ObjectInspector/src/me/inplex/objectinspector/ObjectChange.java:16-18 | the rendering is laid out piece by piece: "ObjectChange[name=", then the name, " from=", the from value, " to=", the to value and "]", with these exact lengths |
| ObjectChanges.ObjectChange.constructor | ObjectInspector/src/me/inplex/objectinspector/ObjectChange.java:9-13 | after `new ObjectChange(n, f, t)` the getters return n, f and t |
| ObjectChanges.ObjectChange.View | ObjectInspector/src/me/inplex/objectinspector/ObjectChange.java:20-38 | the value view of a record agrees with each of the three getters |
| ObjectChanges.ObjectChange.SetName | ObjectInspector/src/me/inplex/objectinspector/ObjectChange.java:24-26 | `getName` returns the new name; from and to are unchanged |
| ObjectChanges.ObjectChange.SetFrom | ObjectInspector/src/me/inplex/objectinspector/ObjectChange.java:32-34 | `getFrom` returns the new value; name and to are unchanged |
| ObjectChanges.ObjectChange.SetTo | ObjectInspector/src/me/inplex/objectinspector/ObjectChange.java:40-42 | `getTo` returns the new value; name and from are unchanged |
| ObjectChanges.ObjectChange.ToString | ObjectInspector/src/me/inplex/objectinspector/ObjectChange.java:15-18 | the text always opens with "ObjectChange[name=" followed by the name, and ends with "]"; it is the layout of `Render` for the record's current triple |
| Diff.Snapshot | ObjectInspector/src/me/inplex/objectinspector/ObjectInspector.java:150-153 | the map a full read leaves has exactly the keys 0..N-1, and key i holds the i-th field's value |
| Diff.Names | ObjectInspector/src/me/inplex/objectinspector/ObjectInspector.java:157 | the i-th name is the i-th field's name, one per field |
| Diff.NullFrom | ObjectInspector/src/me/inplex/objectinspector/ObjectInspector.java:154-156 | the first key from j on whose previous value is null, or n if there is none; every key before it is non-null |
| Diff.NullIndex | ObjectInspector/src/me/inplex/objectinspector/ObjectInspector.java:154-156 | the key at which the comparison throws: either N, when no previous value is null, or the first null key, with every lower key non-null |
| Diff.Changes | ObjectInspector/src/me/inplex/objectinspector/ObjectInspector.java:154-163 | the comparison over keys below k appends at most one record per key |
| Diff.Differing | ObjectInspector/src/me/inplex/objectinspector/ObjectInspector.java:154-156 | the keys below k whose two values are unequal: all of them, only them, strictly ascending |
| Diff.ChangesFollowDiffering | ObjectInspector/src/me/inplex/objectinspector/ObjectInspector.java:154-163 | exactly one record per differing key, in ascending key order; the j-th record is (name, previous value, current value) of the j-th differing key |
| Diff.ChangesEmptyIff | ObjectInspector/src/me/inplex/objectinspector/ObjectInspector.java:154-164 | no record is appended if and only if the two snapshots agree on every key compared |
| Inspector.NothingAppended | ObjectInspector/src/me/inplex/objectinspector/ObjectInspector.java:154-164 | when both snapshots are equal, the comparison leaves the log and the flag exactly as they were |
| Inspector.ObjectInspector.constructor | ObjectInspector/src/me/inplex/objectinspector/ObjectInspector.java:81-88 | the given interval and output flag are stored; both snapshots and the log are empty; the flag is false; not running; no thread yet |
| Inspector.ObjectInspector.Default | ObjectInspector/src/me/inplex/objectinspector/ObjectInspector.java:45-47 | as the full constructor, with interval 20 and output off |
| Inspector.ObjectInspector.WithInterval | ObjectInspector/src/me/inplex/objectinspector/ObjectInspector.java:56-58 | as the full constructor, with the given interval and output off |
| Inspector.ObjectInspector.WithOutput | ObjectInspector/src/me/inplex/objectinspector/ObjectInspector.java:68-70 | as the full constructor, with interval 20 and the given output flag |
| Inspector.ObjectInspector.HasChanged | ObjectInspector/src/me/inplex/objectinspector/ObjectInspector.java:96-102 | returns the flag as it was and leaves it false, so a second call with no tick in between returns false |
| Inspector.ObjectInspector.GetLastChange | ObjectInspector/src/me/inplex/objectinspector/ObjectInspector.java:111-115 | null if and only if the log is empty; otherwise the newest record |
| Inspector.ObjectInspector.GetChanges | ObjectInspector/src/me/inplex/objectinspector/ObjectInspector.java:125-127 | returns the log itself, entry by entry (oldest first, since `Tick` only appends at the end); its last entry is what `getLastChange` returns |
| Inspector.ObjectInspector.Start | ObjectInspector/src/me/inplex/objectinspector/ObjectInspector.java:133-147 | the running flag is raised; a null reference ends the thread with both snapshots untouched; otherwise both snapshots hold the same full read, so the next comparison of an unmodified object records nothing |
| Inspector.ObjectInspector.Tick | ObjectInspector/src/me/inplex/objectinspector/ObjectInspector.java:148-172 | a null reference halts and changes nothing. Otherwise `values` is the new read; the earlier log is a prefix of the new log; each appended entry is a fresh record of one differing key, in key order, up to the first null previous value; the flag is raised if and only if something was appended, and is never cleared; a null previous value halts with `lastValues` unchanged; otherwise `lastValues` equals `values` afterwards, and a negative interval halts |
| Inspector.ObjectInspector.Compare | ObjectInspector/src/me/inplex/objectinspector/ObjectInspector.java:154-172 | the comparison and commit half of a pass, with the same outcome as `Tick` once `values` holds the read; equal snapshots append nothing |
| Inspector.ObjectInspector.AppendChanges | ObjectInspector/src/me/inplex/objectinspector/ObjectInspector.java:154-164 | the comparison loop appends one fresh record per differing key below the first null previous value, in ascending order, and returns that null key, if there is one |
| Inspector.ObjectInspector.Visit | ObjectInspector/src/me/inplex/objectinspector/ObjectInspector.java:155-163 | one key: a fresh record is appended and the flag raised if and only if the previous and current values differ; earlier entries are kept |
| Inspector.ObjectInspector.Commit | ObjectInspector/src/me/inplex/objectinspector/ObjectInspector.java:165-168 | `lastValues` becomes equal to `values`; `sleep` on a negative interval ends the thread |
| Inspector.ObjectInspector.Stop | ObjectInspector/src/me/inplex/objectinspector/ObjectInspector.java:184-187 | the running flag is cleared; before any `start` the join throws on the missing thread; otherwise the thread is joined |
| Inspector.Store | ObjectInspector/src/me/inplex/objectinspector/ObjectInspector.java:150-153 | the `put` loop turns a map with no keys beyond the field count into exactly the snapshot of the read |
| Inspector.CopyInto | ObjectInspector/src/me/inplex/objectinspector/ObjectInspector.java:165-167 | copying every key of `values` into `lastValues` makes the two maps equal |
| Scenarios.TwoFieldDiff | ObjectInspector/src/me/inplex/objectinspector/ObjectInspector.java:6-15 | reading x=1, y=2 and then x=1337, y=3100 yields exactly (x, 1, 1337) then (y, 2, 3100) |
| Scenarios.SampleUnchanged | ObjectInspector/src/me/inplex/objectinspector/ObjectInspector.java:189-193 | starting the recorder and ticking on an unmodified object records nothing and leaves the flag false |
| Scenarios.TwoSimultaneousChanges | ObjectInspector/src/me/inplex/objectinspector/ObjectInspector.java:6-15 | the header-comment example, ending with `stop`, plus two `hasChanged` reads that the example does not make: the log is empty while the object is left alone; after both fields change, the log holds (x, 1, 1337) and (y, 2, 3100) in that order; `hasChanged` gives true, then false; `stop` joins |

## Left out

- Threads, `sleep` timing, `join` blocking and InterruptedException are not modelled. Passes are explicit sequential calls, and the unsynchronised read-then-clear of `changed` across threads is not captured.
- Reflection (`getClass().getFields()`, `setAccessible`, `Field.get`) is not modelled. Each call receives the read as a sequence of (name, value) fields.
- The prologue reads the fields twice, once per snapshot. It is modelled as one read filling both, since nothing changes the object in between in a sequential model.
- `Object.equals` and `Object.toString` of field values are not modelled. They are Dafny `==` on `V` and a `show` function given by the caller.
- Console output is not modelled. That is the per-change trace when `output` is true, and `printStackTrace`. The `output` flag is stored but has no effect.
- `main` is kept only as the scenario module; its printing of the log is not modelled.
- HashMap internals are not modelled. Key iteration is assumed to run over 0..N-1 in ascending order, which is how small `Integer` keys iterate.
- The field count N is fixed per recorder. A class whose field count changes between reads, which would leave stale keys, is not modelled.
- A second `start` while a thread is still sampling is not modelled. `Start` requires that no pass is in progress, because two live threads would share the maps.
- Inspector.ObjectInspector.GetChanges: returns the log sequence of record references. It does not capture that the Java list is the live mutable `ArrayList`, which a caller could modify.
- ObjectChanges.ObjectChange.constructor: the name is a `string`, not a possibly-null one. `new ObjectChange(null, f, t)`, `setName(null)` and the "name=null" rendering are not modelled, because the recorder always passes a reflected field name, which is never null.
- Diff.Changes: its own contract only bounds the length; what each record is comes from `ChangesFollowDiffering`.
