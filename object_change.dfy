/**
 * The change record of the recorder: a mutable (name, from, to) triple with
 * getters, setters and a fixed textual rendering
 * (ObjectInspector/src/me/inplex/objectinspector/ObjectChange.java).
 */
module ObjectChanges {
  import opened Wrappers

  /** The value a change record holds at a given moment: attribute name, old value, new value. */
  datatype Change<V> = Change(name: string, from: Option<V>, to: Option<V>)

  const Opening: string := "ObjectChange[name="
  const FromTag: string := " from="
  const ToTag: string := " to="
  const Closing: string := "]"

  /**
   * How Java's string concatenation renders a possibly-null value: `null` becomes
   * the text "null", anything else goes through the value's own `toString`,
   * which the model receives as `show`.
   */
  function ShowValue<V>(v: Option<V>, show: V -> string): (s: string)
    ensures v.None? ==> s == "null"
    ensures v.Some? ==> s == show(v.value)
  {
    match v
    case None => "null"
    case Some(x) => show(x)
  }

  /**
   * The text of `toString` for a record holding `c`. The contract spells out the
   * layout piece by piece: the fixed opening, the name, the " from=" tag, the two
   * rendered values and the closing bracket, with their lengths.
   */
  function Render<V>(c: Change<V>, show: V -> string): (s: string)
    ensures |s| == |Opening| + |c.name| + |FromTag| + |ShowValue(c.from, show)|
                   + |ToTag| + |ShowValue(c.to, show)| + |Closing|
    ensures s[..|Opening|] == Opening
    ensures s[|s| - 1] == ']'
    ensures s[|Opening|..|Opening| + |c.name|] == c.name
    ensures s[|Opening| + |c.name|..|Opening| + |c.name| + |FromTag|] == FromTag
    ensures var f := |Opening| + |c.name| + |FromTag|;
            s[f..f + |ShowValue(c.from, show)|] == ShowValue(c.from, show)
    ensures var t := |Opening| + |c.name| + |FromTag| + |ShowValue(c.from, show)|;
            s[t..t + |ToTag|] == ToTag
            && s[t + |ToTag|..|s| - 1] == ShowValue(c.to, show)
  {
    Opening + c.name + FromTag + ShowValue(c.from, show) + ToTag + ShowValue(c.to, show) + Closing
  }

  /** A change record object; the recorder's log holds references to these. */
  class ObjectChange<V> {
    var name: string
    var from: Option<V>
    var to: Option<V>

    constructor (name: string, from: Option<V>, to: Option<V>)
      ensures GetName() == name && GetFrom() == from && GetTo() == to
    {
      this.name := name;
      this.from := from;
      this.to := to;
    }

    /** The triple this record holds right now. */
    function View(): (c: Change<V>)
      reads this
      ensures c.name == GetName() && c.from == GetFrom() && c.to == GetTo()
    {
      Change(name, from, to)
    }

    function GetName(): (n: string)
      reads this
    {
      name
    }

    function GetFrom(): (v: Option<V>)
      reads this
    {
      from
    }

    function GetTo(): (v: Option<V>)
      reads this
    {
      to
    }

    method SetName(name: string)
      modifies this
      ensures GetName() == name && GetFrom() == old(GetFrom()) && GetTo() == old(GetTo())
    {
      this.name := name;
    }

    method SetFrom(from: Option<V>)
      modifies this
      ensures GetFrom() == from && GetName() == old(GetName()) && GetTo() == old(GetTo())
    {
      this.from := from;
    }

    method SetTo(to: Option<V>)
      modifies this
      ensures GetTo() == to && GetName() == old(GetName()) && GetFrom() == old(GetFrom())
    {
      this.to := to;
    }

    /** `toString`: always opens with "ObjectChange[name=", then the name, and closes with "]". */
    function ToString(show: V -> string): (s: string)
      reads this
      ensures |s| >= |Opening| + |name| + |Closing|
      ensures s[..|Opening|] == Opening && s[|s| - 1] == ']'
      ensures s[|Opening|..|Opening| + |name|] == name
      ensures s == Render(View(), show)
    {
      Render(View(), show)
    }
  }
}
