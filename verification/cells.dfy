/** `parseColumn`: how one raw cell value is resolved against its column. */
module Cells {
  import opened Js
  import opened Schema

  /**
   `optionNameById["{name}.{v}"]`: the display name registered for the option
   whose id `v` stringifies to, or `undefined` when none is registered.
   */
  function ResolveOption(nameById: map<string, string>, name: string, v: Value): (r: Value)
    ensures r.Str? || r == Undefined
    ensures r.Str? <==> CompositeKey(name, ToKey(v)) in nameById
    ensures r.Str? ==> r.s == nameById[CompositeKey(name, ToKey(v))]
  {
    var k := CompositeKey(name, ToKey(v));
    if k in nameById then Str(nameById[k]) else Undefined
  }

  /**
   The cell resolver. A `single-select` value becomes its option's name, a
   `multiple-select` array becomes the array of its elements' option names, in
   the same order, and a value of any other column type is kept as it is. The
   source calls `value.map` on a `multiple-select` value, which throws unless
   the value is an array.
   */
  function ParseColumn(col: Column, value: Value, nameById: map<string, string>): (r: Value)
    requires col.kind == MultipleSelect ==> value.Arr?
    ensures col.kind == SingleSelect ==> r == ResolveOption(nameById, col.name, value)
    ensures col.kind == MultipleSelect ==>
      && r.Arr?
      && |r.elems| == |value.elems|
      && forall i | 0 <= i < |value.elems| :: r.elems[i] == ResolveOption(nameById, col.name, value.elems[i])
    ensures col.kind != SingleSelect && col.kind != MultipleSelect ==> r == value
  {
    if col.kind == SingleSelect then
      ResolveOption(nameById, col.name, value)
    else if col.kind == MultipleSelect then
      var es := value.elems;
      Arr(seq(|es|, i requires 0 <= i < |es| => ResolveOption(nameById, col.name, es[i])))
    else
      value
  }

  /**
   Resolving a `multiple-select` array is resolving each of its elements as a
   `single-select` cell of the same column would be resolved.
   */
  lemma MultipleSelectIsElementwise(col: Column, value: Value, nameById: map<string, string>)
    requires col.kind == MultipleSelect && value.Arr?
    ensures var r := ParseColumn(col, value, nameById);
      && r.Arr? && |r.elems| == |value.elems|
      && forall i | 0 <= i < |value.elems| ::
           r.elems[i] == ParseColumn(col.(kind := SingleSelect), value.elems[i], nameById)
  {
  }
}
