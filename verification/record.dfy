/** The organization record returned by a lookup, as far as the text
    formatter reads it: JSON text leaves and JSON objects. */
module Record {
  import opened Wrappers

  datatype Json = Str(text: string) | Obj(fields: Object)

  /** A JSON object: Python's `dict` with string keys. */
  type Object = map<string, Json>

  /** Why reading a record failed. `NotAnObject` is the `AttributeError` Python
      raises when `.get` is called on a value that is not a dict; `NotText` marks a
      position where a text leaf was expected but an object was found. */
  datatype ReadError = NotAnObject(path: seq<string>) | NotText(path: seq<string>)

  /** `d.get(key, "")` read as text. */
  function TextAt(d: Object, key: string): (r: Result<string, ReadError>)
    ensures r.Success? <==> TextSlot(d, key)
    ensures key !in d ==> r == Success("")
    ensures key in d && r.Success? ==> d[key] == Str(r.value)
    ensures r.Failure? ==> r.error == NotText([key])
  {
    if key !in d then Success("")
    else match d[key]
      case Str(s) => Success(s)
      case Obj(_) => Failure(NotText([key]))
  }

  /** `d.get(key, {})`, which must be an object for a later `.get` to work. */
  function ObjectAt(d: Object, key: string): (r: Result<Object, ReadError>)
    ensures r.Success? <==> key !in d || d[key].Obj?
    ensures key !in d ==> r == Success(map[])
    ensures key in d && r.Success? ==> d[key] == Obj(r.value)
    ensures r.Failure? ==> r.error == NotAnObject([key])
  {
    if key !in d then Success(map[])
    else match d[key]
      case Obj(m) => Success(m)
      case Str(_) => Failure(NotAnObject([key]))
  }

  /** `d.get(outer, {}).get(inner, "")` read as text. */
  function NestedTextAt(d: Object, outer: string, inner: string): (r: Result<string, ReadError>)
    ensures r.Success? <==> NestedTextSlots(d, outer, [inner])
    ensures outer !in d ==> r == Success("")
    ensures outer in d && d[outer].Obj? && inner !in d[outer].fields ==> r == Success("")
    ensures r.Success? && outer in d && inner in d[outer].fields ==> d[outer].fields[inner] == Str(r.value)
    ensures r.Failure? ==> r.error == NotAnObject([outer]) || r.error == NotText([outer, inner])
    ensures r.Success? ==> r.value == InnerText(d, outer, inner)
  {
    var o :- ObjectAt(d, outer);
    assert [inner][0] == inner;
    if inner !in o then Success("")
    else match o[inner]
      case Str(s) => Success(s)
      case Obj(_) => Failure(NotText([outer, inner]))
  }

  /** The text held at `inner` inside the object at `outer`, and `""` when there is none. */
  function InnerText(d: Object, outer: string, inner: string): string
  {
    if outer in d && d[outer].Obj? && inner in d[outer].fields && d[outer].fields[inner].Str?
    then d[outer].fields[inner].text
    else ""
  }

  /** `key` is absent or holds text. */
  predicate TextSlot(d: Object, key: string)
  {
    key !in d || d[key].Str?
  }

  /** `outer` is absent or an object whose listed `inners` are each absent or text. */
  predicate NestedTextSlots(d: Object, outer: string, inners: seq<string>)
  {
    outer !in d || (d[outer].Obj? && forall i :: 0 <= i < |inners| ==> TextSlot(d[outer].fields, inners[i]))
  }

  /** Three inner keys are well placed exactly when each one is. */
  lemma NestedTextSlots3(d: Object, outer: string, a: string, b: string, c: string)
    ensures NestedTextSlots(d, outer, [a, b, c])
            <==> NestedTextSlots(d, outer, [a]) && NestedTextSlots(d, outer, [b]) && NestedTextSlots(d, outer, [c])
  {
    assert [a][0] == a && [b][0] == b && [c][0] == c;
    assert [a, b, c][0] == a && [a, b, c][1] == b && [a, b, c][2] == c;
  }

  /** Four inner keys are well placed exactly when each one is. */
  lemma NestedTextSlots4(d: Object, outer: string, a: string, b: string, c: string, e: string)
    ensures NestedTextSlots(d, outer, [a, b, c, e])
            <==> NestedTextSlots(d, outer, [a]) && NestedTextSlots(d, outer, [b])
                 && NestedTextSlots(d, outer, [c]) && NestedTextSlots(d, outer, [e])
  {
    assert [a][0] == a && [b][0] == b && [c][0] == c && [e][0] == e;
    assert [a, b, c, e][0] == a && [a, b, c, e][1] == b && [a, b, c, e][2] == c && [a, b, c, e][3] == e;
  }
}
