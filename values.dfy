/** Python values as the validators see them. */
module PyValues {

  /** A value that may be `None`. */
  datatype Option<+T> = None | Some(value: T)

  /** A Python object handed to a validator: a `str`, a `list` (exactly that type),
      or anything else, identified by its `repr`. */
  datatype Value = Str(s: string) | List(items: seq<Value>) | Other(repr: string)

  /** Python truthiness of a value that is `None` or a `str`. */
  predicate Truthy(o: Option<string>)
  {
    o.Some? && o.value != ""
  }

  /** The text of a `str`-or-`None` value used where only a truthy value is read. */
  function Text(o: Option<string>): (r: string)
    ensures r == "" <==> !Truthy(o)
  {
    if Truthy(o) then o.value else ""
  }
}
