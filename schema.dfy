/**
 * The string setters and validators the Mongoose schemas share.
 */
module Schema {
  import opened Wrappers
  import JsString

  /** `required` on a string path: a missing value and "" both fail. */
  predicate Filled(v: Option<string>) {
    v.Some? && v.value != ""
  }

  /** The `trim: true` setter, which runs before any validator. */
  function TrimSetter(v: Option<string>): (r: Option<string>)
    ensures r.Some? <==> v.Some?
    ensures r.Some? ==> r.value == JsString.Trim(v.value)
  {
    match v
    case None => None
    case Some(t) => Some(JsString.Trim(t))
  }

  /** A trimmed value passes `required` exactly when the raw one holds something other than white space. */
  lemma TrimmedFilled(v: Option<string>)
    ensures Filled(TrimSetter(v)) <==> v.Some? && !JsString.AllWhite(v.value)
  {
  }
}
