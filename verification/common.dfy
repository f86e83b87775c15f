/** Shared vocabulary of the request handlers: optional values and submitted HTML forms. */
module Common {

  /** A value that may be absent, as a Python `None`-or-value. */
  datatype Option<+T> = None | Some(value: T)

  /** The fields of a submitted form (`request.form`), by field name. */
  type Form = map<string, string>

  /** `m.get(key)` on a string dictionary: the value, or `None` when the key is absent. */
  function Lookup(m: map<string, string>, key: string): (r: Option<string>)
    ensures r.Some? <==> key in m
    ensures r.Some? ==> r.value == m[key]
  {
    if key in m then Some(m[key]) else None
  }

  /** `form.get(key, default)`: the submitted value, or `default` when the field is absent. */
  function FormGet(form: Form, key: string, default: string): (r: string)
    ensures key in form ==> r == form[key]
    ensures key !in form ==> r == default
  {
    match Lookup(form, key)
    case Some(v) => v
    case None => default
  }
}
