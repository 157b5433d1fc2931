/**
 * What the form controllers of the auth pages share: the server's reply as
 * an abstract outcome, the session payload handed to the session store, the
 * navigation state that carries a verified national ID to the registration
 * page, and the two pieces of logic every form repeats — clearing a field's
 * error when the field is edited, and choosing the text of a failure.
 */
module Forms {

  datatype Option<T> = None | Some(value: T)

  /** `data.data` of a successful reply: the session the store keeps. */
  datatype Session = Session(token: string, user: map<string, string>)

  /** How a request ends, as `handleSubmit` sees it:
      - Ok: `response.ok`, with the parsed body's `data`;
      - NotOk: not `response.ok`, with the parsed body's `message`, if any;
      - Thrown: `fetch` or `response.json()` threw, with the error's message. */
  datatype Reply =
    | Ok(data: Session)
    | NotOk(message: Option<string>)
    | Thrown(reason: string)

  /** `location.state` as the registration page receives it. */
  datatype RouteState = NoState | State(nationalId: Option<string>)

  /** Where every successful login or registration navigates. */
  const DashboardRoute := "/dashboard"

  /** `errors[name]` is truthy: present and not the empty string. */
  predicate HasError(errors: map<string, string>, name: string) {
    name in errors && errors[name] != ""
  }

  /** The error map after the field `name` is edited: that field's error, if
      it was set, becomes "", and nothing else changes. */
  function ClearedError(errors: map<string, string>, name: string): (r: map<string, string>)
    ensures r.Keys == errors.Keys
    ensures !HasError(r, name)
    ensures forall k | k in errors && k != name :: r[k] == errors[k]
    ensures !HasError(errors, name) ==> r == errors
  {
    if HasError(errors, name) then errors[name := ""] else errors
  }

  /** The message of the error a failed request ends with:
      `data.message || fallback` for a reply that is not OK, the thrown
      error's own message otherwise. */
  function FailureText(reply: Reply, fallback: string): (text: string)
    requires !reply.Ok?
    ensures reply.NotOk? ==> (text == fallback || Some(text) == reply.message)
    ensures reply.NotOk? && reply.message.Some? && reply.message.value != "" ==> text == reply.message.value
    ensures reply.NotOk? && fallback != "" ==> text != ""
    ensures reply.Thrown? ==> text == reply.reason
  {
    match reply
    case NotOk(message) =>
      if message.Some? && message.value != "" then message.value else fallback
    case Thrown(reason) => reason
  }
}
