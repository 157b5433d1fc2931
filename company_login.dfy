/**
 * The company login page: national ID and password, both required, posted
 * as typed once they validate; a failed login is reported in an error
 * dialog whose text is the server's message or "Login failed".
 */
module CompanyLogin {
  import opened Text
  import opened Forms

  const FieldNames: set<string> := {"nationalId", "password"}

  const NationalIdRequired := "National ID is required"
  const PasswordRequired := "Password is required"
  const LoginFailed := "Login failed"

  predicate HasFields(form: map<string, string>) {
    FieldNames <= form.Keys
  }

  /** `validate`: the fresh error map built from the fields alone. */
  function Validate(form: map<string, string>): (errs: map<string, string>)
    requires HasFields(form)
    ensures errs.Keys <= FieldNames
    ensures "nationalId" in errs <==> IsBlank(form["nationalId"])
    ensures "nationalId" in errs ==> errs["nationalId"] == "National ID is required"
    ensures "password" in errs <==> IsBlank(form["password"])
    ensures "password" in errs ==> errs["password"] == "Password is required"
  {
    var e := if IsBlank(form["nationalId"]) then map["nationalId" := NationalIdRequired] else map[];
    if IsBlank(form["password"]) then e["password" := PasswordRequired] else e
  }

  /** The form is valid exactly when neither field is blank. */
  lemma ValidIff(form: map<string, string>)
    requires HasFields(form)
    ensures Validate(form) == map[] <==> !IsBlank(form["nationalId"]) && !IsBlank(form["password"])
  {
  }

  class CompanyLoginForm {
    var fields: map<string, string>
    /** Field name to message; "" or a missing key is no error. */
    var errors: map<string, string>
    var loading: bool
    /** Bodies posted to the company login endpoint, oldest first. */
    var requests: seq<map<string, string>>
    /** Payloads handed to the session store's `login`. */
    var logins: seq<Session>
    /** Texts of the error dialogs shown. */
    var errorDialogs: seq<string>
    /** Routes scheduled with `navigate`. */
    var navigations: seq<string>

    ghost predicate Valid()
      reads this
    {
      HasFields(fields)
    }

    constructor ()
      ensures Valid()
      ensures fields == map["nationalId" := "", "password" := ""]
      ensures errors == map[] && !loading
      ensures requests == [] && logins == [] && errorDialogs == [] && navigations == []
    {
      fields := map["nationalId" := "", "password" := ""];
      errors := map[];
      loading := false;
      requests, logins, errorDialogs, navigations := [], [], [], [];
    }

    /** `handleChange`: one keystroke in the input named `name`. */
    method HandleChange(name: string, value: string)
      requires Valid()
      modifies this`fields, this`errors
      ensures Valid()
      ensures fields == old(fields)[name := value]
      ensures errors == ClearedError(old(errors), name)
    {
      fields := fields[name := value];
      if HasError(errors, name) {
        errors := errors[name := ""];
      }
    }

    /** The synchronous part of `handleSubmit`: validate, and if valid set
        `loading` and send the fields exactly as typed. */
    method Submit() returns (sent: bool)
      requires Valid()
      modifies this`errors, this`loading, this`requests
      ensures Valid()
      ensures errors == Validate(fields)
      ensures sent <==> errors == map[]
      ensures loading == (sent || old(loading))
      ensures requests == if sent then old(requests) + [fields] else old(requests)
    {
      var newErrors := Validate(fields);
      errors := newErrors;
      sent := newErrors == map[];
      if !sent {
        return;
      }
      loading := true;
      requests := requests + [fields];
    }

    /** The login button, disabled while `loading`. */
    method PressSubmit() returns (sent: bool)
      requires Valid()
      modifies this`errors, this`loading, this`requests
      ensures Valid()
      ensures old(loading) ==> !sent && errors == old(errors) && loading && requests == old(requests)
      ensures !old(loading) ==>
        && errors == Validate(fields)
        && (sent <==> errors == map[])
        && loading == sent
        && requests == if sent then old(requests) + [fields] else old(requests)
    {
      if loading {
        sent := false;
      } else {
        sent := Submit();
      }
    }

    /** The rest of `handleSubmit`, once the request ends with `reply`. */
    method Respond(reply: Reply)
      modifies this`loading, this`logins, this`errorDialogs, this`navigations
      ensures !loading
      ensures reply.Ok? ==>
        && logins == old(logins) + [reply.data]
        && errorDialogs == old(errorDialogs)
        && navigations == old(navigations) + [DashboardRoute]
      ensures !reply.Ok? ==>
        && logins == old(logins)
        && errorDialogs == old(errorDialogs) + [FailureText(reply, LoginFailed)]
        && navigations == old(navigations)
    {
      if reply.Ok? {
        logins := logins + [reply.data];
        navigations := navigations + [DashboardRoute];
      } else {
        errorDialogs := errorDialogs + [FailureText(reply, LoginFailed)];
      }
      loading := false;
    }
  }
}
