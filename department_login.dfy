/**
 * The department-head login page: email and password, both required by
 * `validate` (which only asks the email to be non-blank), posted as typed
 * once they validate; a failed login is reported in an error dialog whose
 * text is the server's message or "Login failed". The email input is
 * `type="email"` without `required`, so before `submit` the browser stops
 * a non-empty email that is not a valid address, and lets an empty one
 * through to `validate`.
 */
module DepartmentLogin {
  import opened Text
  import opened EmailPattern
  import opened Forms
  import opened NativeValidation

  const FieldNames: set<string> := {"email", "password"}

  const EmailRequired := "Email is required"
  const PasswordRequired := "Password is required"
  const LoginFailed := "Login failed"

  predicate HasFields(form: map<string, string>) {
    FieldNames <= form.Keys
  }

  /** `validate`: the fresh error map built from the fields alone. */
  function Validate(form: map<string, string>): (errs: map<string, string>)
    requires HasFields(form)
    ensures errs.Keys <= FieldNames
    ensures "email" in errs <==> IsBlank(form["email"])
    ensures "email" in errs ==> errs["email"] == "Email is required"
    ensures "password" in errs <==> IsBlank(form["password"])
    ensures "password" in errs ==> errs["password"] == "Password is required"
  {
    var e := if IsBlank(form["email"]) then map["email" := EmailRequired] else map[];
    if IsBlank(form["password"]) then e["password" := PasswordRequired] else e
  }

  /** The form is valid exactly when neither field is blank. */
  lemma ValidIff(form: map<string, string>)
    requires HasFields(form)
    ensures Validate(form) == map[] <==> !IsBlank(form["email"]) && !IsBlank(form["password"])
  {
  }

  /** The browser's check of the login form before `submit`: the email
      input is `type="email"`, and neither input is `required`. */
  function NativeEmailCheckPasses(form: map<string, string>): (b: bool)
    requires HasFields(form)
    ensures IsBlankToBrowser(form["email"]) || IsValidEmailAddress(form["email"]) ==> b
    ensures b ==> IsBlankToBrowser(form["email"]) || '@' in form["email"]
  {
    EmailInputAccepts(form["email"], false)
  }

  /** `validate` does not check the email's shape: a non-blank email
      without '@', such as "abc", which the registration pattern rejects,
      passes it. The browser stops it before `handleSubmit` runs. */
  lemma EmailShapeNotChecked(form: map<string, string>)
    requires HasFields(form) && !IsBlank(form["password"])
    requires !IsBlank(form["email"]) && '@' !in form["email"]
    ensures !Matches(form["email"])
    ensures Validate(form) == map[]
    ensures !NativeEmailCheckPasses(form)
  {
    NoAtRejected(form["email"], false);
  }

  /** The empty form passes the browser's check, since neither input is
      `required`, and `validate` reports both fields. */
  lemma EmptyFormReachesValidate()
    ensures NativeEmailCheckPasses(map["email" := "", "password" := ""])
    ensures Validate(map["email" := "", "password" := ""]) ==
      map["email" := "Email is required", "password" := "Password is required"]
  {
  }

  /** Every email the page sends is a valid address once sanitized: the
      browser stops the malformed ones and `validate` the blank ones. */
  lemma SentEmailIsAddress(form: map<string, string>)
    requires HasFields(form) && NativeEmailCheckPasses(form) && Validate(form) == map[]
    ensures IsValidEmailAddress(SanitizedEmail(form["email"]))
  {
    if SanitizedEmail(form["email"]) == [] {
      SanitizedAwayIsBlank(form["email"]);
    }
  }

  class DepartmentLoginForm {
    var fields: map<string, string>
    /** Field name to message; "" or a missing key is no error. */
    var errors: map<string, string>
    var loading: bool
    /** Bodies posted to the department-head login endpoint, oldest first. */
    var requests: seq<map<string, string>>
    /** Payloads handed to the session store's `login`. */
    var logins: seq<Session>
    /** Texts of the error dialogs shown. */
    var errorDialogs: seq<string>
    /** Routes scheduled with `navigate`. */
    var navigations: seq<string>

    ghost predicate Valid()
      reads this
    {
      HasFields(fields)
    }

    constructor ()
      ensures Valid()
      ensures fields == map["email" := "", "password" := ""]
      ensures errors == map[] && !loading
      ensures requests == [] && logins == [] && errorDialogs == [] && navigations == []
    {
      fields := map["email" := "", "password" := ""];
      errors := map[];
      loading := false;
      requests, logins, errorDialogs, navigations := [], [], [], [];
    }

    /** `handleChange`: one keystroke in the input named `name`. */
    method HandleChange(name: string, value: string)
      requires Valid()
      modifies this`fields, this`errors
      ensures Valid()
      ensures fields == old(fields)[name := value]
      ensures errors == ClearedError(old(errors), name)
    {
      fields := fields[name := value];
      if HasError(errors, name) {
        errors := errors[name := ""];
      }
    }

    /** The synchronous part of `handleSubmit`: validate, and if valid set
        `loading` and send the fields exactly as typed. */
    method Submit() returns (sent: bool)
      requires Valid()
      modifies this`errors, this`loading, this`requests
      ensures Valid()
      ensures errors == Validate(fields)
      ensures sent <==> errors == map[]
      ensures loading == (sent || old(loading))
      ensures requests == if sent then old(requests) + [fields] else old(requests)
    {
      var newErrors := Validate(fields);
      errors := newErrors;
      sent := newErrors == map[];
      if !sent {
        return;
      }
      loading := true;
      requests := requests + [fields];
    }

    /** The login button, disabled while `loading`. When enabled, the
        browser's check runs first, and `handleSubmit` only if it passes. */
    method PressSubmit() returns (sent: bool)
      requires Valid()
      modifies this`errors, this`loading, this`requests
      ensures Valid()
      ensures old(loading) || !NativeEmailCheckPasses(fields) ==>
        && !sent && errors == old(errors) && loading == old(loading) && requests == old(requests)
      ensures !old(loading) && NativeEmailCheckPasses(fields) ==>
        && errors == Validate(fields)
        && (sent <==> errors == map[])
        && loading == sent
        && requests == if sent then old(requests) + [fields] else old(requests)
    {
      if loading || !NativeEmailCheckPasses(fields) {
        sent := false;
      } else {
        sent := Submit();
      }
    }

    /** The rest of `handleSubmit`, once the request ends with `reply`. */
    method Respond(reply: Reply)
      modifies this`loading, this`logins, this`errorDialogs, this`navigations
      ensures !loading
      ensures reply.Ok? ==>
        && logins == old(logins) + [reply.data]
        && errorDialogs == old(errorDialogs)
        && navigations == old(navigations) + [DashboardRoute]
      ensures !reply.Ok? ==>
        && logins == old(logins)
        && errorDialogs == old(errorDialogs) + [FailureText(reply, LoginFailed)]
        && navigations == old(navigations)
    {
      if reply.Ok? {
        logins := logins + [reply.data];
        navigations := navigations + [DashboardRoute];
      } else {
        errorDialogs := errorDialogs + [FailureText(reply, LoginFailed)];
      }
      loading := false;
    }
  }
}
