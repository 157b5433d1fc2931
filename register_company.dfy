/**
 * The company registration page: seven fields, a validator with one
 * "required" rule per field plus the email-shape rule, a submit that posts
 * the fields once they validate, the browser's own check of the markup's
 * `required` and `type="email"` attributes that runs before it, and a prefill of the national ID from the
 * navigation state the verification page sends.
 */
module RegisterCompany {
  import opened Text
  import opened EmailPattern
  import opened Forms
  import opened NativeValidation

  const FieldNames: set<string> :=
    {"nationalId", "name", "phone", "location", "fieldOfWork", "email", "password"}

  /** The key under which a failed request's message is shown. */
  const FormKey := "form"

  const NationalIdRequired := "National ID is required"
  const NameRequired := "Company name is required"
  const PhoneRequired := "Phone number is required"
  const LocationRequired := "Location is required"
  const FieldOfWorkRequired := "Field of work is required"
  const EmailRequired := "Email is required"
  const EmailInvalid := "Please enter a valid email address"
  const PasswordRequired := "Password is required"
  const RegistrationFailed := "Registration failed"

  /** Every field the validator reads is present. */
  predicate HasFields(form: map<string, string>) {
    FieldNames <= form.Keys
  }

  /** The form as the page first renders it. */
  function InitialFields(): (form: map<string, string>)
    ensures form.Keys == FieldNames
    ensures forall k | k in form :: form[k] == ""
  {
    map["nationalId" := "", "name" := "", "phone" := "", "location" := "",
        "fieldOfWork" := "", "email" := "", "password" := ""]
  }

  /** The rule "key is required": the key is reported, with `message`,
      exactly when its value trims to "". */
  predicate Required(errs: map<string, string>, form: map<string, string>, key: string, message: string)
    requires key in form
  {
    && (key in errs <==> IsBlank(form[key]))
    && (key in errs ==> errs[key] == message)
  }

  /** The message of the "required" rule of each field but the email. */
  function RequiredMessage(key: string): string {
    if key == "nationalId" then NationalIdRequired
    else if key == "name" then NameRequired
    else if key == "phone" then PhoneRequired
    else if key == "location" then LocationRequired
    else if key == "fieldOfWork" then FieldOfWorkRequired
    else PasswordRequired
  }

  /** The message the rules give the field `key`, "" when it passes. */
  function FieldError(form: map<string, string>, key: string): string
    requires HasFields(form) && key in FieldNames
  {
    if key == "email" then
      if IsBlank(form["email"]) then EmailRequired
      else if !Matches(form["email"]) then EmailInvalid
      else ""
    else if IsBlank(form[key]) then RequiredMessage(key)
    else ""
  }

  /** `validate`: the fresh error map built from the fields alone. */
  function Validate(form: map<string, string>): (errs: map<string, string>)
    requires HasFields(form)
    ensures errs.Keys <= FieldNames
    ensures Required(errs, form, "nationalId", "National ID is required")
    ensures Required(errs, form, "name", "Company name is required")
    ensures Required(errs, form, "phone", "Phone number is required")
    ensures Required(errs, form, "location", "Location is required")
    ensures Required(errs, form, "fieldOfWork", "Field of work is required")
    ensures Required(errs, form, "password", "Password is required")
    ensures "email" in errs <==> IsBlank(form["email"]) || !Matches(form["email"])
    ensures "email" in errs ==>
      errs["email"] == if IsBlank(form["email"]) then "Email is required"
                       else "Please enter a valid email address"
  {
    map k | k in FieldNames && FieldError(form, k) != "" :: FieldError(form, k)
  }

  /** The form is valid exactly when every field is filled in and the email
      has the expected shape. */
  lemma ValidIff(form: map<string, string>)
    requires HasFields(form)
    ensures Validate(form) == map[] <==>
      (forall k | k in FieldNames :: !IsBlank(form[k])) && Matches(form["email"])
  {
  }

  /** The fields after the navigation-state effect: a truthy
      `location.state.nationalId` replaces the national ID, and nothing else
      changes. */
  function Prefilled(form: map<string, string>, state: RouteState): (r: map<string, string>)
    ensures state.State? && state.nationalId.Some? && state.nationalId.value != "" ==>
      "nationalId" in r && r["nationalId"] == state.nationalId.value
    ensures r.Keys == form.Keys || r.Keys == form.Keys + {"nationalId"}
    ensures forall k | k in form && k != "nationalId" :: r[k] == form[k]
    ensures !(state.State? && state.nationalId.Some? && state.nationalId.value != "") ==> r == form
  {
    if state.State? && state.nationalId.Some? && state.nationalId.value != "" then
      form["nationalId" := state.nationalId.value]
    else
      form
  }

  /** A national ID the verification page accepted is never blank, so it
      always reaches the registration form unchanged. */
  lemma VerifiedIdPrefills(form: map<string, string>, id: string)
    requires !IsBlank(id)
    ensures Prefilled(form, State(Some(id))) == form["nationalId" := id]
  {
  }

  /** The browser's check of the registration form before `submit`: every
      input is `required`, and the email input is `type="email"`. */
  function NativeChecksPass(form: map<string, string>): (b: bool)
    requires HasFields(form)
    ensures b ==> (forall k | k in FieldNames :: form[k] != "") && '@' in form["email"]
    ensures b ==> !IsBlankToBrowser(form["email"])
    ensures (forall k | k in FieldNames && k != "email" :: form[k] != "") && IsValidEmailAddress(form["email"]) ==> b
  {
    && (forall k | k in FieldNames && k != "email" :: form[k] != "")
    && EmailInputAccepts(form["email"], true)
  }

  /** Once the browser's check has passed, the email is never reported as
      missing: `validate` reports it exactly when it does not match the
      pattern, with "Please enter a valid email address". */
  lemma NativeChecksLeaveEmailShape(form: map<string, string>)
    requires HasFields(form) && NativeChecksPass(form)
    ensures "email" in Validate(form) <==> !Matches(form["email"])
    ensures "email" in Validate(form) ==> Validate(form)["email"] == "Please enter a valid email address"
  {
    AcceptedEmailNotBlank(form["email"]);
  }

  /** The form as first rendered is stopped by the browser: pressing the
      button leaves the errors as they are. */
  lemma InitialFormBlocked()
    ensures !NativeChecksPass(InitialFields())
  {
  }

  /** A company name of white space alone passes `required` and reaches
      `validate`, which refuses it: with every other field filled in and an
      address the pattern accepts, that is the only error. */
  lemma BlankNameReachesValidate(form: map<string, string>)
    requires HasFields(form)
    requires form["name"] != "" && IsBlank(form["name"])
    requires forall k | k in FieldNames && k != "name" && k != "email" :: !IsBlank(form[k])
    requires IsValidEmailAddress(form["email"]) && '.' in form["email"][AtIndex(form["email"]) + 1..]
    ensures NativeChecksPass(form)
    ensures Validate(form) == map["name" := "Company name is required"]
  {
    var email := form["email"];
    assert NativeChecksPass(form) by {
      assert IsBlank([]);
    }
    assert !IsBlank(email) && Matches(email) by {
      AddressHasNoWhitespace(email);
      AddressMatchesIffDotted(email);
    }
    OnlyBlankNameReported(form);
  }

  /** With only the company name blank and an email the pattern accepts,
      the name is the one field `validate` reports. */
  lemma OnlyBlankNameReported(form: map<string, string>)
    requires HasFields(form) && IsBlank(form["name"])
    requires forall k | k in FieldNames && k != "name" && k != "email" :: !IsBlank(form[k])
    requires !IsBlank(form["email"]) && Matches(form["email"])
    ensures Validate(form) == map["name" := "Company name is required"]
  {
    assert Validate(form).Keys == {"name"};
  }

  /** An address with a one-label domain, such as "a@b", passes the
      browser's check and reaches `validate`, which refuses its shape: with
      every other field filled in, that is the only error. */
  lemma DotlessEmailReachesValidate(form: map<string, string>)
    requires HasFields(form)
    requires forall k | k in FieldNames && k != "email" :: !IsBlank(form[k])
    requires IsValidEmailAddress(form["email"]) && '.' !in form["email"][AtIndex(form["email"]) + 1..]
    ensures NativeChecksPass(form)
    ensures Validate(form) == map["email" := "Please enter a valid email address"]
  {
    var email := form["email"];
    assert NativeChecksPass(form) by {
      assert IsBlank([]);
    }
    assert !IsBlank(email) && !Matches(email) by {
      AddressHasNoWhitespace(email);
      AddressMatchesIffDotted(email);
    }
    OnlyEmailShapeReported(form);
  }

  /** With every other field filled in and a non-blank email the pattern
      rejects, the email's shape is the one error `validate` reports. */
  lemma OnlyEmailShapeReported(form: map<string, string>)
    requires HasFields(form)
    requires forall k | k in FieldNames && k != "email" :: !IsBlank(form[k])
    requires !IsBlank(form["email"]) && !Matches(form["email"])
    ensures Validate(form) == map["email" := "Please enter a valid email address"]
  {
    assert Validate(form).Keys == {"email"};
  }

  class RegisterCompanyForm {
    var fields: map<string, string>
    /** Field name to message; "" or a missing key is no error. */
    var errors: map<string, string>
    var loading: bool
    /** Bodies posted to the registration endpoint, oldest first. */
    var requests: seq<map<string, string>>
    /** Payloads handed to the session store's `login`. */
    var logins: seq<Session>
    /** Texts of the error dialogs shown. */
    var errorDialogs: seq<string>
    /** Routes scheduled with `navigate`. */
    var navigations: seq<string>

    ghost predicate Valid()
      reads this
    {
      HasFields(fields)
    }

    constructor ()
      ensures Valid()
      ensures fields == InitialFields() && errors == map[] && !loading
      ensures requests == [] && logins == [] && errorDialogs == [] && navigations == []
    {
      fields := InitialFields();
      errors := map[];
      loading := false;
      requests, logins, errorDialogs, navigations := [], [], [], [];
    }

    /** The effect that runs whenever `location.state` changes. */
    method ApplyRouteState(state: RouteState)
      requires Valid()
      modifies this`fields
      ensures Valid()
      ensures fields == Prefilled(old(fields), state)
    {
      if state.State? && state.nationalId.Some? && state.nationalId.value != "" {
        fields := fields["nationalId" := state.nationalId.value];
      }
    }

    /** `handleChange`: one keystroke in the input named `name`. */
    method HandleChange(name: string, value: string)
      requires Valid()
      modifies this`fields, this`errors
      ensures Valid()
      ensures fields == old(fields)[name := value]
      ensures errors == ClearedError(old(errors), name)
    {
      fields := fields[name := value];
      if HasError(errors, name) {
        errors := errors[name := ""];
      }
    }

    /** The synchronous part of `handleSubmit`: validate, and if valid set
        `loading` and send the fields exactly as typed. */
    method Submit() returns (sent: bool)
      requires Valid()
      modifies this`errors, this`loading, this`requests
      ensures Valid()
      ensures errors == Validate(fields)
      ensures sent <==> errors == map[]
      ensures loading == (sent || old(loading))
      ensures requests == if sent then old(requests) + [fields] else old(requests)
    {
      var newErrors := Validate(fields);
      errors := newErrors;
      sent := newErrors == map[];
      if !sent {
        return;
      }
      loading := true;
      requests := requests + [fields];
    }

    /** The submit button, disabled while `loading`. When enabled, the
        browser's check runs first, and `handleSubmit` only if it passes. */
    method PressSubmit() returns (sent: bool)
      requires Valid()
      modifies this`errors, this`loading, this`requests
      ensures Valid()
      ensures old(loading) || !NativeChecksPass(fields) ==>
        && !sent && errors == old(errors) && loading == old(loading) && requests == old(requests)
      ensures !old(loading) && NativeChecksPass(fields) ==>
        && errors == Validate(fields)
        && (sent <==> errors == map[])
        && loading == sent
        && requests == if sent then old(requests) + [fields] else old(requests)
    {
      if loading || !NativeChecksPass(fields) {
        sent := false;
      } else {
        sent := Submit();
      }
    }

    /** The rest of `handleSubmit`, once the request ends with `reply`. */
    method Respond(reply: Reply)
      modifies this`errors, this`loading, this`logins, this`errorDialogs, this`navigations
      ensures !loading
      ensures reply.Ok? ==>
        && logins == old(logins) + [reply.data]
        && errors == old(errors)
        && errorDialogs == old(errorDialogs)
        && navigations == old(navigations) + [DashboardRoute]
      ensures !reply.Ok? ==>
        && logins == old(logins)
        && errors == old(errors)[FormKey := FailureText(reply, RegistrationFailed)]
        && errorDialogs == old(errorDialogs) + [FailureText(reply, RegistrationFailed)]
        && navigations == old(navigations)
    {
      if reply.Ok? {
        logins := logins + [reply.data];
        navigations := navigations + [DashboardRoute];
      } else {
        var message := FailureText(reply, RegistrationFailed);
        errorDialogs := errorDialogs + [message];
        errors := errors[FormKey := message];
      }
      loading := false;
    }
  }
}
