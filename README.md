# Auth form controllers of the railway-system web client

This project models, in Dafny, the form-controller logic of the client's
authentication pages: company registration, company login, department-head
login and company verification. Each page keeps a map from field name to
value, a map from field name to error message (`""` or a missing key means
no error) and a `loading` flag. It changes them on three events:

- a keystroke (`handleChange`) overwrites one field and clears that field's
  error if one was set;
- submission (`handleSubmit`) validates the fields and replaces the error map
  with the fresh one. An invalid form sends nothing. A valid one sets
  `loading`, sends the fields exactly as typed, and then handles the reply.
  An OK reply hands `data.data` to the session store's `login` and schedules
  navigation to `/dashboard`. A failed reply shows the server's message or a
  fixed fallback. `loading` is cleared on every path;
- on the verification page, `handleVerify` refuses a blank ID, looks the ID
  up, and on success clears the error and forwards the untrimmed ID to the
  registration page. The registration page pre-fills its national ID from
  that navigation state.

Files:

- `text.dfy` (module `Text`): ECMAScript white space (the set that both
  `String.prototype.trim` and the regex class `\s` use), `trim`, and the
  falsiness test `!s.trim()` (`IsBlank`).
- `email_pattern.dfy` (module `EmailPattern`): `/\S+@\S+\.\S+/.test(s)` as
  "some substring has the shape". It is characterised both ways: any text
  around `x@y.z` matches, and every match splits that way.
- `native_validation.dfy` (module `NativeValidation`): the browser's own
  check of a form before `submit`, for `required` and `type="email"`. The
  email value is sanitized, and it must be a valid email address of the
  HTML Standard, `1*( atext / "." ) "@" label *( "." label )`.
  Sanitizing removes line breaks and then ASCII white space at both ends.
  That is narrower than `trim()`: a value of U+00A0 alone is blank to the
  page but not to the browser.
- `forms.dfy` (module `Forms`): the abstract server reply, the session
  payload, the navigation state, clearing an error on edit, and the failure
  text.
- `register_company.dfy`, `company_login.dfy`, `department_login.dfy`,
  `verify.dfy`: one module per page. Each has a pure `Validate` (where the
  page has one), lemmas about it, and a class whose fields are the page's
  state. The class also records what the page hands to the outside world:
  request bodies or looked-up IDs, `login` payloads, error-dialog texts and
  navigations.
- `scenarios.dfy` (module `Scenarios`): an ID verified with surrounding
  spaces reaches the registration form as typed.

`handleSubmit` and `handleVerify` are `async`. Each is modelled as two
methods. `Submit`/`HandleVerify` is the part before the request, which ends
with `loading` set. `Respond` is the part after it, which takes the reply as
a parameter. So the state while the request is pending can be observed. The
buttons are `disabled={loading}`. `PressSubmit` and `Click` model that: a
press while `loading` changes nothing. The registration and department forms
have no `novalidate`, so `PressSubmit` also runs the browser's check of the
inputs' `required` and `type="email"` attributes first. When that check
fails, `handleSubmit` never runs. The check and `validate` overlap, but
neither makes the other redundant. `required` lets white space alone
through, and `validate` refuses it. The browser accepts "a@b", and the
registration pattern refuses it. The department page's `validate` never
looks at the shape of the email, but the browser does. The company login
and verification pages declare no such constraints.

The registration `validate` inserts one key per rule, and each rule writes
only its own key. `RegisterCompany.Validate` therefore builds the same map as
a comprehension: each field maps to the message of its rule, if that rule
fails.

The model follows the code on points where the flow is easy to misread:

- A keystroke clears the field's error only when it is truthy. It clears it
  by setting it to `""`, not by removing the key.
- The company login page has only a "Forgot password?" link. There is no
  reset modal.
- A thrown error (network failure, unparsable body) is reported with the
  error's own message, not a generic text. The fallback text is used only
  for a not-OK reply without a message. On the verification page it is also
  used for a thrown error whose message is empty.
- During a pending verification the previous inline error stays shown. It is
  replaced only when the check ends.

## Model

| member | source | states |
|---|---|---|
| Text.Trim | src/pages/auth/RegisterCompany.jsx:58-64 | `trim()` returns the slice of the input left after removing white space at both ends. That slice neither starts nor ends with white space, and it is empty exactly when the input is all white space |
| Text.IsWhitespace | src/pages/auth/RegisterCompany.jsx:58-67 | the white space that `trim()` strips and that `\s` matches. Among ASCII characters it is exactly TAB, LF, VT, FF, CR and SPACE |
| Text.IsBlank | src/pages/auth/Company.jsx:33-35 | the "required" test `!s.trim()` fails exactly for strings made only of white space (the empty string included) |
| Text.BlankIffTrimEmpty | src/pages/auth/Department.jsx:33-34 | `IsBlank(s)` is exactly `s.trim() === ""` |
| EmailPattern.Matches | src/pages/auth/RegisterCompany.jsx:67 | `/\S+@\S+\.\S+/.test(s)`: some substring is a white-space-free run, '@', a run, '.', a run. A matching string has at least five characters, an '@' and a '.', so one without '@' is rejected |
| EmailPattern.MatchesAround | src/pages/auth/RegisterCompany.jsx:67 | the unanchored pattern accepts any text around `x@y.z` when x, y and z are non-empty and free of white space |
| EmailPattern.MatchSplits | src/pages/auth/RegisterCompany.jsx:67 | every accepted string is some text around such an `x@y.z` (the converse of MatchesAround) |
| EmailPattern.MatchIsNotBlank | src/pages/auth/RegisterCompany.jsx:65-69 | an accepted string is never blank, so the two email messages never compete: a blank email gets "Email is required" |
| NativeValidation.IsValidEmailAddress | src/pages/auth/RegisterCompany.jsx:239 | the HTML Standard's valid email address: a local part of atext and '.', the first '@', and a domain of '.'-separated labels. A valid address has at least three characters, an '@', and does not start with '@' |
| NativeValidation.StripLeadingAscii | src/pages/auth/RegisterCompany.jsx:239 | the result is a suffix of the value, all that was dropped is ASCII white space, and it does not start with ASCII white space |
| NativeValidation.StripTrailingAscii | src/pages/auth/RegisterCompany.jsx:239 | the result is a prefix of the value, all that was dropped is ASCII white space, and it does not end with ASCII white space |
| NativeValidation.SanitizedEmail | src/pages/auth/RegisterCompany.jsx:239 | the value an email input is checked on is the value without line breaks, trimmed of ASCII white space: a slice of it with only ASCII white space before and after, neither starting nor ending with ASCII white space |
| NativeValidation.StripsTrim | src/pages/auth/RegisterCompany.jsx:239 | stripping ASCII white space from the start and then the end leaves exactly the trimmed slice |
| NativeValidation.StripNewlinesAppend | src/pages/auth/RegisterCompany.jsx:239 | line breaks are removed piece by piece: stripping a concatenation concatenates the stripped pieces |
| NativeValidation.StripNewlinesOne | src/pages/auth/RegisterCompany.jsx:239 | a single character is removed exactly when it is CR or LF |
| NativeValidation.SanitizedFromValue | src/pages/auth/RegisterCompany.jsx:239 | every character the sanitization keeps comes from the value |
| NativeValidation.SanitizedAwayIsBrowserBlank | src/pages/auth/RegisterCompany.jsx:239 | a value sanitized to nothing holds only line breaks and ASCII white space |
| NativeValidation.BlankSanitizedAway | src/pages/auth/RegisterCompany.jsx:239 | a value of only line breaks and ASCII white space is sanitized to nothing (the converse of SanitizedAwayIsBrowserBlank) |
| NativeValidation.EmailInputAccepts | src/pages/auth/RegisterCompany.jsx:239-247 | the email input's check: a `required` input accepts only a value that is not blank to the browser and holds an '@'; any accepted value is blank to the browser or holds an '@'; an optional input accepts a value blank to the browser; and a valid address is accepted as typed |
| NativeValidation.AddressKept | src/pages/auth/RegisterCompany.jsx:239 | a valid email address holds nothing the sanitization removes, so it is kept unchanged |
| NativeValidation.CleanValueKept | src/pages/auth/RegisterCompany.jsx:239 | a value with no line break and no ASCII white space is kept unchanged |
| NativeValidation.NoAtRejected | src/pages/auth/Department.jsx:94 | a non-blank value without '@' is never accepted by an email input |
| NativeValidation.AcceptedEmailNotBlank | src/pages/auth/RegisterCompany.jsx:239-247 | a value a `required` email input accepts is never blank by the page's own test |
| NativeValidation.SanitizedAwayIsBlank | src/pages/auth/Department.jsx:94 | a value the email input sanitizes to nothing is blank by the page's own test |
| NativeValidation.AddressHasNoWhitespace | src/pages/auth/RegisterCompany.jsx:239 | a valid email address holds no white space |
| NativeValidation.OnlyOneAt | src/pages/auth/RegisterCompany.jsx:239 | a valid email address holds exactly one '@', the one that splits it |
| NativeValidation.DotlessAddressValid | src/pages/auth/RegisterCompany.jsx:239 | "a@b", whose domain has one label, is a valid email address |
| NativeValidation.AddressMatchesIffDotted | src/pages/auth/RegisterCompany.jsx:65-69 | a valid email address passes the registration pattern exactly when its domain has a '.' (both directions: DottedAddressMatches, MatchedAddressIsDotted) |
| NativeValidation.DottedAddressMatches | src/pages/auth/RegisterCompany.jsx:67 | a valid address whose domain has a '.' matches the pattern |
| NativeValidation.MatchedAddressIsDotted | src/pages/auth/RegisterCompany.jsx:67 | a valid address that matches the pattern has a '.' in its domain |
| Forms.ClearedError | src/pages/auth/RegisterCompany.jsx:50-52 | after an edit, the edited field has no error. Every other entry and the key set are unchanged. A map where that field had no truthy error is returned as is |
| Forms.FailureText | src/pages/auth/RegisterCompany.jsx:95-97 | a not-OK reply yields its non-empty `message`, otherwise the fallback, so it is never empty when the fallback is not. A thrown error yields its own message |
| RegisterCompany.InitialFields | src/pages/auth/RegisterCompany.jsx:21-29 | the form starts with exactly the seven fields, all empty |
| RegisterCompany.Validate | src/pages/auth/RegisterCompany.jsx:55-71 | each of nationalId, name, phone, location, fieldOfWork and password is reported, with its own message, exactly when it is blank. The email gets "Email is required" when blank, "Please enter a valid email address" when non-blank and not matching the pattern, and no error otherwise. No other key (no `form`) is ever reported |
| RegisterCompany.ValidIff | src/pages/auth/RegisterCompany.jsx:72-73 | the error map is empty exactly when every field is non-blank and the email matches the pattern |
| RegisterCompany.NativeChecksPass | src/pages/auth/RegisterCompany.jsx:152-267 | the browser's check of the form: when it passes, every field is non-empty and the email holds an '@' and is not blank to the browser. Every field non-empty with a valid address as the email passes it |
| RegisterCompany.NativeChecksLeaveEmailShape | src/pages/auth/RegisterCompany.jsx:139-267 | once the browser's check of the `required` inputs and the `type="email"` input has passed, `validate` never reports the email as missing: it reports it exactly when the pattern rejects it, as "Please enter a valid email address" |
| RegisterCompany.InitialFormBlocked | src/pages/auth/RegisterCompany.jsx:139-267 | the form as first rendered fails the browser's check, so pressing the button leaves the errors as they are |
| RegisterCompany.BlankNameReachesValidate | src/pages/auth/RegisterCompany.jsx:60 | a company name of white space alone passes `required` and is refused by `validate` with "Company name is required", the only error when every other field is filled in and the address is dotted |
| RegisterCompany.OnlyBlankNameReported | src/pages/auth/RegisterCompany.jsx:55-71 | with only the name blank and an email the pattern accepts, `validate` reports exactly the name |
| RegisterCompany.DotlessEmailReachesValidate | src/pages/auth/RegisterCompany.jsx:65-69 | an address with a one-label domain such as "a@b" passes the browser's check and is refused by `validate` with "Please enter a valid email address", the only error when the other fields are filled in |
| RegisterCompany.OnlyEmailShapeReported | src/pages/auth/RegisterCompany.jsx:55-71 | with every other field filled in and a non-blank email the pattern rejects, `validate` reports exactly the email's shape |
| RegisterCompany.Prefilled | src/pages/auth/RegisterCompany.jsx:34-41 | a truthy `location.state.nationalId` replaces the national ID. Every other field is unchanged, and without such a state the form is unchanged |
| RegisterCompany.VerifiedIdPrefills | src/pages/auth/Verify.jsx:42 | an ID the verification page accepted (never blank) lands in the registration form unchanged, untrimmed |
| RegisterCompany.RegisterCompanyForm.constructor | src/pages/auth/RegisterCompany.jsx:21-32 | initial state: empty fields, no errors, not loading, nothing sent |
| RegisterCompany.RegisterCompanyForm.ApplyRouteState | src/pages/auth/RegisterCompany.jsx:34-41 | the effect sets the fields to `Prefilled` of the old fields |
| RegisterCompany.RegisterCompanyForm.HandleChange | src/pages/auth/RegisterCompany.jsx:43-53 | the named field gets the value and every other field is kept. The errors become `ClearedError` of the old errors |
| RegisterCompany.RegisterCompanyForm.Submit | src/pages/auth/RegisterCompany.jsx:76-91 | the errors are replaced by `Validate(fields)`. A request is sent iff that map is empty, and then `loading` is set and the body is the fields as typed. Otherwise `loading` and the requests are unchanged |
| RegisterCompany.RegisterCompanyForm.PressSubmit | src/pages/auth/RegisterCompany.jsx:139-278 | while `loading`, or while the browser's check of the `required` and `type="email"` inputs fails, the button changes nothing. Otherwise it behaves as `Submit` |
| RegisterCompany.RegisterCompanyForm.Respond | src/pages/auth/RegisterCompany.jsx:93-121 | OK: `login` receives `data.data`, `/dashboard` is scheduled and the errors are unchanged. Failure: no `login`, the text is `FailureText(reply, "Registration failed")`, it is shown and stored under `form`, and the other entries are kept. `loading` is false afterwards on every path |
| CompanyLogin.Validate | src/pages/auth/Company.jsx:31-35 | "National ID is required" exactly when the national ID is blank, and "Password is required" exactly when the password is blank. Nothing else is reported |
| CompanyLogin.ValidIff | src/pages/auth/Company.jsx:36-37 | the error map is empty exactly when neither field is blank |
| CompanyLogin.CompanyLoginForm.constructor | src/pages/auth/Company.jsx:11-17 | initial state: both fields empty, no errors, not loading |
| CompanyLogin.CompanyLoginForm.HandleChange | src/pages/auth/Company.jsx:19-29 | the named field gets the value and every other field is kept. The errors become `ClearedError` of the old errors |
| CompanyLogin.CompanyLoginForm.Submit | src/pages/auth/Company.jsx:40-57 | the errors are replaced by `Validate(fields)`. A request is sent iff that map is empty, with `loading` set and the fields as typed (untrimmed) as its body |
| CompanyLogin.CompanyLoginForm.PressSubmit | src/pages/auth/Company.jsx:141-143 | while `loading` the button does nothing. Otherwise it behaves as `Submit` |
| CompanyLogin.CompanyLoginForm.Respond | src/pages/auth/Company.jsx:59-87 | OK: `login` receives `data.data` and `/dashboard` is scheduled. Failure: no `login`, and the dialog text is the server's message or "Login failed". `loading` is false afterwards on every path |
| DepartmentLogin.Validate | src/pages/auth/Department.jsx:31-34 | "Email is required" exactly when the email is blank, and "Password is required" exactly when the password is blank. Nothing else is reported |
| DepartmentLogin.ValidIff | src/pages/auth/Department.jsx:35-36 | the error map is empty exactly when neither field is blank |
| DepartmentLogin.NativeEmailCheckPasses | src/pages/auth/Department.jsx:94 | the browser's check of the login form, on the email alone: an email blank to the browser or a valid address passes, and any email that passes is blank to the browser or holds an '@' |
| DepartmentLogin.EmailShapeNotChecked | src/pages/auth/Department.jsx:33 | `validate` does not check the email's shape: a non-blank email without '@' such as "abc", which the pattern rejects, passes it. The browser's `type="email"` check stops it |
| DepartmentLogin.EmptyFormReachesValidate | src/pages/auth/Department.jsx:90-118 | the empty form passes the browser's check, as neither input is `required`, and `validate` reports both fields |
| DepartmentLogin.SentEmailIsAddress | src/pages/auth/Department.jsx:31-42 | every email the page sends is a valid email address once sanitized: the browser stops the malformed ones and `validate` the blank ones |
| DepartmentLogin.DepartmentLoginForm.constructor | src/pages/auth/Department.jsx:11-17 | initial state: both fields empty, no errors, not loading |
| DepartmentLogin.DepartmentLoginForm.HandleChange | src/pages/auth/Department.jsx:19-29 | the named field gets the value and every other field is kept. The errors become `ClearedError` of the old errors |
| DepartmentLogin.DepartmentLoginForm.Submit | src/pages/auth/Department.jsx:39-54 | the errors are replaced by `Validate(fields)`. A request is sent iff that map is empty, with `loading` set and the fields as typed as its body |
| DepartmentLogin.DepartmentLoginForm.PressSubmit | src/pages/auth/Department.jsx:90-127 | while `loading`, or while the browser's check of the `type="email"` input fails, the button changes nothing. Otherwise it behaves as `Submit` |
| DepartmentLogin.DepartmentLoginForm.Respond | src/pages/auth/Department.jsx:56-81 | OK: `login` receives `data.data` and `/dashboard` is scheduled. Failure: no `login`, and the dialog text is the server's message or "Login failed". `loading` is false afterwards on every path |
| Verify.CheckError | src/pages/auth/Verify.jsx:23-45 | the inline error of a failed check is never empty. A not-OK reply gives exactly "Company not found or invalid ID". A thrown error gives its own message when that is non-empty, and exactly "Company not found or invalid ID" when it is empty |
| Verify.VerifyPage.constructor | src/pages/auth/Verify.jsx:6-8 | initial state: empty ID, no error, not loading |
| Verify.VerifyPage.SetNationalId | src/pages/auth/Verify.jsx:69 | the input replaces the ID |
| Verify.VerifyPage.HandleVerify | src/pages/auth/Verify.jsx:11-21 | a blank ID sets "Please enter a National ID" and changes nothing else: no lookup, `loading` unchanged. Otherwise `loading` is set and the untrimmed ID is looked up and remembered for the reply |
| Verify.VerifyPage.Click | src/pages/auth/Verify.jsx:73-75 | while `loading` a click changes nothing, so no second check can start during a pending one. Otherwise it behaves as `HandleVerify` |
| Verify.VerifyPage.Respond | src/pages/auth/Verify.jsx:23-48 | Found: the error becomes "" and navigation to `/register/company` is scheduled with the same untrimmed, non-blank ID that was looked up. Otherwise the error becomes `CheckError(reply)` and there is no navigation. `loading` is false afterwards on every path |

## Left out

- Network I/O: the `fetch` calls, their fixed endpoint URLs, the headers and
  JSON encoding and parsing. The reply is an abstract parameter: `Reply` for
  the forms, `CheckReply` for verification. A request is recorded as the
  field map it would encode, or as the ID placed in the lookup path.
- Success dialogs (`Swal.fire` with `data.message`) are not modelled. Error
  dialogs are recorded only by their text, in `errorDialogs`.
- The 2000 ms `setTimeout` before `navigate`: a navigation is recorded when it
  is scheduled, not when the timer fires.
- The session store's `login` is a recorder of the payloads it receives. Its
  own behaviour (context and local storage) is not part of this model.
- Rendering, CSS, spinners and conditional border colours.
- src/pages/auth/Student.jsx, src/components/home/Hero.jsx and the two
  dashboards. They hold no validation or state logic beyond markup and one
  request without checks.
- Async interleaving and replies that arrive after the page is unmounted.
  The forms' `Respond` can be applied in any state.
- Verify.VerifyPage.Respond: requires a pending check (`loading`). With the
  disabled button there is at most one pending check, and only its
  continuation runs.
- JavaScript strings are UTF-16 code units. Here they are sequences of Unicode
  scalar values. Every white-space character lies in the Basic Multilingual
  Plane, so trimming and the pattern agree on both.
- A non-string `message` in a reply body (a number, say) is not modelled.
  `message` is an optional string, and an absent or empty one is falsy.
- The browser's check covers only what the markup declares (`required`, and
  `type="email"` without `multiple`) and only its outcome. The bubble the
  browser shows and the focus it moves are not modelled.
- NativeValidation.IsValidEmailAddress follows the HTML Standard's grammar.
  It does not model the conversion of non-ASCII domain names to punycode
  that browsers apply first, or other browser-specific deviations.
- Text, tel and password inputs strip line breaks from their values, and a
  typed value holds none. The model takes the page's state as the input's
  value. For the email input it applies the sanitization inside the check,
  which gives the same verdict whether or not the browser has already
  sanitized the state.
