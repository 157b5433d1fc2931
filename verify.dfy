/**
 * The company verification page: one national-ID field, an inline error
 * string and a `loading` flag. `handleVerify` refuses a blank ID, otherwise
 * looks the ID up; a lookup that is not OK shows a fixed error, a
 * successful one clears the error and forwards the ID, untrimmed, to the
 * registration page.
 */
module Verify {
  import opened Text
  import opened Forms

  const EnterIdMessage := "Please enter a National ID"
  const NotFoundMessage := "Company not found or invalid ID"
  const RegisterRoute := "/register/company"

  /** How the existence check ends:
      - Found: `response.ok` and its body parsed;
      - NotFound: not `response.ok`;
      - Failed: `fetch` or `response.json()` threw, with the error's message. */
  datatype CheckReply = Found | NotFound | Failed(reason: string)

  /** A `navigate(path, { state })` call. */
  datatype Navigation = Navigation(path: string, state: RouteState)

  /** The inline error a failed check leaves: `err.message || fallback`,
      where a not-OK response throws the fallback text itself. */
  function CheckError(reply: CheckReply): (error: string)
    requires !reply.Found?
    ensures error != ""
    ensures reply.NotFound? ==> error == "Company not found or invalid ID"
    ensures reply.Failed? && reply.reason != "" ==> error == reply.reason
    ensures reply.Failed? && reply.reason == "" ==> error == "Company not found or invalid ID"
  {
    match reply
    case NotFound => NotFoundMessage
    case Failed(reason) => if reason != "" then reason else NotFoundMessage
  }

  class VerifyPage {
    var nationalId: string
    var error: string
    var loading: bool
    /** The ID the pending check was started with (the handler's closure). */
    var inFlight: string
    /** IDs looked up, in order, as interpolated into the lookup URL. */
    var lookups: seq<string>
    var navigations: seq<Navigation>

    ghost predicate Valid()
      reads this
    {
      loading ==> !IsBlank(inFlight)
    }

    constructor ()
      ensures Valid()
      ensures nationalId == "" && error == "" && !loading
      ensures lookups == [] && navigations == []
    {
      nationalId, error, loading, inFlight := "", "", false, "";
      lookups, navigations := [], [];
    }

    /** The input's `onChange`. */
    method SetNationalId(value: string)
      requires Valid()
      modifies this`nationalId
      ensures Valid()
      ensures nationalId == value
    {
      nationalId := value;
    }

    /** The synchronous part of `handleVerify`: the blank-ID guard, then
        `loading` and the lookup of the ID exactly as typed. */
    method HandleVerify() returns (started: bool)
      requires Valid()
      modifies this`error, this`loading, this`inFlight, this`lookups
      ensures Valid()
      ensures started <==> !IsBlank(nationalId)
      ensures !started ==>
        && error == EnterIdMessage
        && loading == old(loading) && inFlight == old(inFlight) && lookups == old(lookups)
      ensures started ==>
        && error == old(error)
        && loading && inFlight == nationalId && lookups == old(lookups) + [nationalId]
    {
      if IsBlank(nationalId) {
        error := EnterIdMessage;
        return false;
      }
      loading := true;
      inFlight := nationalId;
      lookups := lookups + [nationalId];
      started := true;
    }

    /** The Verify button, disabled while `loading`: a click during a
        pending check changes nothing. */
    method Click() returns (started: bool)
      requires Valid()
      modifies this`error, this`loading, this`inFlight, this`lookups
      ensures Valid()
      ensures old(loading) ==>
        && !started && error == old(error) && loading
        && inFlight == old(inFlight) && lookups == old(lookups)
      ensures !old(loading) ==>
        && (started <==> !IsBlank(nationalId))
        && (!started ==> error == EnterIdMessage && !loading && lookups == old(lookups))
        && (started ==> error == old(error) && loading && inFlight == nationalId
                        && lookups == old(lookups) + [nationalId])
    {
      if loading {
        started := false;
      } else {
        started := HandleVerify();
      }
    }

    /** The rest of `handleVerify`, once the pending check ends. */
    method Respond(reply: CheckReply)
      requires Valid() && loading
      modifies this`error, this`loading, this`navigations
      ensures Valid()
      ensures !loading
      ensures reply.Found? ==>
        && error == ""
        && navigations == old(navigations) + [Navigation(RegisterRoute, State(Some(inFlight)))]
        && !IsBlank(inFlight)
      ensures !reply.Found? ==>
        error == CheckError(reply) && navigations == old(navigations)
    {
      if reply.Found? {
        error := "";
        navigations := navigations + [Navigation(RegisterRoute, State(Some(inFlight)))];
      } else {
        error := CheckError(reply);
      }
      loading := false;
    }
  }

  /** An unknown company: "123" is looked up, the server answers not OK,
      and the page shows the fixed error without navigating. */
  method UnknownCompany() {
    var page := new VerifyPage();
    page.SetNationalId("123");
    var started := page.Click();
    assert started && page.lookups == ["123"];
    page.Respond(NotFound);
    assert page.error == "Company not found or invalid ID";
    assert page.navigations == [] && !page.loading;
  }
}
