/**
 * A journey across two pages: an ID checked on the verification page
 * arrives in the registration form through the navigation state.
 */
module Scenarios {
  import Verify
  import RegisterCompany

  /** A verified ID, typed with surrounding spaces, arrives in the
      registration form exactly as typed. */
  method VerifiedIdArrivesUntrimmed() {
    var check := new Verify.VerifyPage();
    check.SetNationalId(" 42 ");
    var started := check.Click();
    assert started;
    check.Respond(Verify.Found);
    assert |check.navigations| == 1;
    var navigation := check.navigations[0];
    assert navigation.path == "/register/company";
    var form := new RegisterCompany.RegisterCompanyForm();
    form.ApplyRouteState(navigation.state);
    assert form.fields["nationalId"] == " 42 ";
    assert form.fields["email"] == "";
  }
}
