/** The request helpers on the inputs the integration tests send
    (test/profile.test.js, test/user.test.js): what the helpers return is
    what those tests expect to see in the response. Each body is described
    by the fields the test sets; any other field plays no part. */
module Scenarios {
  import opened Wrappers
  import opened Strings
  import opened Envelopes
  import opened Tokens
  import opened Rules

  /** Three errors are answered with their three messages, in order. */
  lemma ThreeMessages(es: seq<ValidationError>)
    requires |es| == 3
    ensures Messages(FromArray(es)) == [es[0].msg, es[1].msg, es[2].msg]
  {
    FromArrayMessages(es);
  }

  /** Junk after `Bearer ` is still extracted as a token; rejecting it is
      left to the signature check, which answers 401. */
  lemma BrokenTokenExtracted(headers: Headers)
    requires "authorization" in headers && headers["authorization"] == "Bearer broken_t0k3n"
    ensures TokenFromReq(headers) == Some("broken_t0k3n")
  {
    BearerToken(headers, "broken_t0k3n");
  }

  /** A blank name, with no website, is answered with exactly one error,
      "Name must exist.". */
  lemma BlankNameResponse(body: Body, isURL: string -> bool)
    requires "name" in body && body["name"] == "" && "website" !in body
    ensures FromArray(ValidateProfile(body, isURL).errors) == Individual(NameMissingMessage)
  {
    ProfileErrors(body, isURL);
    IndividualIsSingletonArray("name", NameMissingMessage);
  }

  /** A present name with a website that is not a URL is answered with
      exactly "Website must be a valid URL.". */
  lemma BadWebsiteResponse(body: Body, isURL: string -> bool)
    requires "name" in body && body["name"] == "Godric Gryffindor"
    requires "website" in body && body["website"] == "not_a_w3b5ite" && !isURL("not_a_w3b5ite")
    ensures FromArray(ValidateProfile(body, isURL).errors) == Individual(WebsiteMessage)
  {
    TrimUnchanged("Godric Gryffindor");
    TrimUnchanged("not_a_w3b5ite");
    ProfileErrors(body, isURL);
    IndividualIsSingletonArray("website", WebsiteMessage);
  }

  /** An `about` sent empty, or not sent at all, is passed on as `""`. */
  lemma BlankAboutPassedOn(body: Body, isURL: string -> bool)
    requires "about" !in body || body["about"] == ""
    ensures ValidateProfile(body, isURL).body["about"] == ""
  {
    ProfileSanitized(body, isURL);
  }

  /** A bad email, a five-character password and a confirmation that
      differs are answered with the three messages in declaration order. */
  lemma SignupAllInvalidResponse(body: Body, isEmail: string -> bool)
    requires "email" in body && body["email"] == "notAnEmail_Address" && !isEmail("notAnEmail_Address")
    requires "password" in body && body["password"] == "12345"
    requires "confirmPassword" in body && body["confirmPassword"] == "123456"
    ensures Messages(FromArray(ValidateUser(body, isEmail).errors))
         == [SignupEmailMessage, SignupPasswordMessage, SignupConfirmMessage]
  {
    TrimUnchanged("notAnEmail_Address");
    TrimUnchanged("12345");
    UserAllRejected(body, isEmail);
    ThreeMessages(ValidateUser(body, isEmail).errors);
  }

  /** Only the confirmation failing gives exactly "Passwords must match.". */
  lemma SignupBadConfirmResponse(body: Body, isEmail: string -> bool)
    requires "email" in body && body["email"] == "c@b.com" && isEmail("c@b.com")
    requires "password" in body && body["password"] == "123456"
    requires "confirmPassword" in body && body["confirmPassword"] == "12345"
    ensures FromArray(ValidateUser(body, isEmail).errors) == Individual(SignupConfirmMessage)
  {
    TrimUnchanged("c@b.com");
    TrimUnchanged("123456");
    UserErrors(body, isEmail);
    IndividualIsSingletonArray("confirmPassword", SignupConfirmMessage);
  }

  /** An account update with a bad new email, a five-character new password
      and a confirmation that differs is answered with the three messages in
      declaration order. */
  lemma UpdateAllInvalidResponse(body: Body, isEmail: string -> bool)
    requires "newEmail" in body && body["newEmail"] == "notAnEmail_Address" && !isEmail("notAnEmail_Address")
    requires "newPassword" in body && body["newPassword"] == "12345"
    requires "newPasswordConfirm" in body && body["newPasswordConfirm"] == "1234567"
    ensures Messages(FromArray(ValidateUpdate(body, isEmail).errors))
         == [UpdateEmailMessage, UpdatePasswordMessage, UpdateConfirmMessage]
  {
    TrimUnchanged("notAnEmail_Address");
    TrimUnchanged("12345");
    UpdateAllRejected(body, isEmail);
    ThreeMessages(ValidateUpdate(body, isEmail).errors);
  }
}
