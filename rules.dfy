/** The express-validator rule sets of controllers/internalFunctions.js:
    `trimFields`, `validateProfile`, `validateUpdate` and `validateUser`.

    Each `body(field)` chain runs in declaration order against the request
    body. A sanitizer (`trim()`) writes its result back into the body, so
    later chains see the trimmed value; a field that is absent is read as
    `""`, which is what `trim()` then writes back, unless the chain is
    `optional`, in which case none of its steps runs on a falsy value. A
    validator that fails
    records one error for its field, with the message its `withMessage`
    gave it or "Invalid value" when it has none. `isEmail` and `isURL`
    belong to the validator library and are taken as parameters. */
module Rules {
  import opened Wrappers
  import opened Strings
  import opened Envelopes

  /** The form fields of a request body (`express.urlencoded` gives strings). */
  type Body = map<string, string>

  /** The request as the chains see it: its body, sanitized so far, and the
      validation errors gathered so far (what `validationResult` returns). */
  datatype Req = Req(body: Body, errors: seq<ValidationError>)

  /** express-validator's message for a validator without `withMessage`. */
  const DefaultMessage := "Invalid value"

  /** The string a standard validator or sanitizer works on: absent reads as `""`. */
  function ValueOf(body: Body, field: string): string {
    if field in body then body[field] else ""
  }

  /** JavaScript truthiness of a string. */
  predicate Truthy(s: string) {
    s != ""
  }

  /** validator.js `isLength(s, { min, max })`. */
  predicate LengthWithin(s: string, min: nat, max: nat) {
    min <= |s| <= max
  }

  /** The error `e`, recorded when `failed`. */
  function When(failed: bool, e: ValidationError): seq<ValidationError> {
    if failed then [e] else []
  }

  // ---------------------------------------------------------------------
  // The chain kinds the rule sets are built from.

  /** `body(field).trim()`. */
  function TrimChain(req: Req, field: string): Req {
    Req(req.body[field := Trim(ValueOf(req.body, field))], req.errors)
  }

  /** `body(field).trim().isEmail().withMessage(msg)`. */
  function EmailChain(req: Req, field: string, isEmail: string -> bool, msg: string): Req {
    var r := TrimChain(req, field);
    Req(r.body, r.errors + When(!isEmail(r.body[field]), ValidationError(field, msg)))
  }

  /** `body(field).trim().isLength({ min, max }).withMessage(msg)`. */
  function LengthChain(req: Req, field: string, min: nat, max: nat, msg: string): Req {
    var r := TrimChain(req, field);
    Req(r.body, r.errors + When(!LengthWithin(r.body[field], min, max), ValidationError(field, msg)))
  }

  /** `body(field).exists().custom(v => v === req.body[other]).withMessage(msg).trim()`:
      `exists()` fails on an absent field with the default message; the
      custom check compares the value as submitted with the current value
      of `other`; only then is the field trimmed. */
  function ConfirmChain(req: Req, field: string, other: string, msg: string): Req {
    var value := Lookup(req.body, field);
    var existsErrors := When(value.None?, ValidationError(field, DefaultMessage));
    var matchErrors := When(value != Lookup(req.body, other), ValidationError(field, msg));
    TrimChain(Req(req.body, req.errors + existsErrors + matchErrors), field)
  }

  /** The confirmation chain as evidently intended: the same `exists()`
      check, but the submitted value is trimmed before it is compared, as
      `other` was by its own chain. */
  function ConfirmTrimmedChain(req: Req, field: string, other: string, msg: string): Req {
    var value := Lookup(req.body, field);
    var existsErrors := When(value.None?, ValidationError(field, DefaultMessage));
    var matchErrors :=
      When(value.None? || Some(Trim(value.value)) != Lookup(req.body, other), ValidationError(field, msg));
    TrimChain(Req(req.body, req.errors + existsErrors + matchErrors), field)
  }

  /** `body(field).trim().exists({ checkFalsy: true }).withMessage(missing)
      .bail().notEmpty().withMessage(blank)`. */
  function RequiredChain(req: Req, field: string, missing: string, blank: string): Req {
    var r := TrimChain(req, field);
    var value := r.body[field];
    var errors :=
      if !Truthy(value) then [ValidationError(field, missing)]   // bail(): the chain stops here
      else When(value == "", ValidationError(field, blank));
    Req(r.body, r.errors + errors)
  }

  /** `body(field).trim().optional({ checkFalsy: true }).isURL().withMessage(msg)`:
      `optional` belongs to the whole chain, so each of its steps runs only
      on a truthy value. An absent or empty field is neither trimmed nor
      checked and stays as it was; a value that `trim()` empties skips
      `isURL`. */
  function OptionalUrlChain(req: Req, field: string, isURL: string -> bool, msg: string): Req {
    if !Truthy(ValueOf(req.body, field)) then req
    else
      var r := TrimChain(req, field);
      var value := r.body[field];
      Req(r.body, r.errors + When(Truthy(value) && !isURL(value), ValidationError(field, msg)))
  }

  // ---------------------------------------------------------------------
  // The rule sets.

  const NameMissingMessage := "Name must exist."
  const NameBlankMessage := "Name must not be blank."
  const WebsiteMessage := "Website must be a valid URL."
  const SignupEmailMessage := "Must be a valid email address."
  const SignupPasswordMessage := "Password must be between 6 and 16 characters."
  const SignupConfirmMessage := "Passwords must match."
  const UpdateEmailMessage := "Your new email must be a valid email address."
  const UpdatePasswordMessage := "Your new password must be between 6 and 16 characters."
  const UpdateConfirmMessage := "Password confirmation must match."

  /** `trimFields`. */
  function TrimFields(body: Body): (r: Req)
    ensures r.errors == [] && "email" in r.body && "password" in r.body
  {
    TrimChain(TrimChain(Req(body, []), "email"), "password")
  }

  /** `validateProfile`. */
  function ValidateProfile(body: Body, isURL: string -> bool): (r: Req)
    ensures |r.errors| <= 2
  {
    var r1 := RequiredChain(Req(body, []), "name", NameMissingMessage, NameBlankMessage);
    var r2 := TrimChain(r1, "about");
    OptionalUrlChain(r2, "website", isURL, WebsiteMessage)
  }

  /** `validateUpdate`. */
  function ValidateUpdate(body: Body, isEmail: string -> bool): (r: Req)
    ensures |r.errors| <= 4
  {
    var r1 := TrimChain(Req(body, []), "currentPassword");
    var r2 := EmailChain(r1, "newEmail", isEmail, UpdateEmailMessage);
    var r3 := LengthChain(r2, "newPassword", 6, 16, UpdatePasswordMessage);
    ConfirmChain(r3, "newPasswordConfirm", "newPassword", UpdateConfirmMessage)
  }

  /** `validateUser`. */
  function ValidateUser(body: Body, isEmail: string -> bool): (r: Req)
    ensures |r.errors| <= 4
  {
    var r1 := EmailChain(Req(body, []), "email", isEmail, SignupEmailMessage);
    var r2 := LengthChain(r1, "password", 6, 16, SignupPasswordMessage);
    ConfirmChain(r2, "confirmPassword", "password", SignupConfirmMessage)
  }

  /** `validateUpdate` with the confirmation compared after trimming. */
  function ValidateUpdateCorrected(body: Body, isEmail: string -> bool): (r: Req)
    ensures |r.errors| <= 4
  {
    var r1 := TrimChain(Req(body, []), "currentPassword");
    var r2 := EmailChain(r1, "newEmail", isEmail, UpdateEmailMessage);
    var r3 := LengthChain(r2, "newPassword", 6, 16, UpdatePasswordMessage);
    ConfirmTrimmedChain(r3, "newPasswordConfirm", "newPassword", UpdateConfirmMessage)
  }

  /** `validateUser` with the confirmation compared after trimming. */
  function ValidateUserCorrected(body: Body, isEmail: string -> bool): (r: Req)
    ensures |r.errors| <= 4
  {
    var r1 := EmailChain(Req(body, []), "email", isEmail, SignupEmailMessage);
    var r2 := LengthChain(r1, "password", 6, 16, SignupPasswordMessage);
    ConfirmTrimmedChain(r2, "confirmPassword", "password", SignupConfirmMessage)
  }

  // ---------------------------------------------------------------------
  // trimFields

  /** `trimFields` reports nothing, trims `email` and `password` (absent ones
      become `""`), leaves every other field as it was, and changes nothing
      when applied a second time. */
  lemma TrimFieldsEffect(body: Body)
    ensures var out := TrimFields(body);
      && out.errors == []
      && out.body.Keys == body.Keys + {"email", "password"}
      && out.body["email"] == Trim(ValueOf(body, "email"))
      && out.body["password"] == Trim(ValueOf(body, "password"))
      && (forall k :: k in body && k != "email" && k != "password" ==> out.body[k] == body[k])
      && TrimFields(out.body) == out
  {
    var out := TrimFields(body);
    TrimIdempotent(ValueOf(body, "email"));
    TrimIdempotent(ValueOf(body, "password"));
    assert ValueOf(out.body, "email") == Trim(ValueOf(body, "email"));
    assert ValueOf(out.body, "password") == Trim(ValueOf(body, "password"));
    assert out.body["email" := Trim(ValueOf(out.body, "email"))] == out.body;
  }

  // ---------------------------------------------------------------------
  // validateProfile

  /** The profile rules report, in this order: "Name must exist." when the
      trimmed name is empty (absent, empty or blank), and "Website must be
      a valid URL." when the trimmed website is non-empty and not a URL;
      nothing else. In particular a missing name gets exactly one error. */
  lemma ProfileErrors(body: Body, isURL: string -> bool)
    ensures var name := Trim(ValueOf(body, "name"));
      var website := Trim(ValueOf(body, "website"));
      ValidateProfile(body, isURL).errors
      == When(name == "", ValidationError("name", NameMissingMessage))
       + When(website != "" && !isURL(website), ValidationError("website", WebsiteMessage))
  {
    var r1 := RequiredChain(Req(body, []), "name", NameMissingMessage, NameBlankMessage);
    var r2 := TrimChain(r1, "about");
    assert ValueOf(r2.body, "website") == ValueOf(body, "website");
  }

  /** "Name must not be blank." is never reported: `bail()` stops the chain
      whenever the check before it fails, and that check fails on exactly
      the names the blank check would. */
  lemma ProfileBlankMessageUnreachable(body: Body, isURL: string -> bool)
    ensures forall e :: e in ValidateProfile(body, isURL).errors ==> e.msg != NameBlankMessage
  {
    ProfileErrors(body, isURL);
  }

  /** A profile body passes exactly when its trimmed name is non-empty and
      its trimmed website is empty or a URL. */
  lemma ProfileAccepted(body: Body, isURL: string -> bool)
    ensures var name := Trim(ValueOf(body, "name"));
      var website := Trim(ValueOf(body, "website"));
      ValidateProfile(body, isURL).errors == [] <==> name != "" && (website == "" || isURL(website))
  {
    ProfileErrors(body, isURL);
  }

  /** The profile rules leave `name` and `about` trimmed (absent ones as
      `""`), trim `website` only when it was sent, and keep every other
      field as it was. */
  lemma ProfileSanitized(body: Body, isURL: string -> bool)
    ensures var out := ValidateProfile(body, isURL).body;
      && out.Keys == body.Keys + {"name", "about"}
      && out["name"] == Trim(ValueOf(body, "name"))
      && out["about"] == Trim(ValueOf(body, "about"))
      && ("website" in body ==> out["website"] == Trim(body["website"]))
      && forall k :: k in body && k != "name" && k != "about" && k != "website" ==> out[k] == body[k]
  {
    var r1 := RequiredChain(Req(body, []), "name", NameMissingMessage, NameBlankMessage);
    assert r1.body == body["name" := Trim(ValueOf(body, "name"))];
    var r2 := TrimChain(r1, "about");
    assert r2.body == r1.body["about" := Trim(ValueOf(body, "about"))];
    assert ValueOf(r2.body, "website") == ValueOf(body, "website");
  }

  // ---------------------------------------------------------------------
  // validateUser

  /** The signup rules report, in this order: the email error when the
      trimmed email is not an email; the password error when the trimmed
      password is not 6 to 16 characters long; the default error when the
      confirmation is absent; and "Passwords must match." when the
      confirmation, AS SUBMITTED, differs from the trimmed password. */
  lemma UserErrors(body: Body, isEmail: string -> bool)
    ensures var email := Trim(ValueOf(body, "email"));
      var password := Trim(ValueOf(body, "password"));
      ValidateUser(body, isEmail).errors
      == When(!isEmail(email), ValidationError("email", SignupEmailMessage))
       + When(!LengthWithin(password, 6, 16), ValidationError("password", SignupPasswordMessage))
       + When("confirmPassword" !in body, ValidationError("confirmPassword", DefaultMessage))
       + When(Lookup(body, "confirmPassword") != Some(password), ValidationError("confirmPassword", SignupConfirmMessage))
  {
    var email := Trim(ValueOf(body, "email"));
    var password := Trim(ValueOf(body, "password"));
    var r1 := EmailChain(Req(body, []), "email", isEmail, SignupEmailMessage);
    var w1 := When(!isEmail(email), ValidationError("email", SignupEmailMessage));
    assert r1.errors == w1;
    assert ValueOf(r1.body, "password") == ValueOf(body, "password");
    var r2 := LengthChain(r1, "password", 6, 16, SignupPasswordMessage);
    assert r2.errors == w1 + When(!LengthWithin(password, 6, 16), ValidationError("password", SignupPasswordMessage));
    assert Lookup(r2.body, "confirmPassword") == Lookup(body, "confirmPassword");
    assert Lookup(r2.body, "password") == Some(password);
  }

  /** When the trimmed email is not an email, the trimmed password is too
      short or too long and the confirmation is present but differs from
      it, exactly those three errors are reported, in that order. */
  lemma UserAllRejected(body: Body, isEmail: string -> bool)
    requires !isEmail(Trim(ValueOf(body, "email")))
    requires !LengthWithin(Trim(ValueOf(body, "password")), 6, 16)
    requires "confirmPassword" in body && body["confirmPassword"] != Trim(ValueOf(body, "password"))
    ensures ValidateUser(body, isEmail).errors
         == [ValidationError("email", SignupEmailMessage),
             ValidationError("password", SignupPasswordMessage),
             ValidationError("confirmPassword", SignupConfirmMessage)]
  {
    UserErrors(body, isEmail);
  }

  /** The password is rejected exactly when its trimmed length is outside
      6..16, and the confirmation is reported as not matching exactly when
      it is absent or differs from the trimmed password. */
  lemma UserPasswordRules(body: Body, isEmail: string -> bool)
    ensures var es := ValidateUser(body, isEmail).errors;
      var password := Trim(ValueOf(body, "password"));
      && (ValidationError("password", SignupPasswordMessage) in es <==> !(6 <= |password| <= 16))
      && (ValidationError("confirmPassword", SignupConfirmMessage) in es
          <==> "confirmPassword" !in body || body["confirmPassword"] != password)
  {
    UserErrors(body, isEmail);
  }

  /** The signup rules leave `email`, `password` and `confirmPassword`
      trimmed (absent ones as `""`) and every other field as it was. */
  lemma UserSanitized(body: Body, isEmail: string -> bool)
    ensures var out := ValidateUser(body, isEmail).body;
      && out.Keys == body.Keys + {"email", "password", "confirmPassword"}
      && out["email"] == Trim(ValueOf(body, "email"))
      && out["password"] == Trim(ValueOf(body, "password"))
      && out["confirmPassword"] == Trim(ValueOf(body, "confirmPassword"))
      && forall k :: k in body && k != "email" && k != "password" && k != "confirmPassword" ==> out[k] == body[k]
  {
    var r1 := EmailChain(Req(body, []), "email", isEmail, SignupEmailMessage);
    assert r1.body == body["email" := Trim(ValueOf(body, "email"))];
    var r2 := LengthChain(r1, "password", 6, 16, SignupPasswordMessage);
    assert r2.body == r1.body["password" := Trim(ValueOf(body, "password"))];
  }

  /** As written, a password and a confirmation typed identically with a
      trailing space (`"123456 "` in both fields, say) are reported as not
      matching: the password chain has already trimmed `password` when the
      untrimmed confirmation is compared with it. */
  lemma SignupTrailingSpaceRejected(body: Body, isEmail: string -> bool, typed: string)
    requires typed != [] && !IsWhitespace(typed[0]) && !IsWhitespace(typed[|typed| - 1])
    requires "password" in body && body["password"] == typed + " "
    requires "confirmPassword" in body && body["confirmPassword"] == typed + " "
    ensures ValidationError("confirmPassword", SignupConfirmMessage) in ValidateUser(body, isEmail).errors
  {
    TrimDropsTrailingSpace(typed);
    UserErrors(body, isEmail);
  }

  /** With the correction, "Passwords must match." is reported exactly when
      the confirmation is absent or its trimmed value differs from the
      trimmed password, so the entries rejected above pass that check; a
      confirmation without surrounding whitespace gets the same result as
      before. */
  lemma UserCorrectedConfirmRule(body: Body, isEmail: string -> bool)
    ensures ValidationError("confirmPassword", SignupConfirmMessage) in ValidateUserCorrected(body, isEmail).errors
      <==> "confirmPassword" !in body || Trim(body["confirmPassword"]) != Trim(ValueOf(body, "password"))
    ensures "confirmPassword" in body && Trim(body["confirmPassword"]) == body["confirmPassword"]
      ==> ValidateUserCorrected(body, isEmail) == ValidateUser(body, isEmail)
  {
    var r1 := EmailChain(Req(body, []), "email", isEmail, SignupEmailMessage);
    assert ValueOf(r1.body, "password") == ValueOf(body, "password");
    var r2 := LengthChain(r1, "password", 6, 16, SignupPasswordMessage);
    assert Lookup(r2.body, "confirmPassword") == Lookup(body, "confirmPassword");
    assert Lookup(r2.body, "password") == Some(Trim(ValueOf(body, "password")));
  }

  /** The corrected rules do not report the entries above as differing. */
  lemma SignupTrailingSpaceAcceptedCorrected(body: Body, isEmail: string -> bool, typed: string)
    requires typed != [] && !IsWhitespace(typed[0]) && !IsWhitespace(typed[|typed| - 1])
    requires "password" in body && body["password"] == typed + " "
    requires "confirmPassword" in body && body["confirmPassword"] == typed + " "
    ensures ValidationError("confirmPassword", SignupConfirmMessage) !in ValidateUserCorrected(body, isEmail).errors
  {
    TrimDropsTrailingSpace(typed);
    UserCorrectedConfirmRule(body, isEmail);
  }

  // ---------------------------------------------------------------------
  // validateUpdate

  /** The account-update rules report, in this order: the new-email error,
      the new-password length error, the default error for an absent
      confirmation, and "Password confirmation must match." when the
      confirmation, AS SUBMITTED, differs from the trimmed new password.
      `currentPassword` is only trimmed. */
  lemma UpdateErrors(body: Body, isEmail: string -> bool)
    ensures var email := Trim(ValueOf(body, "newEmail"));
      var password := Trim(ValueOf(body, "newPassword"));
      ValidateUpdate(body, isEmail).errors
      == When(!isEmail(email), ValidationError("newEmail", UpdateEmailMessage))
       + When(!LengthWithin(password, 6, 16), ValidationError("newPassword", UpdatePasswordMessage))
       + When("newPasswordConfirm" !in body, ValidationError("newPasswordConfirm", DefaultMessage))
       + When(Lookup(body, "newPasswordConfirm") != Some(password),
              ValidationError("newPasswordConfirm", UpdateConfirmMessage))
  {
    var email := Trim(ValueOf(body, "newEmail"));
    var password := Trim(ValueOf(body, "newPassword"));
    var r1 := TrimChain(Req(body, []), "currentPassword");
    assert r1.errors == [];
    assert ValueOf(r1.body, "newEmail") == ValueOf(body, "newEmail");
    var r2 := EmailChain(r1, "newEmail", isEmail, UpdateEmailMessage);
    var w1 := When(!isEmail(email), ValidationError("newEmail", UpdateEmailMessage));
    assert r2.errors == w1;
    assert ValueOf(r2.body, "newPassword") == ValueOf(body, "newPassword");
    var r3 := LengthChain(r2, "newPassword", 6, 16, UpdatePasswordMessage);
    assert r3.errors == w1 + When(!LengthWithin(password, 6, 16), ValidationError("newPassword", UpdatePasswordMessage));
    assert Lookup(r3.body, "newPasswordConfirm") == Lookup(body, "newPasswordConfirm");
    assert Lookup(r3.body, "newPassword") == Some(password);
  }

  /** When the trimmed new email is not an email, the trimmed new password
      is too short or too long and the confirmation is present but differs
      from it, exactly those three errors are reported, in that order. */
  lemma UpdateAllRejected(body: Body, isEmail: string -> bool)
    requires !isEmail(Trim(ValueOf(body, "newEmail")))
    requires !LengthWithin(Trim(ValueOf(body, "newPassword")), 6, 16)
    requires "newPasswordConfirm" in body && body["newPasswordConfirm"] != Trim(ValueOf(body, "newPassword"))
    ensures ValidateUpdate(body, isEmail).errors
         == [ValidationError("newEmail", UpdateEmailMessage),
             ValidationError("newPassword", UpdatePasswordMessage),
             ValidationError("newPasswordConfirm", UpdateConfirmMessage)]
  {
    UpdateErrors(body, isEmail);
  }

  /** The new password is rejected exactly when its trimmed length is
      outside 6..16, and the confirmation is reported as not matching
      exactly when it is absent or differs from the trimmed new password. */
  lemma UpdatePasswordRules(body: Body, isEmail: string -> bool)
    ensures var es := ValidateUpdate(body, isEmail).errors;
      var password := Trim(ValueOf(body, "newPassword"));
      && (ValidationError("newPassword", UpdatePasswordMessage) in es <==> !(6 <= |password| <= 16))
      && (ValidationError("newPasswordConfirm", UpdateConfirmMessage) in es
          <==> "newPasswordConfirm" !in body || body["newPasswordConfirm"] != password)
  {
    UpdateErrors(body, isEmail);
  }

  /** Writing back the trimmed values of four distinct fields trims those
      four, adds any that were absent as `""`, and keeps every other field. */
  lemma TrimFourFields(body: Body, a: string, b: string, c: string, d: string)
    requires a != b && a != c && a != d && b != c && b != d && c != d
    ensures var out := body[a := Trim(ValueOf(body, a))][b := Trim(ValueOf(body, b))]
                           [c := Trim(ValueOf(body, c))][d := Trim(ValueOf(body, d))];
      && out.Keys == body.Keys + {a, b, c, d}
      && out[a] == Trim(ValueOf(body, a)) && out[b] == Trim(ValueOf(body, b))
      && out[c] == Trim(ValueOf(body, c)) && out[d] == Trim(ValueOf(body, d))
      && forall k :: (k in body && k != a && k != b && k != c && k != d) ==> out[k] == body[k]
  {
  }

  /** `validateUpdate` writes back, in chain order, the trimmed
      `currentPassword`, `newEmail`, `newPassword` and `newPasswordConfirm`. */
  lemma UpdateBody(body: Body, isEmail: string -> bool)
    ensures ValidateUpdate(body, isEmail).body
         == body["currentPassword" := Trim(ValueOf(body, "currentPassword"))]
                ["newEmail" := Trim(ValueOf(body, "newEmail"))]
                ["newPassword" := Trim(ValueOf(body, "newPassword"))]
                ["newPasswordConfirm" := Trim(ValueOf(body, "newPasswordConfirm"))]
  {
    var r1 := TrimChain(Req(body, []), "currentPassword");
    var r2 := EmailChain(r1, "newEmail", isEmail, UpdateEmailMessage);
    assert ValueOf(r1.body, "newEmail") == ValueOf(body, "newEmail");
    assert r2.body == r1.body["newEmail" := Trim(ValueOf(body, "newEmail"))];
    var r3 := LengthChain(r2, "newPassword", 6, 16, UpdatePasswordMessage);
    assert ValueOf(r2.body, "newPassword") == ValueOf(body, "newPassword");
    assert r3.body == r2.body["newPassword" := Trim(ValueOf(body, "newPassword"))];
    assert ValueOf(r3.body, "newPasswordConfirm") == ValueOf(body, "newPasswordConfirm");
  }

  /** The account-update rules leave `currentPassword`, `newEmail`,
      `newPassword` and `newPasswordConfirm` trimmed (absent ones as `""`)
      and every other field as it was. */
  lemma UpdateSanitized(body: Body, isEmail: string -> bool)
    ensures ValidateUpdate(body, isEmail).body.Keys
         == body.Keys + {"currentPassword", "newEmail", "newPassword", "newPasswordConfirm"}
    ensures var out := ValidateUpdate(body, isEmail).body;
      && out["currentPassword"] == Trim(ValueOf(body, "currentPassword"))
      && out["newEmail"] == Trim(ValueOf(body, "newEmail"))
      && out["newPassword"] == Trim(ValueOf(body, "newPassword"))
      && out["newPasswordConfirm"] == Trim(ValueOf(body, "newPasswordConfirm"))
    ensures var out := ValidateUpdate(body, isEmail).body;
      forall k :: (k in body && k != "currentPassword" && k != "newEmail" && k != "newPassword"
                   && k != "newPasswordConfirm") ==> out[k] == body[k]
  {
    UpdateBody(body, isEmail);
    TrimFourFields(body, "currentPassword", "newEmail", "newPassword", "newPasswordConfirm");
  }

  /** As written, a new password and confirmation typed identically with a
      trailing space are reported as not matching. */
  lemma UpdateTrailingSpaceRejected(body: Body, isEmail: string -> bool, typed: string)
    requires typed != [] && !IsWhitespace(typed[0]) && !IsWhitespace(typed[|typed| - 1])
    requires "newPassword" in body && body["newPassword"] == typed + " "
    requires "newPasswordConfirm" in body && body["newPasswordConfirm"] == typed + " "
    ensures ValidationError("newPasswordConfirm", UpdateConfirmMessage) in ValidateUpdate(body, isEmail).errors
  {
    TrimDropsTrailingSpace(typed);
    UpdateErrors(body, isEmail);
  }

  /** With the correction, "Password confirmation must match." is reported
      exactly when the confirmation is absent or its trimmed value differs
      from the trimmed new password, and a confirmation without surrounding
      whitespace gets the same result as before. */
  lemma UpdateCorrectedConfirmRule(body: Body, isEmail: string -> bool)
    ensures ValidationError("newPasswordConfirm", UpdateConfirmMessage) in ValidateUpdateCorrected(body, isEmail).errors
      <==> "newPasswordConfirm" !in body || Trim(body["newPasswordConfirm"]) != Trim(ValueOf(body, "newPassword"))
    ensures "newPasswordConfirm" in body && Trim(body["newPasswordConfirm"]) == body["newPasswordConfirm"]
      ==> ValidateUpdateCorrected(body, isEmail) == ValidateUpdate(body, isEmail)
  {
    var r1 := TrimChain(Req(body, []), "currentPassword");
    var r2 := EmailChain(r1, "newEmail", isEmail, UpdateEmailMessage);
    assert ValueOf(r2.body, "newPassword") == ValueOf(body, "newPassword");
    var r3 := LengthChain(r2, "newPassword", 6, 16, UpdatePasswordMessage);
    assert Lookup(r3.body, "newPasswordConfirm") == Lookup(body, "newPasswordConfirm");
    assert Lookup(r3.body, "newPassword") == Some(Trim(ValueOf(body, "newPassword")));
    assert ValidateUpdateCorrected(body, isEmail).errors
        == r3.errors + When("newPasswordConfirm" !in body, ValidationError("newPasswordConfirm", DefaultMessage))
           + When("newPasswordConfirm" !in body || Trim(body["newPasswordConfirm"]) != Trim(ValueOf(body, "newPassword")),
                  ValidationError("newPasswordConfirm", UpdateConfirmMessage));
  }
}
