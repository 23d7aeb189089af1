/** Password-reset request by username, email or phone
    (frappe_utils/website_customization/api/reset_password.py). The User table
    is a sequence of rows; the email validator and the reset mailer are
    parameters. */
module ResetPassword {
  import opened Records
  import Text

  /** A User row; SQL NULLs are `None`. */
  datatype UserRow = UserRow(name: string, username: Option<string>, email: Option<string>,
                             phone: Option<string>, enabled: int)

  datatype Outcome =
    | Sent(message: string, emailSentTo: string)
    | Fail(message: string)
    | Raised(error: string)

  /** `identifier.strip().lower()`. */
  function Normalise(identifier: string): (r: string)
    ensures |r| == |Text.Strip(identifier)|
    ensures forall k :: 0 <= k < |r| ==> r[k] == Text.LowerChar(Text.Strip(identifier)[k])
  {
    Text.Lower(Text.Strip(identifier))
  }

  /** `LOWER(column) = id`, which is never true for a NULL column. */
  predicate LowerEquals(column: Option<string>, id: string)
  {
    column.Some? && Text.Lower(column.value) == id
  }

  /** The WHERE clause as SQL reads it: AND binds tighter than OR, so `enabled`
      restricts only the phone comparison, whose NULL reads as ''. */
  predicate Matches(u: UserRow, id: string)
  {
    || LowerEquals(u.username, id)
    || LowerEquals(u.email, id)
    || (Text.Lower(if u.phone.Some? then u.phone.value else "") == id && u.enabled == 1)
  }

  /** `LIMIT 1`: the first matching row, in table order. */
  function FirstMatch(users: seq<UserRow>, id: string): (r: Option<nat>)
    ensures r.None? <==> forall i :: 0 <= i < |users| ==> !Matches(users[i], id)
    ensures r.Some? ==> r.value < |users| && Matches(users[r.value], id)
    ensures r.Some? ==> forall i :: 0 <= i < r.value ==> !Matches(users[i], id)
  {
    if users == [] then None
    else if Matches(users[0], id) then Some(0)
    else match FirstMatch(users[1..], id)
      case None => None
      case Some(i) => Some(i + 1)
  }

  /** What `validate_email_address(email, True)` does: returns the address,
      returns something falsy, or raises. */
  datatype Validation = Valid | Falsy | Raises

  const NoUserFound := "No user found."
  const NoValidEmail := "User has no valid email."
  const SendFailed := "Failed to send reset link."

  /** The identifier is present, and some user matches it once normalised. */
  predicate Matched(identifier: Option<string>, users: seq<UserRow>)
  {
    identifier.Some? && identifier.value != "" && FirstMatch(users, Normalise(identifier.value)).Some?
  }

  /** The email column of the first matching user. */
  function MatchedEmail(identifier: Option<string>, users: seq<UserRow>): Option<string>
    requires Matched(identifier, users)
  {
    users[FirstMatch(users, Normalise(identifier.value)).value].email
  }

  /** `reset`. An absent or empty identifier reaches the translation function
      `_`, which the module never imports, so the call raises. A missing or
      empty email, or a falsy answer of the validator, gives "no valid email";
      a raising validator (its `throw=True` mode, on an invalid address) makes
      the call raise; a raising mailer gives "failed to send". */
  function Reset(identifier: Option<string>, users: seq<UserRow>, validateEmail: string -> Validation,
                 resetSucceeds: bool): (r: Outcome)
    ensures identifier.None? || identifier.value == "" ==> r.Raised?
    ensures r == Fail(NoUserFound) <==>
              identifier.Some? && identifier.value != "" && FirstMatch(users, Normalise(identifier.value)).None?
    ensures Matched(identifier, users) ==>
              var email := MatchedEmail(identifier, users);
              && (r == Fail(NoValidEmail) <==> email.None? || email.value == "" || validateEmail(email.value) == Falsy)
              && (r.Raised? <==> email.Some? && email.value != "" && validateEmail(email.value) == Raises)
              && (r == Fail(SendFailed) <==>
                    email.Some? && email.value != "" && validateEmail(email.value) == Valid && !resetSucceeds)
  {
    if identifier.None? || identifier.value == "" then Raised("NameError: name '_' is not defined")
    else
      var id := Normalise(identifier.value);
      match FirstMatch(users, id)
      case None => Fail(NoUserFound)
      case Some(i) =>
        var email := users[i].email;
        if email.None? || email.value == "" then Fail(NoValidEmail)
        else match validateEmail(email.value)
          case Raises => Raised("InvalidEmailAddressError")
          case Falsy => Fail(NoValidEmail)
          case Valid =>
            if !resetSucceeds then Fail(SendFailed)
            else Sent("Password reset link sent to " + email.value, email.value)
  }

  /** A reset link is sent exactly when the identifier is present, some user
      matches it, the first match has an email the validator accepts and the
      mailer succeeds; the answer then names that user's email. */
  lemma SentSpec(identifier: Option<string>, users: seq<UserRow>, validateEmail: string -> Validation,
                 resetSucceeds: bool)
    ensures Reset(identifier, users, validateEmail, resetSucceeds).Sent? <==>
            && Matched(identifier, users)
            && var email := MatchedEmail(identifier, users);
            && email.Some? && email.value != "" && validateEmail(email.value) == Valid && resetSucceeds
    ensures Reset(identifier, users, validateEmail, resetSucceeds).Sent? ==>
            var email := MatchedEmail(identifier, users);
            && Reset(identifier, users, validateEmail, resetSucceeds).emailSentTo == email.value
            && Reset(identifier, users, validateEmail, resetSucceeds).message
               == "Password reset link sent to " + email.value
  {
  }

  /** When no user matches, the answer is "No user found." and nothing is sent. */
  lemma NoMatchSpec(identifier: string, users: seq<UserRow>, validateEmail: string -> Validation,
                    resetSucceeds: bool)
    requires identifier != ""
    requires forall i :: 0 <= i < |users| ==> !Matches(users[i], Normalise(identifier))
    ensures Reset(Some(identifier), users, validateEmail, resetSucceeds) == Fail(NoUserFound)
  {
  }

  /** The precedence quirk: a disabled user is still found by username or email,
      but never by phone alone. */
  lemma DisabledUserMatchesOnlyByName(u: UserRow, id: string)
    requires u.enabled != 1
    ensures Matches(u, id) <==> LowerEquals(u.username, id) || LowerEquals(u.email, id)
  {
  }

  /** Identifiers that differ only in the case of ASCII letters get the same
      answer. */
  lemma IdentifierCaseIgnored(a: string, b: string, users: seq<UserRow>,
                              validateEmail: string -> Validation, resetSucceeds: bool)
    requires Text.SameUpToCase(a, b)
    ensures Normalise(a) == Normalise(b)
    ensures Reset(Some(a), users, validateEmail, resetSucceeds) == Reset(Some(b), users, validateEmail, resetSucceeds)
  {
    Text.StripUpToCase(a, b);
  }

  /** Whitespace around an identifier is ignored: it normalises like the bare
      identifier and, when that is not empty, gets the same answer. */
  lemma SurroundingWhitespaceIgnored(before: string, a: string, after: string, users: seq<UserRow>,
                                     validateEmail: string -> Validation, resetSucceeds: bool)
    requires Text.AllWhitespace(before) && Text.AllWhitespace(after)
    ensures Normalise(before + a + after) == Normalise(a)
    ensures a != "" ==> Reset(Some(before + a + after), users, validateEmail, resetSucceeds)
                        == Reset(Some(a), users, validateEmail, resetSucceeds)
  {
    Text.StripBack(before + a, after);
    Text.StripFront(before, a);
  }

  /** A whitespace-only identifier passes the emptiness check, normalises to "",
      and then matches any enabled user without a phone number. */
  lemma BlankIdentifierMatchesPhoneless(identifier: string, u: UserRow)
    requires identifier != "" && Text.AllWhitespace(identifier)
    requires u.phone.None? && u.enabled == 1
    ensures Normalise(identifier) == ""
    ensures Matches(u, Normalise(identifier))
  {
    assert Text.LeadingSpace(identifier) == |identifier|;
  }
}
