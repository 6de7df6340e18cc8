/** The hosted-database service: how it turns the client library's errors into the
    application's exception classes, and the logged-in user id it keeps. The client
    calls themselves are parameters: each method receives what the call returned or
    the error it raised. */
module SupabaseServices {
  import opened Wrappers
  import opened Text
  import opened Tables
  import opened AppErrors
  import Spendings

  /** The errors the client library raises, by class, with the text the service
      inspects: `repr(err)` for the authentication and client-creation errors, and
      `err.message` for the database API error. */
  datatype ClientError =
    | AuthApiError(repr: string)
    | AuthInvalidCredentialsError(repr: string)
    | SupabaseError(repr: string)
    | ApiError(message: string)
    | OtherError(repr: string)

  const AlreadyRegisteredText: string := "A user with this email address has already been registered"
  const InvalidApiKeyText: string := "Invalid API key"
  const InvalidLoginText: string := "Invalid login credentials"
  const NotAllowedText: string := "User not allowed"
  const NotConfirmedText: string := "Email not confirmed"
  const UnableToValidateText: string := "Unable to validate email address"
  const MissingCredentialsText: string := "You must provide either an email or phone number and a password"
  const InvalidUrlText: string := "Invalid URL"
  const RlsViolationText: string := "new row violates row-level security policy for table \"spendings\""
  const DuplicateKeyText: string := "duplicate key value violates unique constraint \"spendings_pkey\""
  const NullAmountText: string :=
    "null value in column \"amount\" of relation \"spendings\" violates not-null constraint"

  /** An `if/elif` cascade of substring tests: the kind of the first rule whose text
      occurs, or the fallback when none does. */
  function FirstContaining(text: string, rules: seq<(string, ExceptionKind)>, fallback: ExceptionKind)
    : (k: ExceptionKind)
    ensures forall i ::
              (0 <= i < |rules| && Contains(text, rules[i].0) &&
               forall j :: 0 <= j < i ==> !Contains(text, rules[j].0)) ==> k == rules[i].1
    ensures (forall i :: 0 <= i < |rules| ==> !Contains(text, rules[i].0)) ==> k == fallback
  {
    if rules == [] then fallback
    else if Contains(text, rules[0].0) then rules[0].1
    else
      var k := FirstContaining(text, rules[1..], fallback);
      assert forall i :: 1 <= i < |rules| ==> rules[i] == rules[1..][i - 1];
      k
  }

  /** The cascade of `handle_login` for an `AuthApiError`. */
  const LoginRules: seq<(string, ExceptionKind)> := [
    (AlreadyRegisteredText, UserAlreadyExists),
    (InvalidApiKeyText, SupabaseApi),
    (InvalidLoginText, WrongCredentials),
    (NotAllowedText, UserNotAllowed),
    (NotConfirmedText, EmailNotConfirmed)]

  /** The cascade of `handle_registration`: the login cascade with the email-format
      check second. */
  const RegistrationRules: seq<(string, ExceptionKind)> := [
    (AlreadyRegisteredText, UserAlreadyExists),
    (UnableToValidateText, EmailNotValid),
    (InvalidApiKeyText, SupabaseApi),
    (InvalidLoginText, WrongCredentials),
    (NotAllowedText, UserNotAllowed),
    (NotConfirmedText, EmailNotConfirmed)]

  /** What `handle_login` raises for a failed sign-in; `None` where the error is
      swallowed and the call returns `None`. */
  function LoginFailure(err: ClientError): (r: Option<ExceptionKind>)
    ensures r.None? <==> err.AuthInvalidCredentialsError? && !Contains(err.repr, MissingCredentialsText)
    ensures err.AuthInvalidCredentialsError? && Contains(err.repr, MissingCredentialsText) ==>
              r == Some(InvalidCredentials)
    ensures !err.AuthApiError? && !err.AuthInvalidCredentialsError? ==> r == Some(Generic)
  {
    match err
    case AuthApiError(text) => Some(FirstContaining(text, LoginRules, Generic))
    case AuthInvalidCredentialsError(text) =>
      if Contains(text, MissingCredentialsText) then Some(InvalidCredentials) else None
    case _ => Some(Generic)
  }

  /** The login cascade in plain terms: each text wins over every later one. */
  lemma LoginClassification(text: string)
    ensures var k := LoginFailure(AuthApiError(text));
            var registered, apiKey, login := Contains(text, AlreadyRegisteredText),
              Contains(text, InvalidApiKeyText), Contains(text, InvalidLoginText);
            var allowed, confirmed := Contains(text, NotAllowedText), Contains(text, NotConfirmedText);
            (registered ==> k == Some(UserAlreadyExists)) &&
            (!registered && apiKey ==> k == Some(SupabaseApi)) &&
            (!registered && !apiKey && login ==> k == Some(WrongCredentials)) &&
            (!registered && !apiKey && !login && allowed ==> k == Some(UserNotAllowed)) &&
            (!registered && !apiKey && !login && !allowed && confirmed ==> k == Some(EmailNotConfirmed)) &&
            (!registered && !apiKey && !login && !allowed && !confirmed ==> k == Some(Generic))
  {
    var rs := LoginRules;
    assert rs[0].0 == AlreadyRegisteredText && rs[1].0 == InvalidApiKeyText && rs[2].0 == InvalidLoginText;
    assert rs[3].0 == NotAllowedText && rs[4].0 == NotConfirmedText;
  }

  /** What `handle_registration` raises for a failed sign-up. */
  function RegistrationFailure(err: ClientError): (k: ExceptionKind)
    ensures !err.AuthApiError? ==> k == Generic
    ensures (err.AuthApiError? && !Contains(err.repr, AlreadyRegisteredText) &&
             Contains(err.repr, UnableToValidateText)) ==> k == EmailNotValid
  {
    if err.AuthApiError? then
      assert RegistrationRules[0].0 == AlreadyRegisteredText;
      assert RegistrationRules[1].0 == UnableToValidateText;
      FirstContaining(err.repr, RegistrationRules, Generic)
    else Generic
  }

  /** Apart from the email-format check, registration classifies an `AuthApiError`
      exactly as login does. */
  lemma RegistrationAgreesWithLogin(text: string)
    requires !Contains(text, UnableToValidateText)
    ensures Some(RegistrationFailure(AuthApiError(text))) == LoginFailure(AuthApiError(text))
  {
    LoginClassification(text);
    var rs := RegistrationRules;
    assert rs[0].0 == AlreadyRegisteredText && rs[1].0 == UnableToValidateText;
    assert rs[2].0 == InvalidApiKeyText && rs[3].0 == InvalidLoginText;
    assert rs[4].0 == NotAllowedText && rs[5].0 == NotConfirmedText;
  }

  /** What `sync_client` raises when the client cannot be created. */
  function SyncClientFailure(err: ClientError): (k: ExceptionKind)
    ensures k == SupabaseApi <==> err.SupabaseError? && Contains(err.repr, InvalidUrlText)
    ensures k != SupabaseApi ==> k == Generic
  {
    match err
    case SupabaseError(text) => if Contains(text, InvalidUrlText) then SupabaseApi else Generic
    case _ => Generic
  }

  /** What `delete`, `update` and `insert` raise: an exact match of the API error's
      message against three texts, `Generic` for anything else. */
  function WriteFailure(err: ClientError): (k: ExceptionKind)
    ensures k == SupabaseRLSViolation <==> err.ApiError? && err.message == RlsViolationText
    ensures k == SupabaseDuplicateKeyConstraint <==> err.ApiError? && err.message == DuplicateKeyText
    ensures k == SupabaseNullValueInsertion <==> err.ApiError? && err.message == NullAmountText
    ensures k in {SupabaseRLSViolation, SupabaseDuplicateKeyConstraint, SupabaseNullValueInsertion, Generic}
  {
    match err
    case ApiError(message) =>
      if message == RlsViolationText then SupabaseRLSViolation
      else if message == DuplicateKeyText then SupabaseDuplicateKeyConstraint
      else if message == NullAmountText then SupabaseNullValueInsertion
      else Generic
    case _ => Generic
  }

  /** The write cascade compares whole messages: a message that only starts with the
      row-level security text is `Generic`. */
  lemma WriteFailureIsExact(suffix: string)
    requires suffix != ""
    ensures WriteFailure(ApiError(RlsViolationText + suffix)) == Generic
  {
    var m := RlsViolationText + suffix;
    assert |m| > |RlsViolationText| == 64 > |DuplicateKeyText|;
    // The two texts differ at index 63: the closing quote of `"spendings"` against the
    // `n` of `not-null`.
    assert m[63] == RlsViolationText[63] == '"';
    assert m != NullAmountText by { assert NullAmountText[63] == 'n'; }
  }

  /** `select("*").eq("user_id", u)`. */
  function OwnedBy(u: string): Spendings.SpendingState -> bool {
    (s: Spendings.SpendingState) => s.userId == u
  }

  class SpendingsSupabaseDatabase {
    var userId: Option<string>
    var supabaseUrl: string
    var supabaseKey: string
    var hasClient: bool
    const tableName: string

    constructor (table: string)
      ensures userId.None? && !hasClient && tableName == table
    {
      userId := None;
      supabaseUrl, supabaseKey := "", "";
      hasClient := false;
      tableName := table;
    }

    /** `sync_client`: records the URL and key, then creates the client, or raises
        the kind `SyncClientFailure` gives. */
    method SyncClient(url: string, key: string, failure: Option<ClientError>)
      returns (raised: Option<ExceptionKind>)
      modifies this
      ensures supabaseUrl == url && supabaseKey == key && userId == old(userId)
      ensures failure.None? ==> raised.None? && hasClient
      ensures failure.Some? ==> raised == Some(SyncClientFailure(failure.value)) && hasClient == old(hasClient)
    {
      supabaseUrl, supabaseKey := url, key;
      if failure.Some? {
        return Some(SyncClientFailure(failure.value));
      }
      hasClient := true;
      raised := None;
    }

    /** `handle_login`: a sign-in that returns a user records its id; a failed one
        leaves the id as it was and raises what `LoginFailure` gives, or nothing. */
    method HandleLogin(response: Result<string, ClientError>) returns (raised: Option<ExceptionKind>)
      modifies this
      ensures response.Success? ==> userId == Some(response.value) && raised.None?
      ensures response.Failure? ==> userId == old(userId) && raised == LoginFailure(response.error)
      ensures supabaseUrl == old(supabaseUrl) && supabaseKey == old(supabaseKey) && hasClient == old(hasClient)
    {
      if response.Failure? {
        return LoginFailure(response.error);
      }
      userId := Some(response.value);
      raised := None;
    }

    /** `handle_logout`: a successful sign-out forgets the user; a failing one is
        logged and changes nothing. */
    method HandleLogout(signOutFails: bool)
      modifies this
      ensures userId == (if signOutFails then old(userId) else None)
      ensures supabaseUrl == old(supabaseUrl) && supabaseKey == old(supabaseKey) && hasClient == old(hasClient)
    {
      if !signOutFails {
        userId := None;
      }
    }

    /** `fetch_all_data`: the logged-in user's rows of the table; raises
        `UserNotLogged` when nobody is logged in. */
    method FetchAllData(table: seq<Spendings.SpendingState>)
      returns (r: Result<seq<Spendings.SpendingState>, ExceptionKind>)
      ensures userId.None? ==> r == Failure(UserNotLogged)
      ensures userId.Some? ==> r == Success(Select(table, OwnedBy(userId.value)))
      ensures r.Success? ==> forall s :: s in r.value <==> s in table && s.userId == userId.value
    {
      if userId.None? {
        return Failure(UserNotLogged);
      }
      r := Success(Select(table, OwnedBy(userId.value)));
    }
  }
}
