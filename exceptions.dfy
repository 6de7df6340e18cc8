/** The application's error record, built from the error dictionary a client call
    returns, with its text rendering; and the exception classes the service raises. */
module AppErrors {
  import opened Wrappers
  import opened Text

  /** The constructed error: the raw dictionary and the four fields read from it. */
  datatype AppError = AppError(raw: map<string, string>, message: Option<string>,
                               code: Option<string>, hint: Option<string>, details: Option<string>)

  /** `AppError.__init__`: each of the four fields is the dictionary's entry, or `None`
      when the key is missing. */
  function NewAppError(error: map<string, string>): (e: AppError)
    ensures e.raw == error
    ensures e.message == MapGet(error, "message") && e.code == MapGet(error, "code")
    ensures e.hint == MapGet(error, "hint") && e.details == MapGet(error, "details")
    ensures "message" !in error ==> e.message.None?
    ensures "code" !in error ==> e.code.None?
  {
    AppError(error, MapGet(error, "message"), MapGet(error, "code"), MapGet(error, "hint"),
             MapGet(error, "details"))
  }

  /** One conditional piece of the rendering: `before + value + after` when the field
      is truthy, nothing otherwise. */
  function Piece(o: Option<string>, before: string, after: string): (r: string)
    ensures TruthyText(o) ==> r == before + o.value + after
    ensures !TruthyText(o) ==> r == ""
  {
    if TruthyText(o) then before + o.value + after else ""
  }

  const EmptyErrorText: string := "Empty error"

  /** The four pieces in order: code, message, hint, details. The result is empty
      exactly when no field is truthy, and otherwise starts with `Error` or a line
      break. */
  function Composed(e: AppError): (r: string)
    ensures r == "" <==> !TruthyText(e.code) && !TruthyText(e.message) && !TruthyText(e.hint) && !TruthyText(e.details)
    ensures TruthyText(e.code) ==> StartsWith(r, "Error " + e.code.value + ":")
    ensures !TruthyText(e.code) && r != "" ==> r[0] == '\n'
  {
    var c := Piece(e.code, "Error ", ":");
    var rest := Piece(e.message, "\nMessage: ", "") + Piece(e.hint, "\nHint: ", "") +
                Piece(e.details, "\nDetails: ", "");
    assert !TruthyText(e.code) ==> c == "";
    if TruthyText(e.code) then
      assert (c + rest)[..|c|] == c;
      c + rest
    else
      assert c + rest == rest;
      rest
  }

  /** `AppError.__repr__`: the composed text, or "Empty error" when it is empty; never
      empty, and "Empty error" exactly when no field is truthy. */
  function Repr(e: AppError): (r: string)
    ensures r != ""
    ensures r == EmptyErrorText <==>
              !TruthyText(e.code) && !TruthyText(e.message) && !TruthyText(e.hint) && !TruthyText(e.details)
    ensures r != EmptyErrorText ==> r == Composed(e)
  {
    var text := Composed(e);
    if text == "" then EmptyErrorText
    else
      assert text[0] == '\n' || text[1] == 'r' by {
        if TruthyText(e.code) {
          var prefix := "Error " + e.code.value + ":";
          assert text[..|prefix|] == prefix;
          assert text[1] == text[..|prefix|][1];
        }
      }
      text
  }

  /** Code alone, message alone, no field, and fields that are present but empty. */
  lemma ReprExamples()
    ensures Repr(NewAppError(map["code" := "C"])) == "Error C:"
    ensures Repr(NewAppError(map["message" := "M"])) == "\nMessage: M"
    ensures Repr(NewAppError(map[])) == EmptyErrorText
    ensures Repr(NewAppError(map["code" := "", "message" := ""])) == EmptyErrorText
  {
    var e := NewAppError(map["code" := "C"]);
    assert Composed(e) == "Error C:";
    var m := NewAppError(map["message" := "M"]);
    assert Composed(m) == "\nMessage: M";
  }

  /** `AppError.json`: the dictionary the error was built from. */
  function Json(e: AppError): (r: map<string, string>)
    ensures r == e.raw
  {
    e.raw
  }

  /** `json()` gives back the original dictionary unchanged, keys beyond the four
      fields included. */
  lemma JsonReturnsInput(error: map<string, string>)
    ensures Json(NewAppError(error)) == error
  {
  }

  /** The exception classes the service layer raises. */
  datatype ExceptionKind =
    | Generic
    | WrongCredentials
    | WrongPassword
    | UserAlreadyExists
    | EmailNotConfirmed
    | UserNotAllowed
    | SupabaseApi
    | PasswordNotEqual
    | InputNotFilled
    | InvalidInput
    | EmailNotValid
    | SupabaseRLSViolation
    | SupabaseDuplicateKeyConstraint
    | SupabaseNullValueInsertion
    | InvalidCredentials
    | UserNotLogged
}
