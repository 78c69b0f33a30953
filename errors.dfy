/**
 * The error taxonomy of the contact form (src/error.rs): a closed set of
 * seven failure kinds, each with a wire identifier (its `Display` text),
 * a Swedish message for the user, and a parser from identifier back to kind.
 */
module Errors {
  import opened Wrappers

  datatype ContactFormError =
    | MissingEmail
    | InvalidEmailFormat
    | EmailTooLong
    | MessageTooLong
    | MissingMessage
    | TermsNotAccepted
    | DatabaseError(detail: string)

  /** The variant of an error without its payload (Rust's `std::mem::discriminant`). */
  datatype Tag =
    | MissingEmailTag
    | InvalidEmailFormatTag
    | EmailTooLongTag
    | MessageTooLongTag
    | MissingMessageTag
    | TermsNotAcceptedTag
    | DatabaseErrorTag

  function Discriminant(e: ContactFormError): Tag {
    match e
    case MissingEmail => MissingEmailTag
    case InvalidEmailFormat => InvalidEmailFormatTag
    case EmailTooLong => EmailTooLongTag
    case MessageTooLong => MessageTooLongTag
    case MissingMessage => MissingMessageTag
    case TermsNotAccepted => TermsNotAcceptedTag
    case DatabaseError(_) => DatabaseErrorTag
  }

  /** Two errors have the same discriminant exactly when they are equal or both database errors. */
  lemma {:induction false} DiscriminantIgnoresPayload(a: ContactFormError, b: ContactFormError)
    ensures Discriminant(a) == Discriminant(b) <==> a == b || (a.DatabaseError? && b.DatabaseError?)
  {
  }

  predicate IsAsciiLetter(c: char) {
    ('A' <= c && c <= 'Z') || ('a' <= c && c <= 'z')
  }

  /**
   * The wire identifier (the `#[error(...)]` text). It is non-empty and made of
   * ASCII letters only, so it travels unescaped in a URL query parameter.
   */
  function Identifier(e: ContactFormError): (id: string)
    ensures |id| > 0 && forall i :: 0 <= i < |id| ==> IsAsciiLetter(id[i])
  {
    match e
    case MissingEmail => "MissingEmail"
    case InvalidEmailFormat => "InvalidEmailFormat"
    case EmailTooLong => "EmailTooLong"
    case MessageTooLong => "MessageTooLong"
    case MissingMessage => "MissingMessage"
    case TermsNotAccepted => "TermsNotAccepted"
    case DatabaseError(_) => "DatabaseError"
  }

  /** The seven identifiers `FromStr` accepts. */
  const Identifiers: set<string> := {
    "MissingEmail", "InvalidEmailFormat", "EmailTooLong", "MessageTooLong",
    "MissingMessage", "TermsNotAccepted", "DatabaseError"
  }

  /** Detail given to a `DatabaseError` rebuilt from its identifier. */
  const DatabasePlaceholder: string := "Okänt databasfel"

  const ParseErrorPrefix: string := "Okänt felvariantnamn kunde inte parsas: "

  const ServerErrorPrefix: string := "Ett serverfel uppstod: "

  /**
   * The user message shown for an error (`get_user_message`). The three
   * longest texts are written as two literals each; see `FixedMessageShape`.
   */
  function UserMessage(e: ContactFormError): string {
    match e
    case MissingEmail => "Ange en email-adress."
    case InvalidEmailFormat => "Ange en giltig email-adress."
    case EmailTooLong => "E-postadressen är för lång " + "(max 254 tecken)."
    case MessageTooLong => "Meddelandet är för långt " + "(max 5000 tecken)."
    case MissingMessage => "Meddelandet får inte vara tomt."
    case TermsNotAccepted => "Du måste acceptera villkoren " + "för att skicka meddelandet."
    case DatabaseError(s) => ServerErrorPrefix + s
  }

  /**
   * `FromStr::from_str`. Whatever it accepts prints back to the same string,
   * a rebuilt `DatabaseError` carries the fixed placeholder, and a rejected
   * string is quoted in the error text.
   */
  function FromStr(s: string): (r: Result<ContactFormError, string>)
    ensures r.Ok? ==> Identifier(r.value) == s
    ensures r.Ok? && r.value.DatabaseError? ==> r.value.detail == DatabasePlaceholder
    ensures r.Err? ==> r.error == ParseErrorPrefix + s
  {
    match s
    case "MissingEmail" => Ok(MissingEmail)
    case "InvalidEmailFormat" => Ok(InvalidEmailFormat)
    case "EmailTooLong" => Ok(EmailTooLong)
    case "MessageTooLong" => Ok(MessageTooLong)
    case "MissingMessage" => Ok(MissingMessage)
    case "TermsNotAccepted" => Ok(TermsNotAccepted)
    case "DatabaseError" => Ok(DatabaseError(DatabasePlaceholder))
    case _ => Err(ParseErrorPrefix + s)
  }

  /** Parsing an identifier gives back an error of the same variant. */
  lemma {:induction false} FromStrIdentifierRoundTrip(e: ContactFormError)
    ensures FromStr(Identifier(e)).Ok?
    ensures Discriminant(FromStr(Identifier(e)).value) == Discriminant(e)
    ensures !e.DatabaseError? ==> FromStr(Identifier(e)) == Ok(e)
    ensures e.DatabaseError? ==> FromStr(Identifier(e)) == Ok(DatabaseError(DatabasePlaceholder))
  {
  }

  /** `FromStr` accepts exactly the seven identifiers, and each of them is some error's identifier. */
  lemma {:induction false} FromStrAcceptsExactlyIdentifiers(s: string)
    ensures FromStr(s).Ok? <==> s in Identifiers
    ensures FromStr(s).Ok? <==> exists e :: Identifier(e) == s
  {
    if exists e :: Identifier(e) == s {
      var e :| Identifier(e) == s;
      FromStrIdentifierRoundTrip(e);
    }
    if FromStr(s).Ok? {
      assert Identifier(FromStr(s).value) == s;
    }
  }

  /** The identifier is a function of the variant alone. */
  lemma {:induction false} IdentifierDependsOnlyOnTag(a: ContactFormError, b: ContactFormError)
    ensures Discriminant(a) == Discriminant(b) ==> Identifier(a) == Identifier(b)
    ensures forall d :: Identifier(DatabaseError(d)) == "DatabaseError"
  {
  }

  /** Distinct variants have distinct identifiers. */
  lemma {:induction false} IdentifierInjectiveOnTags(a: ContactFormError, b: ContactFormError)
    ensures Identifier(a) == Identifier(b) <==> Discriminant(a) == Discriminant(b)
  {
    if Identifier(a) == Identifier(b) {
      FromStrIdentifierRoundTrip(a);
      FromStrIdentifierRoundTrip(b);
    }
  }

  /**
   * The user message is fixed per field-related variant, a database error's
   * message is the server-error prefix followed by the detail, and the message
   * determines the error (so no two errors read alike).
   */
  lemma {:induction false} UserMessageDeterminesError(a: ContactFormError, b: ContactFormError)
    ensures a.DatabaseError? ==> ServerErrorPrefix <= UserMessage(a)
                                 && UserMessage(a)[|ServerErrorPrefix|..] == a.detail
    ensures !a.DatabaseError? ==> !(ServerErrorPrefix <= UserMessage(a))
    ensures UserMessage(a) == UserMessage(b) ==> a == b
  {
    assert ServerErrorPrefix[0] == 'E' && ServerErrorPrefix[1] == 't';
    var ha, la := FixedMessageShape(a);
    var hb, lb := FixedMessageShape(b);
    if UserMessage(a) == UserMessage(b) {
      if a.DatabaseError? && b.DatabaseError? {
        assert a.detail == UserMessage(a)[|ServerErrorPrefix|..];
      }
    }
  }

  /**
   * Proof helpers for `UserMessageDeterminesError`. Comparing whole Swedish
   * literals character by character is costly for the verifier, so the six
   * fixed messages are told apart by their first character and their length
   * (`MessageShape`; `EmailTooLongHead` separates "E-..." from "Et..."), and
   * the longest messages in `UserMessage` are written in two pieces.
   * `FixedMessageShape` gives each fixed message's shape and shows that none
   * starts with the "Et" of the server-error prefix.
   */
  lemma FixedMessageShape(e: ContactFormError) returns (head: char, length: nat)
    ensures !e.DatabaseError? ==> |UserMessage(e)| == length > 1 && UserMessage(e)[0] == head
    ensures !e.DatabaseError? ==> UserMessage(e)[0] != 'E' || UserMessage(e)[1] != 't'
    ensures !e.DatabaseError? ==> (head, length) == MessageShape(e)
  {
    match e
    case MissingEmail => head, length := 'A', 21;
    case InvalidEmailFormat => head, length := 'A', 28;
    case EmailTooLong => head, length := 'E', 44; EmailTooLongHead();
    case MessageTooLong => head, length := 'M', 43;
    case MissingMessage => head, length := 'M', 31;
    case TermsNotAccepted => head, length := 'D', 56;
    case DatabaseError(_) => head, length := 'E', 0;
  }

  /** The (first character, length) of each fixed message; no two variants share one. */
  function MessageShape(e: ContactFormError): (char, nat) {
    match e
    case MissingEmail => ('A', 21)
    case InvalidEmailFormat => ('A', 28)
    case EmailTooLong => ('E', 44)
    case MessageTooLong => ('M', 43)
    case MissingMessage => ('M', 31)
    case TermsNotAccepted => ('D', 56)
    case DatabaseError(_) => ('E', 0)
  }

  lemma EmailTooLongHead()
    ensures UserMessage(EmailTooLong)[1] == '-'
  {
  }

  /**
   * The outside errors a server function may raise (`ServerFnError` and
   * `ServerFnErrorErr`, whose conversions are identical): a `ServerError`
   * carrying a message, or any other variant, kept as its `Display` text.
   */
  datatype ServerFnError = ServerError(message: string) | OtherServerFnError(display: string)

  /** `From<ServerFnError>` and `from_server_fn_error`. */
  function FromServerFnError(e: ServerFnError): ContactFormError {
    match e
    case ServerError(s) => DatabaseError(s)
    case OtherServerFnError(text) => DatabaseError(text)
  }

  /** `From<sqlx::Error>`; the error's text is an opaque string. */
  function FromSqlxError(display: string): ContactFormError {
    DatabaseError(display)
  }

  /** Every framework error becomes a `DatabaseError`; a `ServerError` keeps its message, any other variant its display text. */
  lemma {:induction false} FrameworkErrorsAreDatabaseErrors(e: ServerFnError, sqlx: string)
    ensures FromServerFnError(e).DatabaseError?
    ensures e.ServerError? ==> FromServerFnError(e).detail == e.message
    ensures e.OtherServerFnError? ==> FromServerFnError(e).detail == e.display
    ensures FromSqlxError(sqlx).DatabaseError? && FromSqlxError(sqlx).detail == sqlx
  {
  }
}
