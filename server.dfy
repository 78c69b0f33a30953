/**
 * The server side of a submission (`store_contact_form`, src/contact.rs):
 * six ordered checks with early return, the redirect that encodes the first
 * failure, the single INSERT of the trimmed fields, and the choice between a
 * success redirect and a structured success driven by the Accept header.
 * The request headers and the database are inputs describing what the
 * transport and the datastore did; the redirect and the INSERT are outputs.
 */
module Server {
  import opened Wrappers
  import opened Text
  import opened Errors

  /** The form fields as posted; a checkbox sends its value only when checked. */
  datatype ContactFormData = ContactFormData(message: string, email: string, terms: Option<string>)

  /** The row handed to `INSERT INTO emails (email, message)`. */
  datatype StoredContact = StoredContact(email: string, message: string)

  /** Limits on the trimmed fields, in UTF-8 bytes. */
  const MaxEmailBytes: nat := 254
  const MaxMessageBytes: nat := 5000

  /** The six server checks. */
  datatype Check = EmailPresent | MessagePresent | TermsPresent | EmailLength | MessageLength | EmailShape

  /** The order in which the checks run; the first failing one decides the error. */
  const CheckOrder: seq<Check> := [EmailPresent, MessagePresent, TermsPresent, EmailLength, MessageLength, EmailShape]

  /** Contains an '@' and neither starts nor ends with one. */
  predicate ValidEmailShape(t: string) {
    '@' in t && !StartsWithChar(t, '@') && !EndsWithChar(t, '@')
  }

  predicate Passes(c: Check, d: ContactFormData) {
    match c
    case EmailPresent => Trim(d.email) != []
    case MessagePresent => Trim(d.message) != []
    case TermsPresent => d.terms.Some?
    case EmailLength => ByteLen(Trim(d.email)) <= MaxEmailBytes
    case MessageLength => ByteLen(Trim(d.message)) <= MaxMessageBytes
    case EmailShape => ValidEmailShape(Trim(d.email))
  }

  /** The error a failing check reports. */
  function ErrorFor(c: Check): ContactFormError {
    match c
    case EmailPresent => MissingEmail
    case MessagePresent => MissingMessage
    case TermsPresent => TermsNotAccepted
    case EmailLength => EmailTooLong
    case MessageLength => MessageTooLong
    case EmailShape => InvalidEmailFormat
  }

  /** Reference semantics of an ordered rule list: the first rule that fails, if any. */
  function FirstFailing(checks: seq<Check>, d: ContactFormData): Option<Check> {
    if checks == [] then None
    else if !Passes(checks[0], d) then Some(checks[0])
    else FirstFailing(checks[1..], d)
  }

  /** Check `i` is the first of `checks` to fail on `d`. */
  predicate FailsFirstAt(checks: seq<Check>, d: ContactFormData, i: int) {
    0 <= i < |checks| && !Passes(checks[i], d) && forall j :: 0 <= j < i ==> Passes(checks[j], d)
  }

  lemma {:induction false} FirstFailingSpec(checks: seq<Check>, d: ContactFormData)
    ensures FirstFailing(checks, d).None? <==> forall j :: 0 <= j < |checks| ==> Passes(checks[j], d)
    ensures forall i :: FailsFirstAt(checks, d, i) ==> FirstFailing(checks, d) == Some(checks[i])
  {
    if checks != [] {
      FirstFailingSpec(checks[1..], d);
      forall i | FailsFirstAt(checks, d, i) ensures FirstFailing(checks, d) == Some(checks[i]) {
        if i > 0 {
          assert Passes(checks[0], d);
          assert FailsFirstAt(checks[1..], d, i - 1) by {
            forall j | 0 <= j < i - 1 ensures Passes(checks[1..][j], d) {
              assert checks[1..][j] == checks[j + 1];
            }
          }
        }
      }
      if forall j :: 0 <= j < |checks| - 1 ==> Passes(checks[1..][j], d) {
        if Passes(checks[0], d) {
          forall j | 0 <= j < |checks| ensures Passes(checks[j], d) {
            if j > 0 { assert checks[j] == checks[1..][j - 1]; }
          }
        }
      } else {
        var j :| 0 <= j < |checks| - 1 && !Passes(checks[1..][j], d);
        assert !Passes(checks[j + 1], d);
      }
    }
  }

  /**
   * The validation chain (src/contact.rs:257-298) on the trimmed fields.
   * `None` means every check passed.
   */
  function Validate(d: ContactFormData): (r: Option<ContactFormError>)
    ensures r.Some? ==> !r.value.DatabaseError?
  {
    var email := Trim(d.email);
    var message := Trim(d.message);
    if email == [] then Some(MissingEmail)
    else if message == [] then Some(MissingMessage)
    else if d.terms.None? then Some(TermsNotAccepted)
    else if ByteLen(email) > MaxEmailBytes then Some(EmailTooLong)
    else if ByteLen(message) > MaxMessageBytes then Some(MessageTooLong)
    else if !ValidEmailShape(email) then Some(InvalidEmailFormat)
    else None
  }

  /** The straight-line chain agrees with the ordered rule list. */
  lemma {:induction false} ValidateFollowsCheckOrder(d: ContactFormData)
    ensures Validate(d) == (match FirstFailing(CheckOrder, d) case None => None case Some(c) => Some(ErrorFor(c)))
  {
    var c1 := [MessagePresent, TermsPresent, EmailLength, MessageLength, EmailShape];
    var c2 := [TermsPresent, EmailLength, MessageLength, EmailShape];
    var c3 := [EmailLength, MessageLength, EmailShape];
    var c4 := [MessageLength, EmailShape];
    var c5 := [EmailShape];
    assert CheckOrder[1..] == c1 && c1[1..] == c2 && c2[1..] == c3 && c3[1..] == c4 && c4[1..] == c5 && c5[1..] == [];
    assert FirstFailing(CheckOrder, d) == if !Passes(EmailPresent, d) then Some(EmailPresent) else FirstFailing(c1, d);
    assert FirstFailing(c1, d) == if !Passes(MessagePresent, d) then Some(MessagePresent) else FirstFailing(c2, d);
    assert FirstFailing(c2, d) == if !Passes(TermsPresent, d) then Some(TermsPresent) else FirstFailing(c3, d);
    assert FirstFailing(c3, d) == if !Passes(EmailLength, d) then Some(EmailLength) else FirstFailing(c4, d);
    assert FirstFailing(c4, d) == if !Passes(MessageLength, d) then Some(MessageLength) else FirstFailing(c5, d);
    assert FirstFailing(c5, d) == if !Passes(EmailShape, d) then Some(EmailShape) else None;
  }

  /**
   * The reported error is the one of the first failing check, in both
   * directions; and nothing is reported exactly when every check passes.
   */
  lemma {:induction false} ValidateReportsFirstFailure(d: ContactFormData, i: nat)
    requires i < |CheckOrder|
    ensures Validate(d) == Some(ErrorFor(CheckOrder[i])) <==> FailsFirstAt(CheckOrder, d, i)
    ensures Validate(d).None? <==> forall j :: 0 <= j < |CheckOrder| ==> Passes(CheckOrder[j], d)
  {
    FirstFailingSpec(CheckOrder, d);
    ValidateFollowsCheckOrder(d);
    if Validate(d) == Some(ErrorFor(CheckOrder[i])) {
      var k :| FailsFirstAt(CheckOrder, d, k) by {
        var j :| 0 <= j < |CheckOrder| && !Passes(CheckOrder[j], d);
        var k := FirstFailedIndex(CheckOrder, d, j);
      }
      assert FirstFailing(CheckOrder, d) == Some(CheckOrder[k]);
      ChecksReportDistinctErrors(i, k);
    }
  }

  /** Different checks of the order report different errors. */
  lemma ChecksReportDistinctErrors(i: nat, k: nat)
    requires i < |CheckOrder| && k < |CheckOrder|
    ensures ErrorFor(CheckOrder[i]) == ErrorFor(CheckOrder[k]) ==> i == k
  {
  }

  /** Some check at or before a failing check `j` is the first to fail. */
  lemma {:induction false} FirstFailedIndex(checks: seq<Check>, d: ContactFormData, j: int) returns (k: int)
    requires 0 <= j < |checks| && !Passes(checks[j], d)
    ensures 0 <= k <= j && FailsFirstAt(checks, d, k)
    decreases j
  {
    if forall m :: 0 <= m < j ==> Passes(checks[m], d) {
      k := j;
    } else {
      var m :| 0 <= m < j && !Passes(checks[m], d);
      k := FirstFailedIndex(checks, d, m);
    }
  }

  /** `http::HeaderValue::to_str`: succeeds when the value is visible ASCII or tabs. */
  function HeaderToStr(v: string): Option<string> {
    if forall i :: 0 <= i < |v| ==> v[i] == '\t' || (' ' <= v[i] && v[i] <= '~') then Some(v) else None
  }

  const JsonMediaType: string := "application/json"

  /**
   * The "reactive client" test on the first Accept header value (`None` when
   * the request has none): readable as text and containing "application/json".
   */
  function AcceptsJson(accept: Option<string>): bool {
    match accept
    case None => false
    case Some(v) =>
      match HeaderToStr(v)
      case None => false
      case Some(s) => ContainsSubstring(s, JsonMediaType)
  }

  lemma {:induction false} AcceptsJsonIff(accept: Option<string>)
    ensures AcceptsJson(accept) <==>
            accept.Some? && HeaderToStr(accept.value).Some? && exists i :: OccursAt(accept.value, JsonMediaType, i)
  {
    if accept.Some? {
      ContainsSubstringIff(accept.value, JsonMediaType);
    }
  }

  /** Redirect target that reports `e` to the page's contact section. */
  function ErrorRedirect(e: ContactFormError): string {
    "/?error=" + Identifier(e) + "#contact"
  }

  const SuccessRedirect: string := "/?status=success#contact"

  /** A database error of any detail redirects to the same target. */
  lemma DatabaseErrorRedirect(detail: string)
    ensures ErrorRedirect(DatabaseError(detail)) == "/?error=DatabaseError#contact"
  {
  }

  /** Detail of the error returned when no connection can be opened. */
  const ConnectFailureDetail: string := "Kunde inte ansluta till databasen."

  /** What header extraction produced: a failure, or the first Accept value if any. */
  datatype Headers = ExtractFailed(cause: ServerFnError) | Extracted(accept: Option<string>)

  /** What the datastore did. */
  datatype DbOutcome = ConnectFailed | InsertFailed(sqlxError: string) | InsertSucceeded

  /**
   * Everything a call produces: the function's result, the redirect it
   * registered (if any), and the INSERT it issued (if any).
   */
  datatype Response = Response(result: Result<(), ContactFormError>, redirect: Option<string>, insert: Option<StoredContact>)

  /**
   * The part of `store_contact_form` after validation (src/contact.rs:307-343):
   * header extraction, connection, and the INSERT of `row`.
   */
  function Persist(row: StoredContact, headers: Headers, db: DbOutcome): (r: Response)
    ensures r.insert.Some? <==> headers.Extracted? && !db.ConnectFailed?
    ensures r.insert.Some? ==> r.insert.value == row
    ensures r.result.Ok? <==> r.insert.Some? && db.InsertSucceeded?
    ensures r.result.Ok? ==> r.redirect == (if AcceptsJson(headers.accept) then None else Some(SuccessRedirect))
    ensures r.result.Err? ==>
              r.result.error.DatabaseError? &&
              r.redirect == (if headers.ExtractFailed? then None else Some(ErrorRedirect(r.result.error)))
    ensures headers.ExtractFailed? ==> r.result == Err(FromServerFnError(headers.cause))
    ensures headers.Extracted? && db.ConnectFailed? ==> r.result == Err(DatabaseError(ConnectFailureDetail))
    ensures headers.Extracted? && db.InsertFailed? ==> r.result == Err(FromSqlxError(db.sqlxError))
  {
    match headers
    case ExtractFailed(cause) => Response(Err(FromServerFnError(cause)), None, None)
    case Extracted(accept) =>
      var acceptsJson := AcceptsJson(accept);
      assert forall x :: ErrorRedirect(DatabaseError(x)) == "/?error=DatabaseError#contact";
      match db
      case ConnectFailed =>
        Response(Err(DatabaseError(ConnectFailureDetail)), Some("/?error=DatabaseError#contact"), None)
      case InsertFailed(x) =>
        Response(Err(FromSqlxError(x)), Some("/?error=DatabaseError#contact"), Some(row))
      case InsertSucceeded =>
        Response(Ok(()), if !acceptsJson then Some(SuccessRedirect) else None, Some(row))
  }

  /**
   * `store_contact_form`. A validation failure returns the error and redirects
   * with its identifier, with no INSERT; otherwise the trimmed fields are
   * inserted once a connection is open, and only a successful insert gives
   * `Ok`, with a success redirect exactly for clients that do not accept JSON.
   */
  function StoreContactForm(d: ContactFormData, headers: Headers, db: DbOutcome): (r: Response)
    ensures Validate(d).Some? ==>
              r == Response(Err(Validate(d).value), Some(ErrorRedirect(Validate(d).value)), None)
    ensures r.insert.Some? <==> Validate(d).None? && headers.Extracted? && !db.ConnectFailed?
    ensures r.insert.Some? ==> r.insert.value == StoredContact(Trim(d.email), Trim(d.message))
    ensures r.result.Ok? <==> r.insert.Some? && db.InsertSucceeded?
    ensures r.result.Ok? ==> r.redirect == (if AcceptsJson(headers.accept) then None else Some(SuccessRedirect))
    ensures Validate(d).None? && r.result.Err? ==>
              r.result.error.DatabaseError? &&
              r.redirect == (if headers.ExtractFailed? then None else Some(ErrorRedirect(r.result.error)))
    ensures Validate(d).None? && headers.ExtractFailed? ==> r.result == Err(FromServerFnError(headers.cause))
    ensures Validate(d).None? && headers.Extracted? && db.ConnectFailed? ==>
              r.result == Err(DatabaseError(ConnectFailureDetail))
    ensures Validate(d).None? && headers.Extracted? && db.InsertFailed? ==>
              r.result == Err(FromSqlxError(db.sqlxError))
  {
    match Validate(d)
    case Some(e) => Response(Err(e), Some(ErrorRedirect(e)), None)
    case None => Persist(StoredContact(Trim(d.email), Trim(d.message)), headers, db)
  }

  // Sample submissions and boundaries

  /** Fields present and within the limits, with the terms accepted: only the address shape decides. */
  lemma WithinLimits(message: string, email: string, terms: string)
    requires Trim(message) != [] && ByteLen(Trim(message)) <= MaxMessageBytes
    requires Trim(email) != [] && ByteLen(Trim(email)) <= MaxEmailBytes
    ensures Validate(ContactFormData(message, email, Some(terms)))
            == if ValidEmailShape(Trim(email)) then None else Some(InvalidEmailFormat)
  {
  }

  /** The sample submission "Hej!" from a@b.se, terms checked, passes every check and is already trimmed. */
  lemma SampleSubmissionIsValid()
    ensures var d := ContactFormData("Hej!", "a@b.se", Some("on"));
            Validate(d) == None && Trim(d.email) == "a@b.se" && Trim(d.message) == "Hej!"
  {
    PlainText("Hej!");
    PlainText("a@b.se");
    SampleAddressShape();
    WithinLimits("Hej!", "a@b.se", "on");
  }

  lemma SampleAddressShape()
    ensures ValidEmailShape("a@b.se")
  {
    assert "a@b.se"[1] == '@';
  }

  /** What a submission that passes validation leads to, by datastore outcome. */
  lemma AcceptedSubmission(d: ContactFormData, accept: Option<string>, db: DbOutcome)
    requires Validate(d) == None
    ensures var r := StoreContactForm(d, Extracted(accept), db);
            && (db.InsertSucceeded? ==> r.result == Ok(()))
            && (db.InsertSucceeded? ==> r.redirect == (if AcceptsJson(accept) then None else Some(SuccessRedirect)))
            && (!db.ConnectFailed? ==> r.insert == Some(StoredContact(Trim(d.email), Trim(d.message))))
            && (db.ConnectFailed? ==> r.insert == None && r.result == Err(DatabaseError(ConnectFailureDetail)))
            && (!db.InsertSucceeded? ==> r.redirect == Some(ErrorRedirect(r.result.error)))
  {
  }

  /** The sample submission is inserted as typed and answered by content type. */
  lemma SampleSubmissionStored(accept: Option<string>)
    ensures var r := StoreContactForm(ContactFormData("Hej!", "a@b.se", Some("on")), Extracted(accept), InsertSucceeded);
            && r.result == Ok(())
            && r.insert == Some(StoredContact("a@b.se", "Hej!"))
            && (r.redirect.Some? <==> !AcceptsJson(accept))
            && (r.redirect.Some? ==> r.redirect.value == "/?status=success#contact")
  {
    SampleSubmissionIsValid();
    AcceptedSubmission(ContactFormData("Hej!", "a@b.se", Some("on")), accept, InsertSucceeded);
  }

  /** What a submission that fails validation leads to, whatever the datastore would do. */
  lemma RejectedSubmission(d: ContactFormData, headers: Headers, db: DbOutcome, e: ContactFormError)
    requires Validate(d) == Some(e)
    ensures StoreContactForm(d, headers, db) == Response(Err(e), Some(ErrorRedirect(e)), None)
  {
  }

  lemma EmptyMessageIsRejected()
    ensures Validate(ContactFormData("", "a@b.se", Some("on"))) == Some(MissingMessage)
  {
    PlainText("a@b.se");
    assert Trim("") == "";
  }

  lemma MissingMessageRedirect()
    ensures ErrorRedirect(MissingMessage) == "/?error=MissingMessage#contact"
  {
  }

  /** An empty message is reported and nothing is inserted. */
  lemma EmptyMessageSubmission(headers: Headers, db: DbOutcome)
    ensures StoreContactForm(ContactFormData("", "a@b.se", Some("on")), headers, db)
            == Response(Err(MissingMessage), Some("/?error=MissingMessage#contact"), None)
  {
    EmptyMessageIsRejected();
    RejectedSubmission(ContactFormData("", "a@b.se", Some("on")), headers, db, MissingMessage);
    MissingMessageRedirect();
  }

  lemma MalformedEmailIsRejected()
    ensures Validate(ContactFormData("hi", "not-an-email", Some("on"))) == Some(InvalidEmailFormat)
  {
    PlainText("hi");
    MalformedAddressTrims();
    MalformedAddressHasNoAt();
    WithinLimits("hi", "not-an-email", "on");
  }

  lemma MalformedAddressTrims()
    ensures Trim("not-an-email") == "not-an-email" && ByteLen("not-an-email") == 12
  {
    PlainText("not-an-email");
  }

  lemma MalformedAddressHasNoAt()
    ensures !ValidEmailShape("not-an-email")
  {
    assert !('@' in "not-an-email");
  }

  lemma InvalidEmailFormatRedirect()
    ensures ErrorRedirect(InvalidEmailFormat) == "/?error=InvalidEmailFormat#contact"
  {
  }

  /** An address without '@' passes the earlier checks and fails the shape check. */
  lemma MalformedEmailSubmission(headers: Headers, db: DbOutcome)
    ensures StoreContactForm(ContactFormData("hi", "not-an-email", Some("on")), headers, db)
            == Response(Err(InvalidEmailFormat), Some("/?error=InvalidEmailFormat#contact"), None)
  {
    MalformedEmailIsRejected();
    RejectedSubmission(ContactFormData("hi", "not-an-email", Some("on")), headers, db, InvalidEmailFormat);
    InvalidEmailFormatRedirect();
  }

  /** The sample submission with the datastore unreachable: the error is generic and no INSERT is issued. */
  lemma UnreachableDatastore(accept: Option<string>)
    ensures var r := StoreContactForm(ContactFormData("Hej!", "a@b.se", Some("on")), Extracted(accept), ConnectFailed);
            && r.result.Err? && r.result.error.DatabaseError?
            && r.redirect == Some("/?error=DatabaseError#contact")
            && r.insert == None
  {
    SampleSubmissionIsValid();
    AcceptedSubmission(ContactFormData("Hej!", "a@b.se", Some("on")), accept, ConnectFailed);
    DatabaseErrorRedirect(ConnectFailureDetail);
  }

  /** Several violations at once: the earliest check wins. */
  lemma EverythingMissing(headers: Headers, db: DbOutcome)
    ensures StoreContactForm(ContactFormData("  ", "", None), headers, db).result == Err(MissingEmail)
  {
  }

  /**
   * An address of `k` letters followed by "@example.com" is `k + 12` bytes
   * long: beside any acceptable message it passes up to 254 bytes
   * (`k == 242`) and fails from 255 bytes on.
   */
  lemma EmailLengthBoundary(k: nat, message: string, terms: string)
    requires k > 0
    requires Trim(message) != [] && ByteLen(Trim(message)) <= MaxMessageBytes
    ensures Validate(ContactFormData(message, Repeat('a', k) + "@example.com", Some(terms)))
            == if k + 12 <= 254 then None else Some(EmailTooLong)
  {
    LongAddress(k);
  }

  /**
   * A message of `n` letters passes up to 5000 bytes and fails from 5001 on,
   * beside any acceptable address.
   */
  lemma MessageLengthBoundary(n: nat, email: string, terms: string)
    requires n > 0
    requires Trim(email) != [] && ByteLen(Trim(email)) <= MaxEmailBytes && ValidEmailShape(Trim(email))
    ensures Validate(ContactFormData(Repeat('a', n), email, Some(terms)))
            == if n <= 5000 then None else Some(MessageTooLong)
  {
    PlainText(Repeat('a', n));
  }

  /** A string of letters and punctuation trims to itself and has one byte per character. */
  lemma PlainText(s: string)
    requires IsAscii(s)
    requires s == [] || (!IsWhitespace(s[0]) && !IsWhitespace(s[|s| - 1]))
    ensures Trim(s) == s && ByteLen(s) == |s|
  {
    TrimOfTrimmed(s);
    ByteLenAscii(s);
  }

  /** `k` letters followed by "@example.com": well shaped, and `k + 12` bytes long. */
  lemma LongAddress(k: nat)
    requires k > 0
    ensures var s := Repeat('a', k) + "@example.com";
            Trim(s) == s && ByteLen(s) == k + 12 && ValidEmailShape(s)
  {
    var s := Repeat('a', k) + "@example.com";
    assert s[k] == '@';
    PlainText(s);
  }
}
