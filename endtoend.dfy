/**
 * How the server side and the browser side of the contact form meet. With
 * scripts off, the browser follows the redirect `StoreContactForm`
 * produced and the reloaded page seeds the form from the URL's query. With
 * scripts on, the form controller posts the fields and receives the
 * function's result. The browser-test flows are stated here over the model.
 */
module EndToEnd {
  import opened Wrappers
  import opened Text
  import opened Errors
  import opened Server
  import opened Client

  // The router's view of a redirect target

  /** The part of `s` before the first `c` (all of `s` when there is none). */
  function BeforeFirst(s: string, c: char): (r: string)
    ensures r <= s
  {
    if s == [] || s[0] == c then [] else [s[0]] + BeforeFirst(s[1..], c)
  }

  /** The part of `s` after the first `c` (nothing when there is none). */
  function AfterFirst(s: string, c: char): (r: string)
    ensures |r| < |s| || r == []
    ensures r == s[|s| - |r|..]
    ensures !(c in s) ==> r == []
  {
    if s == [] then [] else if s[0] == c then s[1..] else AfterFirst(s[1..], c)
  }

  /** Splitting at the first `c` undoes joining with a `c` that `a` does not contain. */
  lemma {:induction false} SplitAtFirst(a: string, c: char, b: string)
    requires !(c in a)
    ensures BeforeFirst(a + [c] + b, c) == a
    ensures AfterFirst(a + [c] + b, c) == b
  {
    if a == [] {
      assert a + [c] + b == [c] + b;
    } else {
      assert (a + [c] + b)[1..] == a[1..] + [c] + b;
      SplitAtFirst(a[1..], c, b);
    }
  }

  /**
   * The query parameters of a same-site target of the form
   * "/?key=value#fragment" with one parameter; any other target has none.
   */
  function QueryOf(url: string): map<string, string> {
    if |url| >= 2 && url[..2] == "/?" then
      var query := BeforeFirst(url[2..], '#');
      if '=' in query then map[BeforeFirst(query, '=') := AfterFirst(query, '=')] else map[query := ""]
    else
      map[]
  }

  lemma LettersLack(s: string, c: char)
    requires forall i :: 0 <= i < |s| ==> IsAsciiLetter(s[i])
    requires !IsAsciiLetter(c)
    ensures !(c in s)
  {
  }

  /** The query of "/?key=value#fragment", for a key and a value made of plain letters. */
  lemma {:induction false} QueryOfSingleParameter(key: string, value: string, fragment: string)
    requires forall i :: 0 <= i < |key| ==> IsAsciiLetter(key[i])
    requires forall i :: 0 <= i < |value| ==> IsAsciiLetter(value[i])
    ensures QueryOf("/?" + key + "=" + value + "#" + fragment) == map[key := value]
  {
    var url := "/?" + key + "=" + value + "#" + fragment;
    var query := key + "=" + value;
    assert url[..2] == "/?";
    assert url[2..] == query + ['#'] + fragment;
    LettersLack(key, '#');
    LettersLack(value, '#');
    SplitAtFirst(query, '#', fragment);
    assert query == key + ['='] + value;
    LettersLack(key, '=');
    SplitAtFirst(key, '=', value);
  }

  // Scripts off: the redirect seeds the reloaded form

  /** The error redirect carries the error's identifier under `error`, and nothing else. */
  lemma ErrorRedirectQuery(e: ContactFormError)
    ensures QueryOf(ErrorRedirect(e)) == map["error" := Identifier(e)]
  {
    assert ErrorRedirect(e) == "/?" + "error" + "=" + Identifier(e) + "#" + "contact";
    QueryOfSingleParameter("error", Identifier(e), "contact");
  }

  /** The success redirect carries `status=success`, and nothing else. */
  lemma SuccessRedirectQuery()
    ensures QueryOf(SuccessRedirect) == map["status" := "success"]
  {
    assert SuccessRedirect == "/?" + "status=success#contact";
    assert SuccessRedirect == "/?" + "status" + "=" + "success" + "#" + "contact";
    QueryOfSingleParameter("status", "success", "contact");
  }

  /**
   * The reloaded form after an error redirect displays an error of the same
   * variant (the same error unless it is a database error, whose detail is
   * not in the URL) and no success text.
   */
  lemma ErrorRedirectSeedsError(e: ContactFormError)
    ensures var seeded := InitialError(QueryOf(ErrorRedirect(e)));
            && seeded.Some? && Discriminant(seeded.value) == Discriminant(e)
            && (!e.DatabaseError? ==> seeded == Some(e))
            && (e.DatabaseError? ==> seeded == Some(DatabaseError(DatabasePlaceholder)))
    ensures InitialSuccessMessage(QueryOf(ErrorRedirect(e))).None?
  {
    ErrorRedirectQuery(e);
    var q := map["error" := Identifier(e)];
    assert "status" !in q;
    FromStrIdentifierRoundTrip(e);
    assert InitialError(q) == FromStr(Identifier(e)).ToOption();
  }

  /** The success redirect makes the reloaded form show the success text and no error. */
  lemma SuccessRedirectSeedsSuccess()
    ensures InitialSuccessMessage(QueryOf(SuccessRedirect)) == Some(SuccessText)
    ensures InitialError(QueryOf(SuccessRedirect)) == None
  {
    SuccessRedirectQuery();
    assert "error" !in map["status" := "success"];
  }

  /**
   * A scripts-off submission ends on a page whose seeded state reports the
   * function's result: the success text for `Ok`, an error of the same
   * variant for `Err` (when there is a redirect at all).
   */
  lemma {:induction false} ScriptlessResultReachesTheForm(d: ContactFormData, headers: Headers, db: DbOutcome)
    ensures var r := StoreContactForm(d, headers, db);
            r.redirect.Some? ==>
              var q := QueryOf(r.redirect.value);
              && (r.result.Ok? ==> InitialSuccessMessage(q) == Some(SuccessText) && InitialError(q) == None)
              && (r.result.Err? ==> InitialSuccessMessage(q) == None && InitialError(q).Some?
                                    && Discriminant(InitialError(q).value) == Discriminant(r.result.error))
  {
    var r := StoreContactForm(d, headers, db);
    if r.redirect.Some? {
      if r.result.Ok? {
        SuccessRedirectSeedsSuccess();
      } else {
        ErrorRedirectSeedsError(r.result.error);
      }
    }
  }

  /**
   * With scripts off, a submission the server rejects reloads the page with
   * the error's user message in the slot the error belongs to, and no success
   * text. The form is the server-rendered one, so its submit control is enabled.
   */
  method ScriptlessRejection(d: ContactFormData, headers: Headers, db: DbOutcome) returns (form: InteractiveContactForm)
    requires Validate(d).Some?
    ensures form.Valid() && !form.Hydrated() && !form.SubmitDisabled()
    ensures !form.ShowMessageHint() && !form.ShowEmailHint()
    ensures form.displayedError == Validate(d)
    ensures !form.ShowSuccess()
    ensures MessageFieldShowsError(Validate(d)) ==> form.MessageFieldError() == Some(UserMessage(Validate(d).value))
    ensures EmailFieldShowsError(Validate(d)) ==> form.EmailFieldError() == Some(UserMessage(Validate(d).value))
    ensures TermsFieldShowsError(Validate(d)) ==> form.TermsFieldError() == Some(UserMessage(Validate(d).value))
    ensures form.GeneralError() == None
  {
    var r := StoreContactForm(d, headers, db);
    var e := Validate(d).value;
    ErrorRedirectSeedsError(e);
    form := new InteractiveContactForm(InitialSuccessMessage(QueryOf(r.redirect.value)), InitialError(QueryOf(r.redirect.value)));
    ErrorPlacement(form.displayedError);
  }

  lemma MissingEmailMessage()
    ensures UserMessage(MissingEmail) == "Ange en email-adress."
  {
  }

  /** The browser test for a missing address with scripts off: the e-mail slot shows its message. */
  method ScriptlessMissingEmail(message: string, headers: Headers, db: DbOutcome) returns (form: InteractiveContactForm)
    ensures form.EmailFieldError() == Some("Ange en email-adress.")
    ensures form.MessageFieldError() == None && form.TermsFieldError() == None && form.GeneralError() == None
    ensures !form.ShowSuccess() && !form.ShowMessageHint() && !form.ShowEmailHint()
  {
    var d := ContactFormData(message, "", Some("on"));
    assert Validate(d) == Some(MissingEmail);
    form := ScriptlessRejection(d, headers, db);
    MissingEmailMessage();
  }

  /** With scripts off, an accepted submission reloads the page showing the success text and no error. */
  method ScriptlessSuccess(d: ContactFormData, accept: Option<string>) returns (form: InteractiveContactForm)
    requires Validate(d) == None && !AcceptsJson(accept)
    ensures form.displayedSuccessMessage == SuccessText && form.ShowSuccess()
    ensures form.displayedError == None
  {
    var r := StoreContactForm(d, Extracted(accept), InsertSucceeded);
    SuccessRedirectSeedsSuccess();
    form := new InteractiveContactForm(InitialSuccessMessage(QueryOf(r.redirect.value)), InitialError(QueryOf(r.redirect.value)));
  }

  // Scripts on: the controller posts and receives the result

  /** A freshly loaded page in a browser with scripts on: submit starts disabled and nothing is shown. */
  method LoadPage() returns (form: InteractiveContactForm)
    ensures fresh(form)
    ensures form.Valid() && form.Hydrated()
    ensures form.SubmitDisabled() && !form.ShowSuccess() && form.displayedError == None
    ensures form.Inputs() == ("", "", false) && !form.pending
  {
    form := new InteractiveContactForm(None, None);
    form.Hydrate();
  }

  /**
   * The browser tests' `fillForm`: set the terms box, type the message, move
   * on to the address field (leaving the message field), type the address
   * and leave that field too.
   */
  method FillForm(form: InteractiveContactForm, message: string, email: string, terms: bool)
    requires form.Valid() && form.Hydrated() && !form.pending
    modifies form
    ensures form.Valid() && form.Hydrated() && !form.pending
    ensures form.Inputs() == (message, email, terms)
    ensures form.messageTouched && form.emailTouched
    ensures form.displayedSuccessMessage == old(form.displayedSuccessMessage)
    ensures form.SubmitDisabled() <==> !ClientValid(message, email, terms)
  {
    form.SetTerms(terms);
    form.EditMessage(message);
    form.BlurMessage();
    form.EditEmail(email);
    form.BlurEmail();
  }

  /**
   * Filling the form with what the client accepts enables submit; posting it
   * disables every control until the result arrives; the server's result
   * then either clears the form and shows the success text, or puts the
   * error in its slot and keeps what was typed.
   */
  method ScriptedSubmission(message: string, email: string, accept: Option<string>, db: DbOutcome)
    returns (form: InteractiveContactForm, r: Response)
    requires ClientValid(message, email, true)
    ensures fresh(form)
    ensures r == StoreContactForm(ContactFormData(message, email, Some("on")), Extracted(accept), db)
    ensures form.Valid() && form.Hydrated() && !form.pending
    ensures r.result.Ok? ==>
              && form.displayedSuccessMessage == SuccessText && form.displayedError == None
              && form.Inputs() == ("", "", false) && form.SubmitDisabled()
    ensures r.result.Err? ==>
              && form.displayedError == Some(r.result.error) && !form.ShowSuccess()
              && form.Inputs() == (message, email, true) && !form.SubmitDisabled()
  {
    form := LoadPage();
    FillForm(form, message, email, true);
    assert !form.SubmitDisabled();
    var sent := form.Submit();
    assert form.SubmitDisabled() && form.SubmitLabel() == "Skickar...";
    r := StoreContactForm(sent.value, Extracted(accept), db);
    form.Resolve(r.result);
  }

  /** The browser tests' default message and address, as `fillForm` types them. */
  const TestMessage: string := "Detta " + ['ä'] + TestMessageTail
  const TestMessageTail: string := "r ett giltigt testmeddelande."
  const TestAddress: string := "valid.user" + "@example.com"

  /** A character of two UTF-8 bytes between two ASCII texts. */
  lemma {:induction false} OneTwoByteCharacter(a: string, c: char, b: string)
    requires IsAscii(a) && IsAscii(b) && '\U{80}' <= c < '\U{800}'
    ensures ByteLen(a + [c] + b) == |a| + |b| + 2
  {
    ByteLenAscii(a);
    ByteLenAscii(b);
    ByteLenConcat(a, [c]);
    ByteLenConcat(a + [c], b);
  }

  lemma TestMessageTailIsAscii()
    ensures IsAscii(TestMessageTail)
  {
  }

  /** The 'ä' takes two bytes, so the message is one byte longer than it has characters. */
  lemma TestMessageBytes()
    ensures |TestMessage| == 36 && ByteLen(TestMessage) == 37
  {
    assert IsAscii("Detta ");
    TestMessageTailIsAscii();
    OneTwoByteCharacter("Detta ", 'ä', TestMessageTail);
  }

  lemma TestMessageTrims()
    ensures Trim(TestMessage) == TestMessage
  {
    assert TestMessage[0] == 'D';
    assert TestMessage[|TestMessage| - 1] == TestMessageTail[|TestMessageTail| - 1] == '.';
    TrimOfTrimmed(TestMessage);
  }

  lemma TestAddressShape()
    ensures Trim(TestAddress) == TestAddress && ByteLen(TestAddress) == 22
    ensures ValidEmailShape(TestAddress)
  {
    PlainText("valid.user" + "@example.com");
    assert TestAddress[10] == '@';
  }

  /** The test data passes the client check and every server check, and is already trimmed. */
  lemma TestDataIsValid()
    ensures ClientValid(TestMessage, TestAddress, true)
    ensures Validate(ContactFormData(TestMessage, TestAddress, Some("on"))) == None
    ensures Trim(TestMessage) == TestMessage && Trim(TestAddress) == TestAddress
  {
    TestMessageBytes();
    TestMessageTrims();
    TestAddressShape();
    WithinLimits(TestMessage, TestAddress, "on");
    assert !MessageIsEmpty(TestMessage) by {
      assert TestMessage != [];
    }
  }

  /**
   * The browser test "submits successfully with valid data": the test's
   * message and address are stored as typed and the form is cleared.
   */
  method ScriptedSuccess(accept: Option<string>) returns (form: InteractiveContactForm, r: Response)
    ensures r.result == Ok(()) && r.insert == Some(StoredContact(TestAddress, TestMessage))
    ensures form.displayedSuccessMessage == SuccessText && form.Inputs() == ("", "", false)
    ensures form.SubmitDisabled()
  {
    TestDataIsValid();
    AcceptedSubmission(ContactFormData(TestMessage, TestAddress, Some("on")), accept, InsertSucceeded);
    form, r := ScriptedSubmission(TestMessage, TestAddress, accept, InsertSucceeded);
  }

  /**
   * With scripts on, a submission the client lets through and the server
   * rejects puts the error's user message in the slot it belongs to.
   */
  method ScriptedRejection(message: string, email: string, accept: Option<string>, db: DbOutcome, e: ContactFormError)
    returns (form: InteractiveContactForm)
    requires ClientValid(message, email, true)
    requires Validate(ContactFormData(message, email, Some("on"))) == Some(e)
    ensures form.displayedError == Some(e) && !form.ShowSuccess()
    ensures form.Inputs() == (message, email, true) && !form.SubmitDisabled()
    ensures MessageFieldShowsError(Some(e)) ==> form.MessageFieldError() == Some(UserMessage(e))
    ensures EmailFieldShowsError(Some(e)) ==> form.EmailFieldError() == Some(UserMessage(e))
    ensures TermsFieldShowsError(Some(e)) ==> form.TermsFieldError() == Some(UserMessage(e))
    ensures form.GeneralError() == None
  {
    RejectedSubmission(ContactFormData(message, email, Some("on")), Extracted(accept), db, e);
    var r;
    form, r := ScriptedSubmission(message, email, accept, db);
    ErrorPlacement(form.displayedError);
  }

  /** `n` > 5000 letters beside an acceptable address: the client lets them through, the server does not. */
  lemma LongMessageSubmission(n: nat, email: string)
    requires n > MaxMessageBytes
    requires Trim(email) != [] && ByteLen(Trim(email)) <= MaxEmailBytes && ValidEmailShape(Trim(email))
    ensures ClientValid(Repeat('a', n), email, true)
    ensures Validate(ContactFormData(Repeat('a', n), email, Some("on"))) == Some(MessageTooLong)
  {
    MessageLengthBoundary(n, email, "on");
    ClientValidIff(Repeat('a', n), email, true);
    assert !IsWhitespace(Repeat('a', n)[0]);
    TrimKeepsCharacters(email, '@');
  }

  lemma MessageTooLongMessage()
    ensures UserMessage(MessageTooLong) == "Meddelandet är för långt (max 5000 tecken)."
  {
  }

  lemma MessageTooLongShown(form: InteractiveContactForm)
    requires form.displayedError == Some(MessageTooLong)
    ensures form.MessageFieldError() == Some("Meddelandet är för långt (max 5000 tecken).")
  {
    MessageTooLongMessage();
  }

  /**
   * The browser test "message too long" (there `n` is 5001): the letters
   * pass the client, the server rejects them, and the message slot shows the
   * limit message.
   */
  method ScriptedMessageTooLong(n: nat, email: string, accept: Option<string>, db: DbOutcome) returns (form: InteractiveContactForm)
    requires n > MaxMessageBytes
    requires Trim(email) != [] && ByteLen(Trim(email)) <= MaxEmailBytes && ValidEmailShape(Trim(email))
    ensures form.MessageFieldError() == Some("Meddelandet är för långt (max 5000 tecken).")
    ensures form.GeneralError() == None && !form.ShowSuccess()
  {
    LongMessageSubmission(n, email);
    form := ScriptedRejection(Repeat('a', n), email, accept, db, MessageTooLong);
    MessageTooLongShown(form);
  }

  /** 245 letters and "@example.com" beside an acceptable message: the client lets them through, the server does not. */
  lemma LongAddressSubmission(message: string)
    requires Trim(message) != [] && ByteLen(Trim(message)) <= MaxMessageBytes
    ensures ClientValid(message, Repeat('a', 245) + "@example.com", true)
    ensures Validate(ContactFormData(message, Repeat('a', 245) + "@example.com", Some("on"))) == Some(EmailTooLong)
  {
    EmailLengthBoundary(245, message, "on");
    assert (Repeat('a', 245) + "@example.com")[245] == '@';
  }

  lemma EmailTooLongMessage()
    ensures UserMessage(EmailTooLong) == "E-postadressen är för lång (max 254 tecken)."
  {
  }

  /**
   * The browser test "email too long": 245 letters and "@example.com" pass
   * the client, the server rejects the 257 bytes, and the e-mail slot shows
   * the limit message.
   */
  method ScriptedEmailTooLong(message: string, accept: Option<string>, db: DbOutcome) returns (form: InteractiveContactForm)
    requires Trim(message) != [] && ByteLen(Trim(message)) <= MaxMessageBytes
    ensures form.EmailFieldError() == Some("E-postadressen är för lång (max 254 tecken).")
    ensures form.GeneralError() == None && !form.ShowSuccess()
  {
    LongAddressSubmission(message);
    form := ScriptedRejection(message, Repeat('a', 245) + "@example.com", accept, db, EmailTooLong);
    EmailTooLongMessage();
  }
}
