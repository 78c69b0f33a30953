/**
 * The browser side of the contact form (src/contact.rs): the advisory
 * client checks, the table that places a server error at a field or at the
 * top of the form, the seeding of the initial state from the page's query
 * parameters (`ContactForm`), and the form controller itself
 * (`InteractiveContactForm`) as a class whose fields are its signals.
 */
module Client {
  import opened Wrappers
  import opened Text
  import opened Errors
  import Server

  const SuccessText: string := "Ditt meddelande är mottaget. Vi återkopplar snart."

  // Client-side checks (advisory)

  /** `message_rw.get().trim().is_empty()`. */
  predicate MessageIsEmpty(message: string) {
    Trim(message) == []
  }

  /** `email_val.is_empty() || !email_val.contains('@')`, on the untrimmed value. */
  predicate EmailIsInvalidFormat(email: string) {
    email == [] || !('@' in email)
  }

  /**
   * What `is_form_valid` is set to once its effect has run. The three tests
   * have no side effects, so the order of the conjuncts does not matter.
   */
  predicate ClientValid(message: string, email: string, terms: bool) {
    terms && !MessageIsEmpty(message) && !EmailIsInvalidFormat(email)
  }

  /**
   * The client accepts exactly: a message with a non-whitespace character,
   * an address containing '@', and the terms checked.
   */
  lemma {:induction false} ClientValidIff(message: string, email: string, terms: bool)
    ensures ClientValid(message, email, terms) <==>
            (exists i :: 0 <= i < |message| && !IsWhitespace(message[i])) && '@' in email && terms
  {
    TrimEmptyIffAllWhitespace(message);
  }

  /** The client checks are a subset of the server's: whatever the server accepts, the client accepts. */
  lemma {:induction false} ServerAcceptanceImpliesClientValid(d: Server.ContactFormData)
    requires Server.Validate(d) == None
    ensures ClientValid(d.message, d.email, d.terms.Some?)
  {
    TrimKeepsCharacters(d.email, '@');
  }

  /** ... but not the other way round: a lone '@' passes the client and fails the server. */
  lemma ClientValidDoesNotImplyServerAcceptance()
    ensures ClientValid("hi", "@", true)
    ensures Server.Validate(Server.ContactFormData("hi", "@", Some("on"))) == Some(InvalidEmailFormat)
  {
    Server.PlainText("hi");
    Server.PlainText("@");
  }

  /** A hint shows once the field has been left and its client check fails. */
  predicate ShowHint(touched: bool, checkFails: bool) {
    touched && checkFails
  }

  // Placing a server error (closed-set dispatch on the variant)

  /** `is_field_error_variant`: the displayed error has the expected variant. */
  predicate IsFieldErrorVariant(displayed: Option<ContactFormError>, expected: Tag) {
    match displayed
    case None => false
    case Some(e) => Discriminant(e) == expected
  }

  predicate MessageFieldShowsError(displayed: Option<ContactFormError>) {
    IsFieldErrorVariant(displayed, MissingMessageTag) || IsFieldErrorVariant(displayed, MessageTooLongTag)
  }

  predicate EmailFieldShowsError(displayed: Option<ContactFormError>) {
    || IsFieldErrorVariant(displayed, InvalidEmailFormatTag)
    || IsFieldErrorVariant(displayed, MissingEmailTag)
    || IsFieldErrorVariant(displayed, EmailTooLongTag)
  }

  predicate TermsFieldShowsError(displayed: Option<ContactFormError>) {
    IsFieldErrorVariant(displayed, TermsNotAcceptedTag)
  }

  /** The general error: a database error, or any error no field claims. */
  predicate GeneralErrorShown(displayed: Option<ContactFormError>) {
    match displayed
    case None => false
    case Some(DatabaseError(_)) => true
    case Some(_) =>
      && !IsFieldErrorVariant(displayed, MissingEmailTag)
      && !IsFieldErrorVariant(displayed, InvalidEmailFormatTag)
      && !IsFieldErrorVariant(displayed, EmailTooLongTag)
      && !IsFieldErrorVariant(displayed, MissingMessageTag)
      && !IsFieldErrorVariant(displayed, MessageTooLongTag)
      && !IsFieldErrorVariant(displayed, TermsNotAcceptedTag)
  }

  /** The field-to-variants table. */
  const MessageFieldTags: set<Tag> := {MissingMessageTag, MessageTooLongTag}
  const EmailFieldTags: set<Tag> := {MissingEmailTag, InvalidEmailFormatTag, EmailTooLongTag}
  const TermsFieldTags: set<Tag> := {TermsNotAcceptedTag}

  /**
   * Each field shows the error exactly when its variant is in the field's
   * table, the general error shows exactly for a database error, and a
   * displayed error shows in exactly one place.
   */
  lemma {:induction false} ErrorPlacement(displayed: Option<ContactFormError>)
    ensures MessageFieldShowsError(displayed) <==> displayed.Some? && Discriminant(displayed.value) in MessageFieldTags
    ensures EmailFieldShowsError(displayed) <==> displayed.Some? && Discriminant(displayed.value) in EmailFieldTags
    ensures TermsFieldShowsError(displayed) <==> displayed.Some? && Discriminant(displayed.value) in TermsFieldTags
    ensures GeneralErrorShown(displayed) <==> displayed.Some? && displayed.value.DatabaseError?
    ensures GeneralErrorShown(displayed) <==>
            displayed.Some? && !MessageFieldShowsError(displayed) && !EmailFieldShowsError(displayed) && !TermsFieldShowsError(displayed)
    ensures !(MessageFieldShowsError(displayed) && EmailFieldShowsError(displayed))
    ensures !(MessageFieldShowsError(displayed) && TermsFieldShowsError(displayed))
    ensures !(EmailFieldShowsError(displayed) && TermsFieldShowsError(displayed))
  {
  }

  /** The text shown in any error slot: the displayed error's user message, or nothing. */
  function ErrorText(displayed: Option<ContactFormError>): (r: string)
    ensures r == [] <==> displayed.None?
  {
    match displayed
    case None => ""
    case Some(e) => UserMessage(e)
  }

  // Seeding from the query string (`ContactForm`)

  /** `status=success` yields the success text; any other status, or none, nothing. */
  function InitialSuccessMessage(query: map<string, string>): (r: Option<string>)
    ensures r.Some? <==> "status" in query && query["status"] == "success"
    ensures r.Some? ==> r.value == SuccessText
  {
    if "status" in query && query["status"] == "success" then Some(SuccessText) else None
  }

  /**
   * `error=<id>` yields the error `id` names, decoded by `FromStr`; an
   * unknown identifier, or no parameter, yields nothing.
   */
  function InitialError(query: map<string, string>): (r: Option<ContactFormError>)
    ensures r.Some? <==> "error" in query && query["error"] in Identifiers
    ensures r.Some? ==> Identifier(r.value) == query["error"]
    ensures r.Some? && r.value.DatabaseError? ==> r.value.detail == DatabasePlaceholder
  {
    if "error" in query then
      FromStrAcceptsExactlyIdentifiers(query["error"]);
      FromStr(query["error"]).ToOption()
    else
      None
  }

  // The form controller

  /**
   * `InteractiveContactForm`: one object per rendered form. Its fields are the
   * component's signals; `previousInputs` is the value the input-watching
   * effect returned last time (`None` until the effects first run, i.e. while
   * the server-rendered page is not hydrated).
   */
  class InteractiveContactForm {
    var message: string
    var email: string
    var termsAgreed: bool
    var messageTouched: bool
    var emailTouched: bool
    var displayedError: Option<ContactFormError>
    var displayedSuccessMessage: string
    var isFormValid: bool
    var pending: bool
    var previousInputs: Option<(string, string, bool)>

    /** The tracked inputs of the clearing effect. */
    function Inputs(): (string, string, bool)
      reads this
    {
      (message, email, termsAgreed)
    }

    predicate Hydrated()
      reads this
    {
      previousInputs.Some?
    }

    /**
     * Once the effects have run they keep `is_form_valid` equal to the client
     * checks and remember the current inputs; before that, the form is as
     * created, with `is_form_valid` still at its initial `true`.
     */
    predicate Valid()
      reads this
    {
      if Hydrated() then
        previousInputs.value == Inputs() && isFormValid == ClientValid(message, email, termsAgreed)
      else
        && message == [] && email == [] && !termsAgreed
        && !messageTouched && !emailTouched && isFormValid && !pending
    }

    /** The component as created from its properties, before any effect has run. */
    constructor (initialSuccessMessage: Option<string>, initialError: Option<ContactFormError>)
      ensures Valid() && !Hydrated()
      ensures displayedSuccessMessage == initialSuccessMessage.UnwrapOr("")
      ensures displayedError == initialError
      ensures message == [] && email == [] && !termsAgreed && !messageTouched && !emailTouched
      ensures isFormValid && !pending
    {
      displayedSuccessMessage := initialSuccessMessage.UnwrapOr("");
      displayedError := initialError;
      message, email, termsAgreed := "", "", false;
      messageTouched, emailTouched := false, false;
      isFormValid := true;
      pending := false;
      previousInputs := None;
    }

    /**
     * The effects' first run in the browser: validity is computed (false for
     * the empty form) and the inputs are remembered; no message is cleared.
     */
    method Hydrate()
      requires Valid() && !Hydrated()
      modifies this
      ensures Valid() && Hydrated()
      ensures !isFormValid
      ensures Inputs() == old(Inputs()) && messageTouched == old(messageTouched) && emailTouched == old(emailTouched)
      ensures displayedError == old(displayedError) && displayedSuccessMessage == old(displayedSuccessMessage)
      ensures pending == old(pending)
    {
      isFormValid := false;
      previousInputs := Some(("", "", false));
    }

    /**
     * The two effects that watch the inputs, after one of them changed: the
     * validity effect, and the effect that clears the displayed error when the
     * inputs differ from the ones it saw last.
     */
    method SettleInputEffects()
      requires Hydrated()
      modifies this
      ensures Valid() && Hydrated()
      ensures displayedError == if old(previousInputs).value != Inputs() then None else old(displayedError)
      ensures Inputs() == old(Inputs()) && messageTouched == old(messageTouched) && emailTouched == old(emailTouched)
      ensures displayedSuccessMessage == old(displayedSuccessMessage) && pending == old(pending)
    {
      isFormValid := ClientValid(message, email, termsAgreed);
      var current := Inputs();
      if previousInputs.value != current {
        if displayedError.Some? {
          displayedError := None;
        }
      }
      previousInputs := Some(current);
    }

    /** Typing in the message field (ignored while the field is disabled). */
    method EditMessage(value: string)
      requires Valid() && Hydrated()
      modifies this
      ensures Valid() && Hydrated()
      ensures old(pending) ==> unchanged(this)
      ensures !old(pending) ==>
                && message == value && email == old(email) && termsAgreed == old(termsAgreed)
                && displayedError == (if value != old(message) then None else old(displayedError))
                && displayedSuccessMessage == old(displayedSuccessMessage)
                && messageTouched == old(messageTouched) && emailTouched == old(emailTouched)
                && pending == old(pending)
    {
      if !pending {
        message := value;
        SettleInputEffects();
      }
    }

    /** Typing in the e-mail field (ignored while the field is disabled). */
    method EditEmail(value: string)
      requires Valid() && Hydrated()
      modifies this
      ensures Valid() && Hydrated()
      ensures old(pending) ==> unchanged(this)
      ensures !old(pending) ==>
                && email == value && message == old(message) && termsAgreed == old(termsAgreed)
                && displayedError == (if value != old(email) then None else old(displayedError))
                && displayedSuccessMessage == old(displayedSuccessMessage)
                && messageTouched == old(messageTouched) && emailTouched == old(emailTouched)
                && pending == old(pending)
    {
      if !pending {
        email := value;
        SettleInputEffects();
      }
    }

    /** Checking or unchecking the terms box (ignored while it is disabled). */
    method SetTerms(value: bool)
      requires Valid() && Hydrated()
      modifies this
      ensures Valid() && Hydrated()
      ensures old(pending) ==> unchanged(this)
      ensures !old(pending) ==>
                && termsAgreed == value && message == old(message) && email == old(email)
                && displayedError == (if value != old(termsAgreed) then None else old(displayedError))
                && displayedSuccessMessage == old(displayedSuccessMessage)
                && messageTouched == old(messageTouched) && emailTouched == old(emailTouched)
                && pending == old(pending)
    {
      if !pending {
        termsAgreed := value;
        SettleInputEffects();
      }
    }

    /** Leaving the message field marks it touched. */
    method BlurMessage()
      requires Valid() && Hydrated()
      modifies this
      ensures Valid() && Hydrated()
      ensures messageTouched == (old(messageTouched) || !old(pending))
      ensures Inputs() == old(Inputs()) && emailTouched == old(emailTouched) && pending == old(pending)
      ensures displayedError == old(displayedError) && displayedSuccessMessage == old(displayedSuccessMessage)
      ensures isFormValid == old(isFormValid)
    {
      if !pending {
        messageTouched := true;
      }
    }

    /** Leaving the e-mail field marks it touched. */
    method BlurEmail()
      requires Valid() && Hydrated()
      modifies this
      ensures Valid() && Hydrated()
      ensures emailTouched == (old(emailTouched) || !old(pending))
      ensures Inputs() == old(Inputs()) && messageTouched == old(messageTouched) && pending == old(pending)
      ensures displayedError == old(displayedError) && displayedSuccessMessage == old(displayedSuccessMessage)
      ensures isFormValid == old(isFormValid)
    {
      if !pending {
        emailTouched := true;
      }
    }

    /** `disabled=move || is_pending() || !is_form_valid.get()` on the submit control. */
    function SubmitDisabled(): bool
      reads this
    {
      pending || !isFormValid
    }

    function SubmitLabel(): string
      reads this
    {
      if pending then "Skickar..." else "Skicka"
    }

    /** The posted fields: the checkbox sends "on" when checked and nothing otherwise. */
    function FormData(): Server.ContactFormData
      reads this
    {
      Server.ContactFormData(message, email, if termsAgreed then Some("on") else None)
    }

    /**
     * Clicking submit: unless the control is disabled, the form's fields are
     * posted and the action becomes pending; nothing else changes.
     */
    method Submit() returns (sent: Option<Server.ContactFormData>)
      requires Valid() && Hydrated()
      modifies this
      ensures Valid() && Hydrated()
      ensures sent.Some? <==> !old(SubmitDisabled())
      ensures sent.None? ==> unchanged(this)
      ensures sent.Some? ==> sent.value == FormData() && pending
      ensures Inputs() == old(Inputs()) && messageTouched == old(messageTouched) && emailTouched == old(emailTouched)
      ensures displayedError == old(displayedError) && displayedSuccessMessage == old(displayedSuccessMessage)
      ensures isFormValid == old(isFormValid)
    {
      if pending || !isFormValid {
        sent := None;
      } else {
        sent := Some(FormData());
        pending := true;
      }
    }

    /**
     * The pending submission resolves. Success shows the success text, clears
     * the error and resets every field and touched flag; a failure displays
     * the error, clears the success text and leaves the fields as they were.
     */
    method Resolve(outcome: Result<(), ContactFormError>)
      requires Valid() && Hydrated() && pending
      modifies this
      ensures Valid() && Hydrated() && !pending
      ensures outcome.Ok? ==>
                && displayedSuccessMessage == SuccessText && displayedError == None
                && message == [] && email == [] && !termsAgreed && !messageTouched && !emailTouched
      ensures outcome.Err? ==>
                && displayedError == Some(outcome.error) && displayedSuccessMessage == []
                && Inputs() == old(Inputs())
                && messageTouched == old(messageTouched) && emailTouched == old(emailTouched)
    {
      match outcome
      case Ok(_) => Succeeded();
      case Err(e) => Failed(e);
    }

    /** The result effect on `Ok`, followed by the input effects its resets trigger. */
    method Succeeded()
      requires Valid() && Hydrated()
      modifies this
      ensures Valid() && Hydrated() && !pending
      ensures displayedSuccessMessage == SuccessText && displayedError == None
      ensures Inputs() == ("", "", false) && !messageTouched && !emailTouched
    {
      pending, displayedSuccessMessage, displayedError := false, SuccessText, None;
      message, email, termsAgreed, messageTouched, emailTouched := "", "", false, false, false;
      // The input effects then see the cleared fields: the error is already
      // gone, and with the terms box unchecked the form is not valid.
      isFormValid, previousInputs := ClientValid(message, email, termsAgreed), Some(Inputs());
    }

    /** The result effect on `Err(e)`. */
    method Failed(e: ContactFormError)
      requires Valid() && Hydrated()
      modifies this
      ensures Valid() && Hydrated() && !pending
      ensures displayedError == Some(e) && displayedSuccessMessage == []
      ensures Inputs() == old(Inputs()) && messageTouched == old(messageTouched) && emailTouched == old(emailTouched)
    {
      pending := false;
      displayedError := Some(e);
      displayedSuccessMessage := "";
    }

    // What the form renders

    function ShowSuccess(): bool
      reads this
    {
      displayedSuccessMessage != []
    }

    function ShowMessageHint(): bool
      reads this
    {
      ShowHint(messageTouched, MessageIsEmpty(message))
    }

    function ShowEmailHint(): bool
      reads this
    {
      ShowHint(emailTouched, EmailIsInvalidFormat(email))
    }

    /** The text in the message field's error slot, when shown. */
    function MessageFieldError(): Option<string>
      reads this
    {
      if MessageFieldShowsError(displayedError) then Some(ErrorText(displayedError)) else None
    }

    function EmailFieldError(): Option<string>
      reads this
    {
      if EmailFieldShowsError(displayedError) then Some(ErrorText(displayedError)) else None
    }

    function TermsFieldError(): Option<string>
      reads this
    {
      if TermsFieldShowsError(displayedError) then Some(ErrorText(displayedError)) else None
    }

    function GeneralError(): Option<string>
      reads this
    {
      if GeneralErrorShown(displayedError) then Some(ErrorText(displayedError)) else None
    }
  }

  /** Once hydrated, the submit control is enabled exactly when nothing is pending and the client checks pass. */
  lemma SubmitEnabledIffClientValid(form: InteractiveContactForm)
    requires form.Valid() && form.Hydrated()
    ensures !form.SubmitDisabled() <==> !form.pending && ClientValid(form.message, form.email, form.termsAgreed)
  {
  }

  /** The label reads "Skickar..." exactly while a submission is pending, and the control is then disabled. */
  lemma PendingLabel(form: InteractiveContactForm)
    ensures form.SubmitLabel() == "Skickar..." <==> form.pending
    ensures form.SubmitLabel() == "Skickar..." ==> form.SubmitDisabled()
  {
  }

  /**
   * A hint shows exactly when its field has been left and fails its client
   * check: the message is all whitespace, or the address has no '@' (an
   * empty address has none).
   */
  lemma {:induction false} HintsFollowClientChecks(form: InteractiveContactForm)
    ensures form.ShowMessageHint() <==>
            form.messageTouched && forall i :: 0 <= i < |form.message| ==> IsWhitespace(form.message[i])
    ensures form.ShowEmailHint() <==> form.emailTouched && !('@' in form.email)
  {
    TrimEmptyIffAllWhitespace(form.message);
  }

  /**
   * Once both fields have been left and the terms are accepted, the submit
   * control is disabled, outside a pending submission, exactly when a hint
   * explains why.
   */
  lemma HintsExplainDisabledSubmit(form: InteractiveContactForm)
    requires form.Valid() && form.Hydrated() && !form.pending
    requires form.termsAgreed && form.messageTouched && form.emailTouched
    ensures form.SubmitDisabled() <==> form.ShowMessageHint() || form.ShowEmailHint()
  {
  }

  /**
   * The form shows no error text while no error is displayed, and a
   * displayed error's user message in exactly one of its four slots: the
   * general slot, or the message, e-mail or terms field.
   */
  lemma {:induction false} ErrorShownInExactlyOneSlot(form: InteractiveContactForm)
    ensures var slots := [form.GeneralError(), form.MessageFieldError(), form.EmailFieldError(), form.TermsFieldError()];
            && (form.displayedError.None? ==> forall i :: 0 <= i < 4 ==> slots[i].None?)
            && (form.displayedError.Some? ==>
                  exists i :: 0 <= i < 4 && slots[i] == Some(UserMessage(form.displayedError.value))
                              && forall j :: 0 <= j < 4 && j != i ==> slots[j].None?)
  {
    var d := form.displayedError;
    ErrorPlacement(d);
    var slots := [form.GeneralError(), form.MessageFieldError(), form.EmailFieldError(), form.TermsFieldError()];
    if d.Some? {
      var i := if GeneralErrorShown(d) then 0 else if MessageFieldShowsError(d) then 1 else if EmailFieldShowsError(d) then 2 else 3;
      assert slots[i] == Some(UserMessage(d.value));
      assert forall j :: 0 <= j < 4 && j != i ==> slots[j].None?;
    }
  }
}
