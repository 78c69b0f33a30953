# Contact form pipeline (tivanderit-web-showcase), modelled in Dafny

This project models the contact form of the tivanderit-web-showcase website
(`src/error.rs` and `src/contact.rs`). A visitor types a message and an e-mail
address and accepts the terms. The browser's advisory checks decide whether
the submit control is enabled. The server function `store_contact_form`
re-checks the trimmed fields in a fixed order and stores a valid submission.
Every validation and datastore failure registers a redirect to
`/?error=<identifier>#contact`, whatever the client asked for. A success
registers the redirect `/?status=success#contact` only when the client did
not ask for JSON; a scripted client that did gets the function's result
instead. The reloaded form decodes the query of a redirect back into its
initial state.

The modules follow the program's structure:

- `Wrappers` (`wrappers.dfy`): `Option` and `Result`.
- `Text` (`text.dfy`): the Rust string operations the code relies on.
  - `str::trim` uses the Unicode White_Space set that `char::is_whitespace` tests.
  - `str::len` is the length in UTF-8 bytes.
  - `contains` on a substring.
  - `starts_with`/`ends_with` on a character.
- `Errors` (`errors.dfy`): `ContactFormError` with its wire identifier (the
  `Display` text), its user message, `FromStr`, and the conversions from the
  framework's and the datastore's errors.
- `Server` (`server.dfy`): the validation chain, the `Accept` negotiation and
  the whole server function, `StoreContactForm`. The datastore and the header
  extractor are parameters of the function: each call receives the outcome
  they produced.
- `Client` (`client.dfy`): the advisory checks, the table that places an error
  at a field or at the top of the form, the seeding from the query
  (`ContactForm`), and `InteractiveContactForm`. That component is a class
  whose fields are its signals. Its methods are the user's events and the
  server action resolving, each followed by the reactive effects it triggers.
- `EndToEnd` (`endtoend.dfy`): how the two halves meet.
  - A minimal model of the router's query parsing, and proofs that every
    redirect the server builds decodes back to the outcome it reports.
  - The flows of the browser tests in `end2end/tests/contact-form.spec.ts`,
    written as methods on the model whose postconditions are what each test
    expects to see.

Three features of the code that a reader might not expect:

- Unlike every other server-side failure, a failure to extract the request
  headers (`src/contact.rs:307`, the `?` operator) returns a `DatabaseError`
  without registering a redirect.
- The client tests the untrimmed address only for non-emptiness and for
  containing an `@`; the boundary checks exist only on the server.
  `Client.ClientValidDoesNotImplyServerAcceptance` exhibits an address the
  client accepts and the server rejects.
- The redirect targets are `/?status=success#contact` and
  `/?error=<identifier>#contact`: the query comes before the fragment.

## Model

| member | source | states |
|---|---|---|
| `Wrappers.Option.UnwrapOr` | src/contact.rs:24 | `unwrap_or_default` on the initial success text; the constructor's contract and `EndToEnd.SuccessRedirectSeedsSuccess` state the text it yields |
| `Wrappers.Result.ToOption` | src/contact.rs:229 | `Result::ok()` on the parsed identifier; `Client.InitialError`'s contract states what it yields for each query |
| `Text.IsWhitespace` | src/contact.rs:257-258 | the characters `str::trim` strips, Rust's `char::is_whitespace` (the Unicode White_Space set); `Text.TrimStart`, `Text.TrimEnd` and `Text.TrimEmptyIffAllWhitespace` state trimming in its terms |
| `Text.TrimStart` | src/contact.rs:257-258 | the result is a suffix of the input, it does not start with whitespace, and everything dropped is whitespace |
| `Text.TrimEnd` | src/contact.rs:257-258 | the result is a prefix of the input, it does not end with whitespace, and everything dropped is whitespace |
| `Text.Trim` | src/contact.rs:257-258 | `str::trim`, both ends; `Text.TrimIsSlice` makes it one slice of the input, `Text.TrimEmptyIffAllWhitespace` says when it is empty, `Text.TrimOfTrimmed` and `Text.TrimIdempotent` when it changes nothing |
| `Text.TrimEmptyIffAllWhitespace` | src/contact.rs:260-271 | a field trims to nothing exactly when all its characters are whitespace |
| `Text.TrimIsSlice` | src/contact.rs:257-258 | the trim of a string is one contiguous slice of it |
| `Text.TrimKeepsCharacters` | src/contact.rs:290 | a character in the trimmed address is also in the untrimmed one |
| `Text.TrimOfTrimmed` | src/contact.rs:257-258 | a string with no whitespace at either end trims to itself |
| `Text.TrimIdempotent` | src/contact.rs:257-258 | trimming twice is trimming once |
| `Text.Utf8Width` | src/contact.rs:278 | every code point takes one to four bytes in UTF-8 |
| `Text.ByteLen` | src/contact.rs:278-284 | the byte length lies between the number of characters and four times that number |
| `Text.ByteLenAscii` | src/contact.rs:278-284 | for ASCII text, bytes and characters coincide |
| `Text.ByteLenConcat` | src/contact.rs:278-284 | the byte length of a concatenation is the sum of the byte lengths |
| `Text.ContainsSubstring` | src/contact.rs:313 | `str::contains` on a substring; `Text.ContainsSubstringIff` shows it holds exactly when the needle occurs at some position |
| `Text.ContainsSubstringIff` | src/contact.rs:313 | the substring test holds exactly when the needle occurs at some position |
| `Text.Repeat` | end2end/tests/contact-form.spec.ts:127 | `n` copies of a character: length `n`, every element that character |
| `Text.StartsWithChar` | src/contact.rs:291 | `starts_with('@')`; `Server.ValidEmailShape` uses it, and `Server.SampleAddressShape` and `EndToEnd.TestAddressShape` exhibit addresses that pass |
| `Text.EndsWithChar` | src/contact.rs:292 | `ends_with('@')`; `Server.ValidEmailShape` uses it, and `Server.SampleAddressShape` and `EndToEnd.TestAddressShape` exhibit addresses that pass |
| `Errors.Identifier` | src/error.rs:9-24 | each variant's wire identifier is non-empty and made of ASCII letters only |
| `Errors.FromStr` | src/error.rs:66-81 | an accepted string is the identifier of the error it yields; a parsed `DatabaseError` carries the fixed placeholder; a rejection carries the prefix followed by the input |
| `Errors.FromStrIdentifierRoundTrip` | src/error.rs:10-23 | parsing an identifier gives back the same variant: the same error, except that a `DatabaseError` comes back with the placeholder detail |
| `Errors.FromStrAcceptsExactlyIdentifiers` | src/error.rs:69-79 | `FromStr` accepts exactly the seven identifiers, that is, exactly what `Identifier` produces |
| `Errors.IdentifierDependsOnlyOnTag` | src/error.rs:22-23 | the identifier depends on the variant only, not on the database detail |
| `Errors.IdentifierInjectiveOnTags` | src/error.rs:9-24 | two errors share an identifier if and only if they are the same variant |
| `Errors.Discriminant` | src/contact.rs:88-91 | `std::mem::discriminant`: the variant without its payload; `Errors.DiscriminantIgnoresPayload` states what it identifies |
| `Errors.DiscriminantIgnoresPayload` | src/contact.rs:88-91 | two errors have the same discriminant exactly when they are equal or both database errors, whatever their details |
| `Errors.UserMessage` | src/error.rs:27-37 | `get_user_message`; `Errors.UserMessageDeterminesError` shows that a database error reads as the server-error prefix followed by its detail, no fixed message carries that prefix, and no two errors read alike, and `Client.ErrorText` that no message is empty |
| `Errors.UserMessageDeterminesError` | src/error.rs:27-37 | a database error reads as the server-error prefix followed by its detail; no fixed message starts with that prefix; the message determines the error |
| `Errors.FixedMessageShape` | src/error.rs:29-34 | the six fixed messages differ in first character or length, and none starts like the server-error prefix |
| `Errors.FromServerFnError` | src/error.rs:47-63 | `from_server_fn_error` and `From<ServerFnError>`; `Errors.FrameworkErrorsAreDatabaseErrors` shows every framework error becomes a `DatabaseError`, with a `ServerError`'s message or any other variant's display text as the detail |
| `Errors.FromSqlxError` | src/error.rs:40-45 | `From<sqlx::Error>`; `Errors.FrameworkErrorsAreDatabaseErrors` shows it is a `DatabaseError` whose detail is the datastore error's text |
| `Errors.FrameworkErrorsAreDatabaseErrors` | src/error.rs:41-63 | every framework or datastore error becomes a `DatabaseError`: a `ServerError` keeps its message, and any other error keeps its display text |
| `Server.FirstFailingSpec` | src/contact.rs:256-298 | the first failing rule of an ordered list: none exactly when every rule passes, and otherwise the rule whose predecessors all pass |
| `Server.Validate` | src/contact.rs:256-298 | a validation failure is never a `DatabaseError` |
| `Server.ValidateFollowsCheckOrder` | src/contact.rs:256-298 | the early-return chain reports the error of the first failing check, in the order email present, message present, terms, email length, message length, email shape |
| `Server.ValidateReportsFirstFailure` | src/contact.rs:256-298 | in both directions: the reported error is check `i`'s exactly when check `i` is the first one to fail, and nothing is reported exactly when all checks pass |
| `Server.ChecksReportDistinctErrors` | src/contact.rs:260-298 | different checks report different errors |
| `Server.ValidEmailShape` | src/contact.rs:290-292 | the server's shape test on the trimmed address: an `@` occurs, not first and not last; `Server.SampleAddressShape` and `Server.MalformedAddressHasNoAt` exhibit both outcomes, and `Client.ClientValidDoesNotImplyServerAcceptance` an address only the client accepts |
| `Server.FirstFailedIndex` | src/contact.rs:256-298 | if some check fails, a first failing check exists at or before it |
| `Server.HeaderToStr` | src/contact.rs:311 | `HeaderValue::to_str`: the value is readable exactly when it is visible ASCII or tabs; `Server.AcceptsJsonIff` uses it as the first of the test's conditions |
| `Server.AcceptsJson` | src/contact.rs:309-313 | the reactive-client test; `Server.AcceptsJsonIff` shows it holds exactly when the header is present, readable, and contains "application/json" at some position |
| `Server.AcceptsJsonIff` | src/contact.rs:309-313 | the request counts as a JSON request exactly when the `Accept` header is present, is visible ASCII, and contains `application/json` |
| `Server.ErrorRedirect` | src/contact.rs:263 | the redirect target that reports an error; `EndToEnd.ErrorRedirectQuery` shows its query is exactly `error=<identifier>`, and `EndToEnd.ErrorRedirectSeedsError` that the reloaded form seeds the same variant from it |
| `Server.DatabaseErrorRedirect` | src/contact.rs:318 | the error redirect of any database error is the fixed `/?error=DatabaseError#contact` |
| `Server.Persist` | src/contact.rs:300-344 | after validation: the INSERT of the trimmed pair is issued exactly when the headers were extracted and the datastore connected; it succeeds exactly when the result is `Ok`; success redirects only non-JSON clients; every failure is a `DatabaseError`, which redirects unless header extraction failed; its detail is the converted framework error when header extraction failed, "Kunde inte ansluta till databasen." when no connection opened, and the datastore error's text when the INSERT failed |
| `Server.StoreContactForm` | src/contact.rs:237-344 | a rejected submission returns its validation error with its redirect and issues no INSERT; otherwise the INSERT of the trimmed fields is issued exactly when headers and connection succeeded, and it succeeds exactly when the result is `Ok`; the redirect and the `DatabaseError` detail of each failure follow the rules of `Server.Persist` |
| `Server.WithinLimits` | src/contact.rs:260-298 | fields present and within both byte limits, with terms sent: only the address shape decides the result |
| `Server.SampleSubmissionIsValid` | src/contact.rs:256-298 | "Hej!" from a@b.se with the terms checked passes every check and is already trimmed |
| `Server.SampleAddressShape` | src/contact.rs:290-292 | a@b.se has an `@` and it is at neither end |
| `Server.AcceptedSubmission` | src/contact.rs:300-344 | a valid submission under each datastore outcome: success and redirect by content type, the trimmed row, the connection failure message, the database error redirect |
| `Server.SampleSubmissionStored` | src/contact.rs:323-337 | the sample submission is stored as ("a@b.se", "Hej!") and redirects to `/?status=success#contact` exactly when the client did not ask for JSON |
| `Server.RejectedSubmission` | src/contact.rs:260-298 | a submission that fails validation returns that error, redirects with it, and issues no INSERT, whatever the headers and the datastore |
| `Server.EmptyMessageIsRejected` | src/contact.rs:266-271 | an empty message next to a valid address is `MissingMessage` |
| `Server.MissingMessageRedirect` | src/contact.rs:268-269 | its redirect is `/?error=MissingMessage#contact` |
| `Server.EmptyMessageSubmission` | src/contact.rs:266-271 | the empty-message submission returns `MissingMessage`, redirects to `/?error=MissingMessage#contact`, and issues no INSERT |
| `Server.MalformedEmailIsRejected` | src/contact.rs:290-298 | "not-an-email" passes the earlier checks and fails the shape check |
| `Server.MalformedAddressTrims` | src/contact.rs:257 | "not-an-email" is already trimmed and 12 bytes long |
| `Server.MalformedAddressHasNoAt` | src/contact.rs:290 | "not-an-email" has no `@` |
| `Server.InvalidEmailFormatRedirect` | src/contact.rs:295-296 | its redirect is `/?error=InvalidEmailFormat#contact` |
| `Server.MalformedEmailSubmission` | src/contact.rs:290-298 | the malformed-address submission returns `InvalidEmailFormat`, redirects with it, and issues no INSERT |
| `Server.UnreachableDatastore` | src/contact.rs:315-321 | with the datastore unreachable, the valid sample returns a `DatabaseError`, redirects to `/?error=DatabaseError#contact`, and issues no INSERT |
| `Server.EverythingMissing` | src/contact.rs:260-265 | with every field missing, the earliest check wins: `MissingEmail` |
| `Server.EmailLengthBoundary` | src/contact.rs:278-283 | `k` letters followed by "@example.com" pass up to 254 bytes and fail from 255 bytes on |
| `Server.MessageLengthBoundary` | src/contact.rs:284-289 | a message of `n` letters passes up to 5000 bytes and fails from 5001 on |
| `Server.PlainText` | src/contact.rs:257-258 | ASCII text with no whitespace at either end trims to itself and has one byte per character |
| `Server.LongAddress` | src/contact.rs:278 | `k` letters followed by "@example.com" are well shaped and `k + 12` bytes long |
| `Client.MessageIsEmpty` | src/contact.rs:36 | the message check on the trimmed value; `Client.ClientValidIff` and `Client.HintsFollowClientChecks` state it as: every character is whitespace |
| `Client.EmailIsInvalidFormat` | src/contact.rs:37-40 | the address check on the untrimmed value; `Client.HintsFollowClientChecks` states it as: no `@` occurs |
| `Client.ClientValid` | src/contact.rs:43-45 | what the validity effect sets `is_form_valid` to; `Client.ClientValidIff` spells it out, `Client.ServerAcceptanceImpliesClientValid` and `Client.ClientValidDoesNotImplyServerAcceptance` place it strictly below the server's checks |
| `Client.ClientValidIff` | src/contact.rs:36-45 | the client accepts exactly a message with a non-whitespace character, an address containing `@`, and the terms checked |
| `Client.ServerAcceptanceImpliesClientValid` | src/contact.rs:36-45 | whatever the server accepts, the client accepts |
| `Client.ClientValidDoesNotImplyServerAcceptance` | src/contact.rs:38-40 | the address "@" passes the client and is rejected by the server as `InvalidEmailFormat` |
| `Client.ShowHint` | src/contact.rs:48-49 | the hint rule, touched and failing; `Client.HintsFollowClientChecks` and `Client.HintsExplainDisabledSubmit` state what it shows |
| `Client.IsFieldErrorVariant` | src/contact.rs:88-92 | `is_field_error_variant`: an error is displayed and has the given discriminant; `Client.ErrorPlacement` builds the placement table on it |
| `Client.MessageFieldShowsError` | src/contact.rs:147-152 | the message field's error condition; `Client.ErrorPlacement` shows it holds exactly for `MissingMessage` and `MessageTooLong` |
| `Client.EmailFieldShowsError` | src/contact.rs:174-179 | the e-mail field's error condition; `Client.ErrorPlacement` shows it holds exactly for `MissingEmail`, `InvalidEmailFormat` and `EmailTooLong` |
| `Client.TermsFieldShowsError` | src/contact.rs:198-203 | the terms field's error condition; `Client.ErrorPlacement` shows it holds exactly for `TermsNotAccepted` |
| `Client.GeneralErrorShown` | src/contact.rs:107-120 | the general error's condition; `Client.ErrorPlacement` shows it holds exactly for a `DatabaseError`, that is, exactly when no field claims the error |
| `Client.ErrorPlacement` | src/contact.rs:88-119 | each field shows the error exactly when the error's variant is in that field's table; the general slot shows exactly a `DatabaseError`; a displayed error appears in exactly one place |
| `Client.ErrorText` | src/contact.rs:122 | the text in an error slot, the displayed error's user message or nothing; it is empty exactly when no error is displayed |
| `Client.InitialSuccessMessage` | src/contact.rs:224-226 | the success text is seeded exactly when the query has `status=success` |
| `Client.InitialError` | src/contact.rs:228-230 | an error is seeded exactly when the query's `error` value is one of the seven identifiers, and it is the error that identifier names; a seeded `DatabaseError` carries the placeholder detail "Okänt databasfel" |
| `Client.InteractiveContactForm.Inputs` | src/contact.rs:76 | the tuple the clearing effect tracks; `SettleInputEffects` clears the error exactly when it differs from the one seen last |
| `Client.InteractiveContactForm.Valid` | src/contact.rs:41-45 | the invariant every method keeps: once the effects have run, `is_form_valid` equals the client check and the last seen inputs are the current ones; before that, the form is as created |
| `Client.InteractiveContactForm.constructor` | src/contact.rs:15-41 | the server-rendered form: empty fields, nothing touched, submit enabled, the seeded messages shown |
| `Client.InteractiveContactForm.Hydrate` | src/contact.rs:43-85 | the effects' first run: the empty form becomes invalid, so submit is disabled; nothing shown is cleared |
| `Client.InteractiveContactForm.SettleInputEffects` | src/contact.rs:43-85 | after an input change, validity equals the client check and the displayed error is cleared exactly when the inputs differ from the last ones seen |
| `Client.InteractiveContactForm.EditMessage` | src/contact.rs:144-145 | typing sets the message and clears the error exactly when the value changed; nothing else changes; while pending nothing changes at all |
| `Client.InteractiveContactForm.EditEmail` | src/contact.rs:171-172 | the same for the address |
| `Client.InteractiveContactForm.SetTerms` | src/contact.rs:196-197 | the same for the terms box |
| `Client.InteractiveContactForm.BlurMessage` | src/contact.rs:146 | leaving the message field marks it touched, unless it is disabled |
| `Client.InteractiveContactForm.BlurEmail` | src/contact.rs:173 | leaving the e-mail field marks it touched, unless it is disabled |
| `Client.InteractiveContactForm.SubmitDisabled` | src/contact.rs:214 | the submit control's `disabled`; `Client.SubmitEnabledIffClientValid` shows that once hydrated it is enabled exactly when nothing is pending and the client checks pass |
| `Client.InteractiveContactForm.SubmitLabel` | src/contact.rs:213 | the submit control's label; `Client.PendingLabel` shows it reads "Skickar..." exactly while pending, when the control is disabled |
| `Client.InteractiveContactForm.FormData` | src/contact.rs:141-197 | the posted fields, the checkbox as "on" when checked; `Client.InteractiveContactForm.Submit` posts exactly this, and `EndToEnd.ScriptedSubmission` hands it to `Server.StoreContactForm` |
| `Client.InteractiveContactForm.Submit` | src/contact.rs:210-214 | the fields are posted exactly when submit is enabled, with the terms sent as "on" only when checked; the action then becomes pending and nothing else changes |
| `Client.InteractiveContactForm.Resolve` | src/contact.rs:53-72 | success shows the success text, clears the error and resets all fields and touched flags; failure shows the error, clears the success text and keeps the fields |
| `Client.InteractiveContactForm.Succeeded` | src/contact.rs:56-64 | the reset after success, followed by the input effects on the cleared fields |
| `Client.InteractiveContactForm.Failed` | src/contact.rs:66-69 | the error is displayed and the success text cleared; nothing else changes |
| `Client.InteractiveContactForm.ShowSuccess` | src/contact.rs:103-105 | the success paragraph shows while the success text is non-empty; `Succeeded` and `Failed` give that text, `EndToEnd.ScriptedSuccess` and `EndToEnd.ScriptedRejection` the outcome |
| `Client.InteractiveContactForm.ShowMessageHint` | src/contact.rs:48 | the message hint; `Client.HintsFollowClientChecks` and `Client.HintsExplainDisabledSubmit` state when it shows |
| `Client.InteractiveContactForm.ShowEmailHint` | src/contact.rs:49 | the e-mail hint; `Client.HintsFollowClientChecks` and `Client.HintsExplainDisabledSubmit` state when it shows |
| `Client.InteractiveContactForm.MessageFieldError` | src/contact.rs:152-156 | the message field's error slot; `Client.ErrorShownInExactlyOneSlot` shows a displayed error's text lands in exactly one slot |
| `Client.InteractiveContactForm.EmailFieldError` | src/contact.rs:179-183 | the e-mail field's error slot; see `Client.ErrorShownInExactlyOneSlot` |
| `Client.InteractiveContactForm.TermsFieldError` | src/contact.rs:203-207 | the terms field's error slot; see `Client.ErrorShownInExactlyOneSlot` |
| `Client.InteractiveContactForm.GeneralError` | src/contact.rs:107-124 | the general error slot; see `Client.ErrorShownInExactlyOneSlot` |
| `Client.SubmitEnabledIffClientValid` | src/contact.rs:214 | once hydrated, submit is enabled exactly when nothing is pending and the client check passes |
| `Client.HintsFollowClientChecks` | src/contact.rs:36-49 | a hint shows exactly when its field has been left and fails its check: the message is all whitespace, or the address contains no `@` |
| `Client.HintsExplainDisabledSubmit` | src/contact.rs:44-49 | once both fields have been left and the terms accepted, the hydrated, idle form has its submit control disabled exactly when a hint shows |
| `Client.PendingLabel` | src/contact.rs:213-214 | the label reads "Skickar..." exactly while a submission is pending, and then the control is disabled |
| `Client.ErrorShownInExactlyOneSlot` | src/contact.rs:107-207 | with no error displayed every error slot is empty; a displayed error's user message shows in exactly one of the general, message, e-mail and terms slots |
| `EndToEnd.BeforeFirst` | src/contact.rs:224-230 | the part before the first separator is a prefix of the string |
| `EndToEnd.AfterFirst` | src/contact.rs:224-230 | a helper for the query parse: the part after the first separator is a suffix of the string, shorter than it, and empty when the separator does not occur; `EndToEnd.SplitAtFirst` fixes its value |
| `EndToEnd.QueryOf` | src/contact.rs:222-230 | the query map the router gives `ContactForm` for a same-site target; `EndToEnd.QueryOfSingleParameter` shows "/?key=value#fragment" yields exactly `{key: value}` |
| `EndToEnd.SplitAtFirst` | src/contact.rs:224-230 | splitting at the first separator undoes joining with a separator the left part lacks |
| `EndToEnd.QueryOfSingleParameter` | src/contact.rs:224-230 | "/?key=value#fragment" with letters-only key and value has exactly the query `key=value` |
| `EndToEnd.ErrorRedirectQuery` | src/contact.rs:263 | an error redirect's query is exactly `error=<identifier>` |
| `EndToEnd.SuccessRedirectQuery` | src/contact.rs:334 | the success redirect's query is exactly `status=success` |
| `EndToEnd.ErrorRedirectSeedsError` | src/contact.rs:228-230 | the page an error redirect leads to shows an error of the same variant (the same error, except the database detail becomes the placeholder) and no success text |
| `EndToEnd.SuccessRedirectSeedsSuccess` | src/contact.rs:224-226 | the page the success redirect leads to shows the success text and no error |
| `EndToEnd.ScriptlessResultReachesTheForm` | src/contact.rs:237-344 | whenever the server function redirects, the reloaded form reports its result: the success text for `Ok`, and for `Err` an error of the same variant |
| `EndToEnd.ScriptlessRejection` | src/contact.rs:224-230 | without scripts, a rejected submission reloads with its user message in the error's field slot, no general error, no success text, no hint, and submit enabled |
| `EndToEnd.ScriptlessMissingEmail` | end2end/tests/contact-form.spec.ts:171-190 | without scripts, a blank address ends with "Ange en email-adress." in the e-mail slot and nothing else shown |
| `EndToEnd.ScriptlessSuccess` | end2end/tests/contact-form.spec.ts:156-169 | without scripts, an accepted submission reloads showing the success text and no error |
| `EndToEnd.LoadPage` | end2end/tests/contact-form.spec.ts:52-58 | a hydrated fresh form has submit disabled and shows nothing |
| `EndToEnd.FillForm` | end2end/tests/contact-form.spec.ts:20-33 | after filling the form, submit is disabled exactly when the client check fails |
| `EndToEnd.ScriptedSubmission` | end2end/tests/contact-form.spec.ts:60-84 | with scripts, a submission the client accepts ends in one of two ways: success clears the form and disables submit, or the error is shown and the typed values are kept |
| `EndToEnd.ScriptedSuccess` | end2end/tests/contact-form.spec.ts:60-84 | with scripts, the test's own message "Detta är ett giltigt testmeddelande." and address valid.user@example.com are stored as typed, and the form is cleared with the success text shown and submit disabled |
| `EndToEnd.OneTwoByteCharacter` | src/contact.rs:284 | a character of two UTF-8 bytes between two ASCII texts adds two to their byte length |
| `EndToEnd.TestMessageBytes` | end2end/tests/contact-form.spec.ts:22 | the test message has 36 characters and, because of its 'ä', 37 bytes |
| `EndToEnd.TestMessageTrims` | end2end/tests/contact-form.spec.ts:22 | the test message is already trimmed |
| `EndToEnd.TestAddressShape` | end2end/tests/contact-form.spec.ts:23 | the test address is already trimmed, 22 bytes long and well shaped |
| `EndToEnd.TestDataIsValid` | end2end/tests/contact-form.spec.ts:20-33 | the test's default fields pass the client check and every server check, and are already trimmed |
| `EndToEnd.ScriptedRejection` | src/contact.rs:53-72 | with scripts, a submission the client lets through and the server rejects shows the error in its field slot and no general error |
| `EndToEnd.LongMessageSubmission` | end2end/tests/contact-form.spec.ts:126-136 | more than 5000 letters pass the client and are rejected as `MessageTooLong` |
| `EndToEnd.MessageTooLongShown` | src/error.rs:32 | a displayed `MessageTooLong` puts its limit message in the message slot |
| `EndToEnd.ScriptedMessageTooLong` | end2end/tests/contact-form.spec.ts:126-136 | the message slot shows "Meddelandet är för långt (max 5000 tecken)." and no general error or success text |
| `EndToEnd.LongAddressSubmission` | end2end/tests/contact-form.spec.ts:138-148 | 245 letters followed by "@example.com" pass the client and are rejected as `EmailTooLong` |
| `EndToEnd.ScriptedEmailTooLong` | end2end/tests/contact-form.spec.ts:138-148 | the e-mail slot shows "E-postadressen är för lång (max 254 tecken)." and no general error or success text |

## Left out

- The view markup, CSS classes, `aria-*` attributes and labels are not modelled.
  The model keeps what they display: which slot shows which text, the hints,
  the submit label and whether submit is disabled.
- The debug block (`cfg!(debug_assertions)`) and the 500 ms delay in the server
  function are not modelled. Neither changes any outcome.
- The effect that sets `data-testid` on the form is not modelled; it exists
  only for the browser tests.
- Logging (`log!`) is not modelled, because it has no observable effect on the result.
- The datastore is not modelled: `sqlx`, the per-request connection (created by `db()`) and the SQL
  statement are reduced to an outcome parameter (connect failed, insert
  failed with a display text, insert succeeded). The row the code would
  insert is recorded in the response.
- The header extractor is reduced to a parameter: either the `Accept` header
  (absent, or its text) or the framework error that extraction raised.
- The HTTP response, the setting of the `Location` header and the async
  runtime are not modelled. A redirect is the target string in the response.
- The `#[cfg(not(feature = "ssr"))]` branch of the server function (the
  client-side stub, `src/contact.rs:346-353`) is not modelled: the function
  only ever runs on the server.
- Only two variants of the framework's error type `ServerFnError` are kept:
  `ServerError` with its message, and any other variant as its display text.
  These are the only distinctions the conversions in `src/error.rs` make.
- The router's query parsing (`EndToEnd.QueryOf`) is modelled only for same-site
  targets with one parameter and without percent-encoding, the only shape the
  server builds. The query itself is a map, so repeated keys are not modelled.
- The scripted flows (`EndToEnd.ScriptedSubmission`, `EndToEnd.ScriptedRejection`
  and the flows built on them) assume that a scripted client acts on the
  function's result alone and does not follow the redirect the function
  registers on every failure. What the framework does with that redirect for
  a JSON client is not part of this model; the promise that the typed values
  are kept after a rejection rests on this assumption.
- Concurrent submissions and the reactive scheduler's ordering are not
  modelled. Each event runs to completion with the effects it triggers, and
  the input fields are disabled while a submission is pending.
- `EndToEnd.ScriptedMessageTooLong` is stated for any length over 5000
  letters, which covers the browser test's 5001. The bound is a parameter
  because the verifier takes too long to unfold a concrete 5001-element string.
- `src/main.rs`, `src/app.rs` (routing, the page and the database setup) and
  the migrations are not part of this model.
