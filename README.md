# Localstorage registration form — Dafny model

`script.js` drives a single page. The page has a registration form (name, e-mail, age), a list of users kept in
`localStorage` under the key `"usuarios"`, and a listing of that list that can be shown or hidden. Each user can be
deleted from the listing, and all users can be deleted at once. This project models the logic under that page and
proves what it does:

- `text.dfy` (module `Text`): JavaScript white space, `String.prototype.trim`, and `parseInt` without a radix on
  decimal input. It also holds the decimal rendering used to state round trips.
- `email.dfy` (module `EmailPattern`): the e-mail regular expression `^[^\s@]+@[^\s@]+\.[^\s@]+$`. It is given as the
  language it denotes (an existential split) and as a scan, and the two are proved to agree.
- `validation.dfy` (module `Validation`): the per-field rules and messages of `validarCampo`, the whole-form verdict, the
  empty-form detection and the error elements left by `validarFormulario`.
- `users.dfy` (module `Users`):
  - the saved record and its well-formedness;
  - the `splice(index, 1)` of an individual delete;
  - the numbered blocks of the listing, and the loop that builds them.
- `registration.dfy` (module `Registration`): class `Page`, one method per handler. Its fields are the inputs, the error
  texts, the stored list (`Option<seq<User>>`: absent, or a list), whether the listing is displayed, and the blocks
  last drawn. Invariant `Synced`: a displayed listing always shows the stored list as it is.
- `scenarios.dfy` (module `Scenarios`): the page model driven through concrete forms and lists, including the
  individual delete as written next to the intended one.
- `wrappers.dfy` (module `Wrappers`): `Option`.

An error element is modelled by its text. Every message is non-empty, so the empty text means hidden. `confirm` is a
boolean parameter of the clear-all handler, and `setTimeout(toggleMostrarDatos, …)` is an immediate call.

## Model

| member | source | states |
|---|---|---|
| Text.Trim | script.js:60 | `trim` never lengthens its input and leaves white space at neither end (what it keeps is characterised by `TrimSlice`) |
| Text.TrimStartSpec | script.js:60 | `trim`'s first half keeps the longest suffix that does not start with white space; everything cut off is white space |
| Text.TrimEndSpec | script.js:60 | `trim`'s second half keeps the longest prefix that does not end with white space; everything cut off is white space |
| Text.TrimSlice | script.js:60 | the trimmed value is a contiguous slice of the raw input, with only white space cut off on either side and no white space at either end |
| Text.TrimEmptyIff | script.js:60 | a trimmed value is empty exactly when the raw value held only white space (the empty-field test of every rule) |
| Text.TrimKeeps | script.js:60 | a value that neither starts nor ends with white space is its own trim |
| Text.TrimIdempotent | script.js:60 | trimming a trimmed value changes nothing, so the saved name and e-mail are already trimmed |
| Text.DigitValue | script.js:83 | a digit's value is below ten |
| Text.DigitChar | script.js:83 | the character chosen for a value below ten is a digit with that value |
| Text.LeadingDigits | script.js:83 | the prefix `parseInt` reads consists of digits only |
| Text.ShowNat | script.js:206 | a natural number rendered as the listing writes the age (and as `JSON.stringify` stores it, script.js:263) is a non-empty string of digits |
| Text.DigitsValueShowNat | script.js:83 | reading the digits of a rendered natural number gives that number back |
| Text.LeadingDigitsOfDigits | script.js:83 | `parseInt`'s digit run stops exactly at the first non-digit after a digit string |
| Text.TrimStartKeeps | script.js:83 | `parseInt` skips no white space in front of a digit, a `-` or a `+` |
| Text.ParseInt | script.js:83 | `parseInt` without a radix: a number exactly when a digit follows the leading white space and the optional sign; its magnitude is the value of that leading digit run, and a non-zero result is negative exactly when the value, after its leading white space, starts with `-` |
| Text.ParseDigits | script.js:83 | `parseInt` of a digit string followed by a non-digit is the value of the digit string |
| Text.UnsignedAfterMinus | script.js:83 | after a leading `-`, `parseInt` skips no white space and reads its digits from the character after the `-` |
| Text.ParseNegatedDigits | script.js:83 | `parseInt` of `-`, a digit string and a non-digit is the negated value |
| Text.ParseShowInt | script.js:83 | `parseInt` reads back any rendered integer and ignores whatever follows from a non-digit on ("30abc", "30.5") |
| Text.TrimKeepsInteger | script.js:60 | a rendered integer followed by text that does not end in white space is unchanged by `trim` |
| Text.ParseIntNaN | script.js:83 | `parseInt` is NaN exactly when no digit follows the leading white space and the optional sign ("", "abc", "-abc", "+x", " x", "- 5") |
| EmailPattern.IndexOfSpec | script.js:73 | the position found for `@` is its first occurrence, or the end when it does not occur |
| EmailPattern.IndexOfFirst | script.js:73 | a position holding `@` with no `@` before it is the position found |
| EmailPattern.NoAtSign | script.js:73 | a value without `@` fails the format check |
| EmailPattern.RunSplit | script.js:73 | a run cut at an inner position gives two runs |
| EmailPattern.RunJoin | script.js:73 | two runs joined by a run character form a run |
| EmailPattern.IsEmailFormat | script.js:73-77 | the e-mail format test; an accepted value has at least five characters and exactly one `@`, at the position the search found (its agreement with the regular expression is `EmailFormatMatchesPattern`) |
| EmailPattern.EmailFormatSound | script.js:73 | every value the scan accepts is matched by the regular expression |
| EmailPattern.EmailFormatComplete | script.js:73 | every value the regular expression matches is accepted by the scan |
| EmailPattern.EmailFormatMatchesPattern | script.js:72-81 | the scan accepts exactly the values of the form A@B.C with A, B and C non-empty and free of white space and `@`, where B may itself contain dots |
| Validation.FieldValues.With | script.js:39-49 | writing one field's value or error leaves the other two fields unchanged |
| Validation.WithTwice | script.js:63-68 | clearing an error and then setting it leaves only the second text |
| Validation.CheckField | script.js:56-96 | the decision of `validarCampo`: a rejected field shows its required message exactly when its trimmed value is empty, otherwise the e-mail's format message or the age's range message; a field that passes is non-empty, and a name is rejected only when empty |
| Validation.CheckFieldMeaning | script.js:56-96 | a field passes exactly when its rule holds: a non-empty name; a non-empty e-mail matching the pattern; a non-empty age whose `parseInt` is a number of at least 1. An empty field gets that field's own required message, a non-empty rejected e-mail gets the format message, a non-empty rejected age gets the range message, and the error element is hidden exactly when the field passes |
| Validation.AgeReadsLeadingInteger | script.js:82-91 | an age written as an integer followed by text not starting with a digit is read as that integer, and it is accepted exactly when the integer is at least 1 |
| Validation.AgeWithFraction | script.js:82-91 | "2.5" is a valid age and is read as 2 |
| Validation.AllFieldsValidated | script.js:103-118 | after visiting every field, the running verdict is the conjunction of the three rules |
| Validation.AllFieldsInspected | script.js:109-118 | after visiting every field, the running emptiness flag says whether every trimmed input is empty |
| Validation.AllFieldsChecked | script.js:109-113 | after visiting every field, every error element shows that field's own verdict |
| Validation.AllFieldsVisited | script.js:103-127 | the loop's final state gives the whole-form verdict, the emptiness flag and every error element, and an empty form is never accepted |
| Validation.EmptyFormInvalid | script.js:103-127 | a form whose inputs are all blank is invalid, and all three fields show their required messages |
| Users.NewUser | script.js:256-260 | the record the submit handler builds: its name and e-mail carry no surrounding white space, its name is empty only for an all-white-space input, and its age is `parseInt` of the trimmed age |
| Users.NewUserWellFormed | script.js:252-260 | a form that passed validation yields a record with a non-empty trimmed name, a trimmed e-mail of the accepted shape and an age of at least 1 |
| Users.RemoveAt | script.js:169 | `splice(i, 1)`: one record fewer, and putting the removed record back at `i` restores the list |
| Users.RemoveAtSpec | script.js:169 | `splice(i, 1)` leaves one record fewer, keeps the records before `i` in place, moves those after it up by one, and removes exactly `list[i]` |
| Users.RemoveAtWellFormed | script.js:169 | deleting a record keeps every remaining record well formed |
| Users.Entries | script.js:198-211 | the listing of a list: as many blocks as records, block `k` carries delete index `k` and shows the record that index addresses, and every block is numbered its delete index plus one |
| Users.RenderListing | script.js:198-211 | the listing loop draws one block per record, in order: block `k` shows record `k`, numbered `k + 1`, with delete index `k` |
| Users.DeleteFromListing | script.js:207-222 | the delete button of block `k` removes exactly the record that block shows; the next listing keeps the earlier blocks and moves every later record up one place and one number |
| Registration.Page.constructor | script.js:1-26 | the page loads with blank inputs, hidden errors, the listing hidden and storage as an earlier visit left it |
| Registration.Page.EnterInput | script.js:8-13 | typing into one input changes only that input |
| Registration.Page.ValidateField | script.js:56-96 | the field passes exactly when `CheckField` accepts it; its error element is set to that field's message, or hidden; nothing else changes |
| Registration.Page.ValidateForm | script.js:103-127 | checks all three fields without stopping early. The result is the whole-form verdict; the empty-form alert is raised exactly when every input is blank; every error element shows its field's verdict |
| Registration.Page.ClearForm | script.js:130-158 | when reporting, it does nothing if every input is blank and every error hidden; otherwise, and always when silent, it blanks every input and hides every error. Storage and the listing are untouched |
| Registration.Page.Toggle | script.js:180-235 | a displayed listing is hidden, with storage and blocks untouched. A hidden one is displayed exactly when storage holds a non-empty list, and then shows that list's blocks; otherwise it stays hidden and empty, with the outcome telling an absent list from an empty one |
| Registration.Page.Submit | script.js:248-279 | saves exactly when the form is valid. It appends exactly one record (trimmed name and e-mail, `parseInt` of the trimmed age) at the end of the list, an absent list counting as empty. It then blanks the form and keeps a displayed listing in step with storage. On rejection, storage, inputs and listing are unchanged; the empty-form outcome happens exactly for a blank form; well-formed storage stays well formed |
| Registration.Page.DeleteUserAsWritten | script.js:161-177 | with a list stored and the index in range, it writes back the list without that record; otherwise storage is unchanged. It then toggles, which hides a displayed listing |
| Registration.Page.DeleteUser | script.js:161-177 | as above, but a displayed listing stays displayed and is redrawn from the new list, or hidden when the list became empty |
| Registration.Page.ClearAll | script.js:288-306 | nothing happens when the list is absent or empty. With a non-empty list and confirmation it removes the key and hides the listing; when the user declines, nothing changes |
| Scenarios.AnaNameValid | script.js:66-71 | "Ana" is a valid name |
| Scenarios.AnaEmailValid | script.js:72-81 | "ana@x.com" is a valid e-mail |
| Scenarios.BadEmailRejected | script.js:72-81 | "bad-email" is rejected with the format message, not the required one |
| Scenarios.ThirtyValid | script.js:82-91 | "30" is a valid age, read as 30 |
| Scenarios.BadEmailFormRejected | script.js:103-127 | the form ("Ana", "bad-email", "30") is invalid but not empty, and only the e-mail shows an error |
| Scenarios.GoodFormAccepted | script.js:103-127 | the form ("Ana", "ana@x.com", "30") is valid and not empty |
| Scenarios.GoodFormUser | script.js:256-260 | the form ("Ana", "ana@x.com", "30") makes the record Ana, ana@x.com, 30 |
| Scenarios.FillForm | script.js:8-13 | a freshly loaded page whose three inputs hold the given form |
| Scenarios.SubmitEmptyForm | script.js:120-124 | submitting a blank form raises the empty-form alert and stores nothing |
| Scenarios.SubmitBadEmail | script.js:248-279 | submitting a form with a malformed e-mail stores nothing and shows only the e-mail's format message |
| Scenarios.SubmitValidForm | script.js:248-279 | submitting a valid form on an empty store stores exactly that one record and blanks the form |
| Scenarios.DeleteMiddle | script.js:161-177 | deleting position 1 of three records keeps the first and the third, in order |
| Scenarios.DeleteAsWrittenHidesListing | script.js:161-177 | with the listing displayed, the individual delete as written leaves it hidden |
| Scenarios.DeleteRedrawsListing | script.js:161-177 | with the listing displayed, the corrected delete keeps it displayed and shows the remaining record as #1 |

## Left out

- `parseInt` is modelled on decimal input with an optional sign and unbounded integers. Three cases are not modelled:
  - the `0x` prefix, which `parseInt` without a radix reads as hexadecimal;
  - digit runs whose value exceeds 2^53, which `parseInt` rounds to the nearest double (`parseInt("12345678901234567")` is 12345678901234568);
  - digit runs long enough to overflow a double. They become `Infinity`, and `Number.isInteger` then rejects them.
- Users.NewUser: the age it stores is the exact value of the digits. For ages above 2^53 the source stores the rounded double instead (script.js:259).
- `Number.isInteger(edadValue)` (script.js:88) is not modelled as a separate test: any value `parseInt` returns that is not NaN is an integer in this model.
- The age rule follows the code, not the wording of its message ("número entero positivo", script.js:89), which suggests that non-integer input such as "2.5" is refused. `parseInt("2.5")` is 2, so "2.5" is a valid age and is stored as 2 (`Validation.AgeWithFraction`).
- `alert` calls are left out. `confirm` is the `confirmed` parameter of `Registration.Page.ClearAll`.
- `setTimeout` deferrals (script.js:175, 273) are immediate calls. The model does not capture events arriving between the store update and the redraw.
- JSON encoding and decoding are left out: storage holds the list directly. `JSON.parse` failing on corrupt data is not modelled. A stored empty string is not modelled either: the individual delete and the toggle (script.js:163, 192) treat it like an absent key, but at script.js:254 and 290 `JSON.parse("")` throws, so submit and clear-all abort.
- DOM work is left out: the `input-error` class, `display` styles, button texts, the HTML of the listing, and re-binding of the delete buttons. A listing block is modelled by its number, its record and its delete index.
- `form.reset()` is modelled as every input becoming empty.
- The `blur` listeners (script.js:243-245) just call `validarCampo`, which is `Registration.Page.ValidateField`.
- Registration.Page.ValidateField: its result is stated against `CheckField`, the rule decision. The rule in terms of the trim, the pattern and `parseInt` is in `Validation.CheckFieldMeaning`.
- The regular expression is modelled only for this pattern, over Unicode characters rather than UTF-16 code units. A character outside the Basic Multilingual Plane is neither white space nor `@` either way, so the verdicts agree.

## Findings

| source | as written | input that shows it | evidently intended | confidence | as-written member | corrected member |
|---|---|---|---|---|---|---|
| script.js:161-177 | after the `splice`, the individual delete calls `toggleMostrarDatos`. Delete buttons can be clicked only while the listing is displayed (hiding it leaves them in the page, but not visible), so that toggle takes its hide branch and the listing disappears | two saved users; show the listing, then press "Borrar Usuario" on the first block: the listing is hidden | redraw the listing from the new list, as the comment on line 174 says and as the submit handler does at lines 270-273 (hide first, then toggle) | not executed | Registration.Page.DeleteUserAsWritten, Scenarios.DeleteAsWrittenHidesListing | Registration.Page.DeleteUser, Scenarios.DeleteRedrawsListing |
