# Create-user form controller

A Dafny model of the logic of the `CreateUserForm` React component
(`src/components/user/CreateUserForm.jsx`), the dialog an administrator
uses to create a user. It covers:

- the **input sanitiser**: on every keystroke the phone field keeps only its
  ASCII digits, cut to the first ten; every other input, and every picker
  choice, is stored verbatim;
- the **validator** `validateForm`: a pure map from the draft to one message
  per field (`""` means valid), built in two passes — a first pass of
  "blank after trim", e-mail-pattern and phone-pattern checks, then a second
  pass that overwrites the password entry (length must be in [8, 30]) and the
  repeat-password entry (must equal the password);
- the **pattern checks** `isValidEmail` (`/^[^\s@]+@[^\s@]+\.[^\s@]+$/`) and
  `isValidPhoneNumber` (`/^\d{0,10}$/`), restated as predicates over a
  character sequence;
- the **component state** `showModal`, `formSubmitted`, `formErrors` and
  `formData`, and the handlers that change it: open, close, field and picker
  updates, and submit, which hands the draft to the parent's `callback` only
  when every message is empty.

Files:

- `text.dfy`, module `Text`: the JavaScript string primitives the component
  uses — the `\s` class (the ECMAScript WhiteSpace and LineTerminator code
  points), `\d` (ASCII digits), `trim`, `replace(/\D/g, "")` and
  `slice(0, n)`.
- `user_form.dfy`, module `UserForm`: the draft and error records, the
  sanitiser, the pattern checks, `ValidateForm` and its lemmas, and the class
  `CreateUserForm` whose methods are the component's handlers. The parent's
  `callback` is recorded in a ghost field `callbackCalls`, the sequence of
  drafts it has been handed.

Two behaviours of the code worth stating outright:

- Opening the dialog (`handleModalShow`, lines 23-36) shows it and clears the
  messages and the submitted flag, and leaves `formData` as it was; the draft
  is emptied only after a successful submit (lines 91-100).
- On a successful submit `sendResponse` first sets `formSubmitted` to true
  and then calls `handleModalClose`, which sets it back to false, so after a
  successful submit the flag is false; it stays true only when validation
  fails (lines 79, 86-87, 38-41).

## Model

| member | source | states |
|---|---|---|
| `Text.IsWhitespace` | src/components/user/CreateUserForm.jsx:141 | `\s` and what `trim` removes: the ECMAScript WhiteSpace and LineTerminator code points; none of them is an ASCII digit, `@` or `.`, so the pattern classes do not overlap |
| `Text.IsDigit` | src/components/user/CreateUserForm.jsx:147 | `\d`, and the complement of `\D` at line 66: exactly the ten ASCII digits `0123456789` |
| `Text.TrimStart` | src/components/user/CreateUserForm.jsx:106 | the start of the trimmed value is not whitespace, and it is no longer than the input |
| `Text.TrimEnd` | src/components/user/CreateUserForm.jsx:106 | the end of the trimmed value is not whitespace, and it is no longer than the input |
| `Text.TrimStartDrops` | src/components/user/CreateUserForm.jsx:106 | trimming the start drops a whitespace prefix and keeps the rest of the string |
| `Text.TrimEndDrops` | src/components/user/CreateUserForm.jsx:106 | trimming the end drops a whitespace suffix and keeps the rest of the string |
| `Text.Trim` | src/components/user/CreateUserForm.jsx:106 | `trim` yields a value that neither starts nor ends with whitespace |
| `Text.TrimShape` | src/components/user/CreateUserForm.jsx:106 | the input is a whitespace prefix, the trimmed value and a whitespace suffix |
| `Text.TrimEmptyIffBlank` | src/components/user/CreateUserForm.jsx:106-125 | `v.trim() === ""` holds exactly when every character of `v` is whitespace |
| `Text.StripNonDigits` | src/components/user/CreateUserForm.jsx:66 | the result is all ASCII digits, holds each digit as often as the input does, and is the input itself when the input is all digits |
| `Text.StripNonDigitsAppend` | src/components/user/CreateUserForm.jsx:66 | stripping distributes over concatenation, so the digits keep their input order |
| `Text.SliceTo` | src/components/user/CreateUserForm.jsx:68 | `slice(0, n)` is the prefix of length `n`, or the whole string when it is shorter |
| `UserForm.Update` | src/components/user/CreateUserForm.jsx:54-59 | `{ ...prevData, [k]: v }` sets field `k` to `v` and leaves every other field as it was |
| `UserForm.SanitizePhone` | src/components/user/CreateUserForm.jsx:64-69 | the stored phone is all digits, at most 10 long, and is the first ten (or all) of the input's digits |
| `UserForm.SanitizeKeepsValidPhone` | src/components/user/CreateUserForm.jsx:64-69 | a value of at most ten digits passes through the sanitiser unchanged |
| `UserForm.SanitizeIdempotent` | src/components/user/CreateUserForm.jsx:64-69 | sanitising again changes nothing |
| `UserForm.SanitizeIgnoresTail` | src/components/user/CreateUserForm.jsx:68 | once the input holds ten digits, whatever follows does not change the stored phone |
| `UserForm.SanitizeCutsAtTen` | src/components/user/CreateUserForm.jsx:64-69 | twelve digits typed in a row, `123456789012`, are stored as `1234567890` |
| `UserForm.IsValidEmail` | src/components/user/CreateUserForm.jsx:140-143 | `/^[^\s@]+@[^\s@]+\.[^\s@]+$/`: a non-empty run without whitespace or `@`, an `@`, a non-empty run, a `.`, a non-empty run; it holds exactly for a well-formed address as described in the next row |
| `UserForm.IsValidPhoneNumber` | src/components/user/CreateUserForm.jsx:145-149 | `/^\d{0,10}$/`: at most ten ASCII digits, the empty string included; a non-empty match is never blank |
| `UserForm.PhonePatternIsSanitizerFixpoint` | src/components/user/CreateUserForm.jsx:145-149 | the phone pattern accepts exactly the values the keystroke sanitiser leaves unchanged |
| `UserForm.EmailSplitIffWellFormed` | src/components/user/CreateUserForm.jsx:140-143 | the e-mail pattern matches exactly when there is no whitespace, exactly one `@` with something before it, and after it a `.` that is neither first nor last |
| `UserForm.RequiredCheck` | src/components/user/CreateUserForm.jsx:106 | a first-pass "blank after trim" test reports its message exactly for a value made only of whitespace |
| `UserForm.PhoneCheck` | src/components/user/CreateUserForm.jsx:112-117 | a blank phone gets the "empty" message; any other gets `""` exactly when it is at most ten ASCII digits, else the invalid-phone message |
| `UserForm.ValidateForm` | src/components/user/CreateUserForm.jsx:104-138 | `validateForm`: the second pass alone decides its messages — the password gets the length message exactly when its length is outside [8, 30] (`validator.isLength` at line 129), and the repeat gets the mismatch message exactly when it differs from the password |
| `UserForm.AllClear` | src/components/user/CreateUserForm.jsx:86 | the submit gate `Object.values(errors).every((error) => error === "")`: all eight messages are `""`, that is, the record is the all-empty one |
| `UserForm.RequiredFieldErrors` | src/components/user/CreateUserForm.jsx:104-126 | name, last name, program and role get their "empty"/"select" message exactly when blank, else `""` |
| `UserForm.EmailError` | src/components/user/CreateUserForm.jsx:109-111 | the e-mail message is `""` exactly for a well-formed address, else the invalid-e-mail message |
| `UserForm.PhoneError` | src/components/user/CreateUserForm.jsx:112-117 | the phone message of `validateForm`: "empty" when blank, otherwise `""` exactly for 0-10 ASCII digits and the invalid-phone message otherwise |
| `UserForm.SanitizedPhoneAccepted` | src/components/user/CreateUserForm.jsx:112-117 | any non-empty output of the sanitiser passes the phone check |
| `UserForm.PhoneSanitizedAccepted` | src/components/user/CreateUserForm.jsx:112-117 | a non-empty phone that matches `/^\d{0,10}$/`, as every handler keeps it, passes the phone check |
| `UserForm.PasswordError` | src/components/user/CreateUserForm.jsx:129-131 | a length outside [8, 30] always yields the length message, even for an empty password; inside it a blank password keeps the "empty" message; otherwise `""` |
| `UserForm.RepeatPasswordError` | src/components/user/CreateUserForm.jsx:133-135 | a repeat that differs from the password yields the mismatch message, overriding the blank check; an equal one is "empty" when blank, else `""` |
| `UserForm.AllClearIffAcceptable` | src/components/user/CreateUserForm.jsx:104-138 | every message is `""` exactly when name, last name, program and role are non-blank, the address is well formed, the phone is 1-10 digits, the password is non-blank with length in [8, 30] and the repeat equals it |
| `UserForm.BlankFieldReported` | src/components/user/CreateUserForm.jsx:104-138 | a blank field of any kind gets a non-empty message, so the draft is not accepted |
| `UserForm.ShortPasswordExample` | src/components/user/CreateUserForm.jsx:129-135 | password and repeat both "short": the password gets the length message and the repeat gets none |
| `UserForm.CreateUserForm.constructor` | src/components/user/CreateUserForm.jsx:9-52 | the dialog starts hidden, not submitted, with no messages and an all-empty draft |
| `UserForm.CreateUserForm.HandleModalShow` | src/components/user/CreateUserForm.jsx:23-36 | opening shows the dialog, clears the submitted flag and every message, and leaves the draft untouched |
| `UserForm.CreateUserForm.HandleModalClose` | src/components/user/CreateUserForm.jsx:38-41 | closing hides the dialog and clears the submitted flag; draft and messages are untouched |
| `UserForm.CreateUserForm.HandleSelectChange` | src/components/user/CreateUserForm.jsx:54-59 | a picker choice is stored verbatim in its field and nothing else changes |
| `UserForm.CreateUserForm.HandleChange` | src/components/user/CreateUserForm.jsx:61-75 | the phone field stores the sanitised value, any other field the raw value; nothing else changes and the sanitised-phone invariant is kept |
| `UserForm.CreateUserForm.Deliver` | src/components/user/CreateUserForm.jsx:86-100 | the accepted branch of a submit: the dialog closes, the callback gets the current draft once, the draft is emptied and the messages are kept |
| `UserForm.CreateUserForm.Settle` | src/components/user/CreateUserForm.jsx:79-101 | what a submit does once the messages are known: the flag is set and the messages stored; with every message empty the accepted branch runs, otherwise draft, visibility and callback log are unchanged |
| `UserForm.CreateUserForm.SendResponse` | src/components/user/CreateUserForm.jsx:77-102 | messages become `validateForm` of the draft; if all are `""` the callback gets the pre-submit draft exactly once, the dialog closes and the draft is emptied; otherwise no callback, draft and visibility unchanged, submitted flag set |
| `UserForm.ReopenKeepsDraft` | src/components/user/CreateUserForm.jsx:23-41 | closing then reopening the dialog brings back the same draft with no messages |
| `UserForm.SubmitAcceptable` | src/components/user/CreateUserForm.jsx:77-102 | submitting an acceptable draft delivers it to the callback once, empties and hides the form, leaves every message `""` and the submitted flag false |

## Left out

- `src/pages/task/UserTableTask.jsx` is not part of this model: it is an HTTP GET inside a React effect, a store selector for a refresh flag, and table rendering.
- The JSX markup of the dialog (`CreateUserForm.jsx` lines 151-347) is not modelled: it displays `showModal`, `formData`, `formSubmitted` and `formErrors` and connects the modelled handlers to the inputs, buttons and pickers.
- `SelectProgram`, `SelectUserRol` and the transport behind `callback` are foreign code; the callback is modelled as appending the draft to the ghost sequence `callbackCalls`.
- `HandleSelectChange` takes a string: the pickers are assumed to pass one; any other value would make `trim` in `validateForm` (lines 124-125) throw, which is not modelled.
- `Deliver`: the callback is assumed to return normally; if it threw at line 88, the draft reset at lines 91-100 would not run, which is not modelled.
- `HandleChange` and `HandleSelectChange` take one of the eight field names (`FieldKey`); the JavaScript would also accept any other name and add it as an extra key of the draft, which no input of the dialog does.
- `UserForm.ValidateForm`: `validator.isLength` is modelled as the character count being in [8, 30]; its discount for the variation selectors U+FE0E and U+FE0F is not modelled.
- Strings are sequences of Unicode scalar values, not UTF-16 code units; a character outside the Basic Multilingual Plane counts once.
- `Text.IsWhitespace` lists the space separators of Unicode category Zs as of Unicode 15; a later Unicode version that adds one would change `\s` and `trim`.
- React's asynchronous state batching and `e.preventDefault()` are not modelled: each handler is one atomic update of the state, with the last write to a field winning.
