# Accessible components: a verified model

This project models the state logic of three React components of an
accessibility demo site:

- the **contact form** (`AccessibleForm`): the form record with its change
  handlers, the phone-number formatter behind the phone field, and the
  submit handler that either records error messages or accepts the form;
- the **disclosure toggle** (`ToggleContent`): one flag, flipped by the
  button, from which `aria-expanded`, the button label, the `hidden` flag and
  the opacity class are derived;
- the **single-select item group** (`KeyboardNavigation`): the index of the
  active button, or none, from which `aria-pressed`, `aria-current` and the
  "Current selection" line are derived.

Each component's state is a Dafny class. Each event handler is a method on
it, and each rendered attribute is a function of its fields. The string
work (digit stripping, regular-expression matching, trimming) is modelled as
pure functions in the modules `Text`, `PhoneFormat` and `Validation`.

Modelling choices:
- `\d` is ASCII `0`-`9`.
- `\s` and `trim` use the ECMAScript WhiteSpace and LineTerminator characters.
- The greedy `^(\d{0,3})(\d{0,3})(\d{0,4})$` match is `MatchGroups`, and
  `MatchGroupsIsGreedy` proves it takes the longest possible first and second
  groups.
- The email expression is a ghost existential over the at-sign and dot
  positions (`MatchesEmailPattern`). `IsEmailShaped` is a computable check
  proved equivalent to it.
- `Partial<FormData>` holding error strings is a `map<Field, string>`.
- Each handler is one atomic state transition.
- A Dafny `string` is a sequence of Unicode scalar values, while a JavaScript string is a sequence of UTF-16 code units, so lone surrogates cannot be written and `maxLength` would count code units. No decision of the modelled code depends on this: digits, `@`, `.` and every whitespace character lie in the Basic Multilingual Plane, and a formatted number with at most ten digits is ASCII.

## Model

| member | source | states |
|---|---|---|
| Text.IsDigit | src/app/components/AccessibleForm.tsx:28-31 | `\d`, the ASCII digits 0 to 9; no contract of its own; see StripNonDigits and MatchGroups |
| Text.IsWhitespace | src/app/components/AccessibleForm.tsx:51-59 | `\s` and the characters `trim()` strips: the ECMAScript WhiteSpace and LineTerminator characters; no contract of its own; see TrimStart, TrimEnd and BlankIffAllWhitespace |
| Text.DecimalString | src/app/components/KeyboardNavigation.tsx:41 | the text `${activeIndex + 1}` prints for a number: digits only, at least one, and no leading zero; DecimalRoundTrip shows it reads back as the number |
| Text.IndexOf | src/app/components/AccessibleForm.tsx:56 | finds the first occurrence of a character, or reports that there is none |
| Text.DecimalRoundTrip | src/app/components/KeyboardNavigation.tsx:41 | the numeral a template literal prints for a number reads back as that number |
| PhoneFormat.StripNonDigits | src/app/components/AccessibleForm.tsx:28 | `value.replace(/\D/g, '')` leaves only digits and never lengthens the string |
| PhoneFormat.StripNonDigitsOfDigits | src/app/components/AccessibleForm.tsx:28 | stripping non-digits from a digit string changes nothing |
| PhoneFormat.NonEmpty | src/app/components/AccessibleForm.tsx:34 | `filter(Boolean)` keeps only non-empty strings, each one of the input's, and never lengthens the list; NonEmptyOfThree gives it on three groups |
| PhoneFormat.Join | src/app/components/AccessibleForm.tsx:35 | `join('-')`; no contract of its own; see JoinDigitGroups and FormatGroupShape |
| PhoneFormat.FormatPhoneNumber | src/app/components/AccessibleForm.tsx:26-39 | no contract of its own; see FormatCases, FormatKeepsDigits, FormatHyphenPositions, FormatGroupShape, FormatWellFormed, FormatReturnsRawWhenLong and FormatIdempotent |
| PhoneFormat.JoinDigitGroups | src/app/components/AccessibleForm.tsx:33-35 | joining digit groups with hyphens and removing the hyphens, or keeping only digits, gives the groups concatenated |
| PhoneFormat.MatchGroups | src/app/components/AccessibleForm.tsx:31-32 | the match succeeds exactly when the cleaned string is all digits and at most 10 long, and its groups have lengths at most 3, 3 and 4 and concatenate to the input |
| PhoneFormat.MatchGroupsIsGreedy | src/app/components/AccessibleForm.tsx:31 | no other split into such groups has a longer first group, or an equal first and a longer second group |
| PhoneFormat.NonEmptyOfThree | src/app/components/AccessibleForm.tsx:33-34 | `filter(Boolean)` on the three groups keeps exactly the non-empty ones, in order |
| PhoneFormat.FormatCases | src/app/components/AccessibleForm.tsx:26-39 | for at most 10 digits the result is the digits with a hyphen after the third and after the sixth digit, when more follow |
| PhoneFormat.FormatKeepsDigits | src/app/components/AccessibleForm.tsx:28-35 | for at most 10 digits the result holds only digits and hyphens, and deleting the hyphens gives exactly the input's digits in order |
| PhoneFormat.FormatHyphenPositions | src/app/components/AccessibleForm.tsx:31-35 | for n ≤ 10 digits the result has n digits plus a hyphen at position 3 when n > 3 and at position 7 when n > 6, and nowhere else |
| PhoneFormat.FormatGroupShape | src/app/components/AccessibleForm.tsx:31-35 | for at most 10 digits the result is at most three non-empty digit groups of at most 3, 3 and 4 digits, a later one present only when the earlier ones are full, joined by hyphens |
| PhoneFormat.FormatWellFormed | src/app/components/AccessibleForm.tsx:31-35 | for at most 10 digits the result has at most 12 characters, which is the field's `maxLength` of line 134; it has no leading, trailing or doubled hyphen; it is empty exactly when the input has no digit |
| PhoneFormat.FormatReturnsRawWhenLong | src/app/components/AccessibleForm.tsx:31-38 | with more than 10 digits the original input is returned untouched |
| PhoneFormat.FormatIdempotent | src/app/components/AccessibleForm.tsx:26-39 | formatting a formatted value changes nothing |
| Validation.TrimStart | src/app/components/AccessibleForm.tsx:51 | `trimStart` removes a whitespace prefix and leaves a suffix starting with a non-whitespace character |
| Validation.TrimEnd | src/app/components/AccessibleForm.tsx:51 | `trimEnd` removes a whitespace suffix and leaves a prefix ending with a non-whitespace character |
| Validation.Trim | src/app/components/AccessibleForm.tsx:51-59 | `trim()` yields an empty string or one that starts and ends with a non-whitespace character, never longer than the input |
| Validation.IsBlank | src/app/components/AccessibleForm.tsx:51-59 | `!s.trim()`; no contract of its own; see BlankIffAllWhitespace |
| Validation.MatchesEmailPattern | src/app/components/AccessibleForm.tsx:56 | the language of the email expression as an existential over the at-sign and dot positions; no contract of its own; see EmailTestMatchesPattern |
| Validation.IsEmailShaped | src/app/components/AccessibleForm.tsx:56 | the computable email test; no contract of its own; see EmailTestMatchesPattern |
| Validation.BlankIffAllWhitespace | src/app/components/AccessibleForm.tsx:51-59 | `!s.trim()` holds exactly when every character of `s` is whitespace |
| Validation.EmailTestMatchesPattern | src/app/components/AccessibleForm.tsx:56 | the email test accepts exactly the strings `L@A.B` whose three parts are non-empty and free of whitespace and `@` |
| AccessibleForm.RunChecks | src/app/components/AccessibleForm.tsx:51-62 | the five conditions `handleSubmit` tests; no contract of its own; see Validate and ValidateReportsFailingFields |
| AccessibleForm.FieldError | src/app/components/AccessibleForm.tsx:50-64 | only name, email, message and contact method can get a message; see ErrorRecord for which message |
| AccessibleForm.ErrorRecord | src/app/components/AccessibleForm.tsx:48-64 | for given check outcomes, a field has an entry exactly when its check fails, and that entry is the field's own message |
| AccessibleForm.NoErrorsIffAllPass | src/app/components/AccessibleForm.tsx:66-69 | the error record is empty exactly when every check passes |
| AccessibleForm.Validate | src/app/components/AccessibleForm.tsx:48-64 | each checked field has an error exactly when its check fails, with that field's exact message; the phone and newsletter never get one; the email gets 'Email is required' when blank and otherwise 'Please enter a valid email address' |
| AccessibleForm.ValidateReportsFailingFields | src/app/components/AccessibleForm.tsx:50-64 | the same error record stated in terms of the field contents: whitespace-only fields and emails not of the form `L@A.B` |
| AccessibleForm.AcceptedIffWellFormed | src/app/components/AccessibleForm.tsx:50-66 | the error record is empty exactly when name and message have a non-whitespace character, the email has the form `L@A.B` and a contact method is chosen |
| AccessibleForm.CollectErrors | src/app/components/AccessibleForm.tsx:48-64 | the error record built field by field equals `Validate` of the form |
| AccessibleForm.FillErrors | src/app/components/AccessibleForm.tsx:48-64 | filling the record with conditional updates in the handler's order yields exactly one entry per failing check |
| AccessibleForm.ContactForm.constructor | src/app/components/AccessibleForm.tsx:15-24 | the form starts empty, with no submission and no errors |
| AccessibleForm.ContactForm.SetName | src/app/components/AccessibleForm.tsx:89 | only the name changes |
| AccessibleForm.ContactForm.SetEmail | src/app/components/AccessibleForm.tsx:111 | only the email changes |
| AccessibleForm.ContactForm.HandlePhoneChange | src/app/components/AccessibleForm.tsx:41-44 | only the phone changes, to the formatted input, which fits 12 characters when it has at most 10 digits |
| AccessibleForm.ContactForm.SetMessage | src/app/components/AccessibleForm.tsx:151 | only the message changes |
| AccessibleForm.ContactForm.SetContactMethod | src/app/components/AccessibleForm.tsx:177-189 | only the contact method changes |
| AccessibleForm.ContactForm.SetNewsletter | src/app/components/AccessibleForm.tsx:210 | only the newsletter flag changes |
| AccessibleForm.ContactForm.HandleSubmit | src/app/components/AccessibleForm.tsx:46-73 | with any error the error record is replaced and the previous submission is kept; otherwise the current form becomes the submission and the errors are cleared; the form record itself is not touched |
| ToggleContent.Disclosure.constructor | src/app/components/ToggleContent.tsx:6 | the content starts collapsed, hidden, with the label 'Show Content' |
| ToggleContent.Disclosure.Toggle | src/app/components/ToggleContent.tsx:8-10 | the flag flips, and with it `aria-expanded` and `hidden` |
| ToggleContent.Disclosure.AriaExpanded | src/app/components/ToggleContent.tsx:16 | no contract of its own; see AnnouncedMatchesShown and Toggle |
| ToggleContent.Disclosure.ButtonLabel | src/app/components/ToggleContent.tsx:20 | no contract of its own; see AnnouncedMatchesShown |
| ToggleContent.Disclosure.Hidden | src/app/components/ToggleContent.tsx:27 | no contract of its own; see AnnouncedMatchesShown and Toggle |
| ToggleContent.Disclosure.OpacityClass | src/app/components/ToggleContent.tsx:24-26 | no contract of its own; see AnnouncedMatchesShown |
| ToggleContent.Disclosure.AnnouncedMatchesShown | src/app/components/ToggleContent.tsx:16-27 | `aria-expanded` is true exactly when the content is not hidden, exactly when the label is 'Hide Content' and exactly when the opacity class is 'opacity-100' |
| ToggleContent.ToggleTwice | src/app/components/ToggleContent.tsx:8-10 | two toggles restore the state, the label and the hidden flag |
| KeyboardNavigation.ItemGroup.constructor | src/app/components/KeyboardNavigation.tsx:6-41 | nothing is active, no button is pressed and the selection line reads 'None' |
| KeyboardNavigation.ItemGroup.Click | src/app/components/KeyboardNavigation.tsx:22-25 | whatever was active before, the clicked button becomes active and pressed (so clicking the active button again keeps it selected, and a click never deselects), the index stays within the three buttons, and the selection line names it |
| KeyboardNavigation.ItemGroup.AriaPressed | src/app/components/KeyboardNavigation.tsx:31 | no contract of its own; see AtMostOnePressed and Click |
| KeyboardNavigation.ItemGroup.AriaCurrent | src/app/components/KeyboardNavigation.tsx:32 | no contract of its own; see CurrentAgreesWithPressed |
| KeyboardNavigation.ItemGroup.SelectionText | src/app/components/KeyboardNavigation.tsx:41 | no contract of its own; see SelectionNamesActiveItem and the constructor |
| KeyboardNavigation.ItemGroup.AtMostOnePressed | src/app/components/KeyboardNavigation.tsx:27-31 | no button is pressed before a click; afterwards exactly the active one is, so never more than one |
| KeyboardNavigation.ItemGroup.CurrentAgreesWithPressed | src/app/components/KeyboardNavigation.tsx:31-32 | `aria-current` is "true" for the pressed button and "false" for every other |
| KeyboardNavigation.ItemGroup.SelectionNamesActiveItem | src/app/components/KeyboardNavigation.tsx:41 | with button k active the line reads `Item k+1`, one digit whose value is k+1; without one it reads 'None' |

## Left out

- The page layout, the alert demo (a message cleared by a timer) and the skip-navigation link (DOM focus) are not part of this model. They are markup, timers and browser calls.
- Rendering is left out: the JSX structure, the styling classes other than the opacity class, and the submitted-data summary (lines 224-255, which show the phone row only when the phone is non-empty and the newsletter as Yes/No).
- React's state scheduling is left out. Each handler is one atomic transition, reading the state it was called in.
- The browser's own behaviour is left out: `required` validation that may block the submit event, the email input type, and `maxLength` truncating typed input. The model only shows that the formatter stays within 12 characters for inputs with at most ten digits; with more digits it returns the raw input, of any length.
- `preventDefault` on the submit event is left out, because it is an effect on the browser.
- AccessibleForm.ContactForm.SetContactMethod: accepts any string. The radio buttons only ever supply "email" or "phone", and the model does not restrict the value to those.
- KeyboardNavigation.ItemGroup.Click: requires an index among the three buttons. The source only calls it from its three buttons, so this is what the source's callers guarantee.
