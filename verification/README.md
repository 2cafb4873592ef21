# Contact-form validation and page widgets, modelled in Dafny

`script.js` is a browser-side page-enhancement script. It wires a navigation
menu, smooth scrolling, an active-link marker, an accordion and a contact form
whose fields are validated with localized (Russian) messages. This project
models the decision logic inside those widgets, with the DOM replaced by plain
records and strings:

- `FieldValidation.Decide` is the decision `FormValidator.validateField`
  makes. Its inputs are the field's id, its trimmed value, its input type, its
  `required` attribute and its checked state. Its output is the error to show,
  or none. The required test comes first. Then comes the role dispatch on the
  id substring or input type (name, email/`email`, phone/`tel`, message).
  Last comes the override for a required, unticked checkbox.
- `ErrorPresenter` holds one field's error state: the `is-invalid` mark, the
  element named by `aria-describedby` and the `.invalid-feedback` elements in
  the field's parent. It has `showError`/`clearError` as written and a
  corrected pair (see Findings).
- `ContactForm.ValidateField` and `ContactForm.ValidateForm` are the
  per-field update and the whole-form pass. The whole-form pass runs over
  every field. It appends the single `warning` toast through `notify` when
  some field failed.
- `Navigation` models the menu's three marks (`is-open`, `aria-expanded`,
  `u-no-scroll`). It covers the toggle and the events that can only close the
  menu: Escape, a click outside, a nav-link click and a resize to 1024 px or
  wider. A click on the toggle or on a nav link also bubbles to the document's
  click listener, and `Step` runs both listeners in order.
- `Accordion` models the button/panel toggle.
- `PageLinks` covers the homepage test, the `/` prefix added to in-page
  anchors on other pages, the id the smooth-scroll listener scrolls to, and
  the `aria-current`/`active` marking of nav links.
- `JsText` provides `trim`, `includes`, `startsWith`, `endsWith`, and the
  UTF-16 length that the regular expressions count in.

Strings are sequences of Unicode scalar values. A scalar above U+FFFF counts
as two code units wherever JavaScript counts length. The message pattern
`/.{10,}/` has no anchors and no `u` flag. So it matches when some run of ten
UTF-16 code units has no line terminator, and the model defines it that way
(`FieldPatterns.MessagePattern`). The phone pattern `/^[+-ds()]{10,20}$/` is
modelled as written. Its class is the range `'+'..'d'` plus `s`, `(` and `)`.
So it accepts `sssssssssss` and `ABCDEFGHIJ`, and it rejects a number written
with spaces.

The name pattern has lost its backslashes, and its class contains the range
`s-'`, whose ends are in reverse order. ECMA-262 rejects such a range. The
email pattern has also lost its backslashes (`[^s@]` and a bare `.`). Both
tests are therefore parameters of the model (`FieldPatterns.Matchers`), not
definitions.

Error texts are kept as keys (`ErrorKind`). `FieldValidation.MessageText`
gives the script's text for each key, and every text is non-empty.
`validateField`'s test `if (errorMessage)` is therefore the test "some key was
chosen".

## Model

| member | source | states |
|---|---|---|
| JsText.Trim | script.js:366 | `trim` never lengthens the value |
| JsText.TrimCharacterised | script.js:366 | the trimmed value is `s[i..j]`: `s[..i]` and `s[j..]` are whitespace or line terminators, and `s[i..j]` is empty or starts and ends with neither |
| JsText.TrimUnique | script.js:366 | any cut with that characterisation is the trim, so the characterisation fixes `trim` |
| JsText.TrimIdempotent | script.js:366 | trimming an already trimmed value changes nothing |
| JsText.TrimEmptyIff | script.js:366-374 | the trimmed value is the falsy `''` exactly when the raw value is only whitespace and line terminators |
| FieldPatterns.PhonePattern | script.js:279 | `/^[+-ds()]{10,20}$/` holds exactly when every character is in the class and the value is 10 to 20 UTF-16 code units long, as the regular expression counts |
| FieldPatterns.PhoneLengthIsCodeUnits | script.js:279 | for a value made only of phone-class characters, the 10–20 count in characters is the count in code units |
| FieldPatterns.MessagePattern | script.js:280 | a value of fewer than ten code units never matches `/.{10,}/` |
| FieldPatterns.LongLineAccepted | script.js:280 | a single line of ten or more characters passes: the bound of ten is inclusive |
| FieldPatterns.LinesJudgedSeparately | script.js:280 | two short lines joined by a line feed fail, however long the whole value is |
| FieldValidation.RoleOf | script.js:375-391 | first match wins: the name role exactly when the id contains `name`; the email role exactly when it does not but the id contains `email` or the type is `email`; the phone role exactly when neither earlier role applies and the id contains `phone` or the type is `tel`; the message role exactly when no earlier role applies and the id contains `message`; no role exactly when none of the substrings or types is present |
| FieldValidation.MessageText | script.js:283-290 | every error text in the table is non-empty, so choosing one makes `errorMessage` truthy |
| FieldValidation.Decide | script.js:364-396 | the privacy error occurs exactly for a required, unticked checkbox; the required error only for a required field whose value trims to empty; each pattern error only for the field's own role, a non-empty trimmed value and a failed test of that pattern |
| FieldValidation.RequiredEmptyGetsRequired | script.js:372-373 | a required field whose value trims to empty gets the required error (consent override aside), and the result is the same for any patterns, so no role check runs |
| FieldValidation.OptionalEmptyPasses | script.js:372-396 | a field that is not required and whose value trims to empty passes |
| FieldValidation.NonEmptyGetsRoleVerdict | script.js:374-392 | apart from the consent override, a non-empty trimmed value gets exactly its role's pattern verdict |
| FieldValidation.NameComesFirst | script.js:375-378 | an id containing `name` is judged by the name test alone, whatever else the id contains and whatever the type; changing the email test changes nothing |
| FieldValidation.EmailBeforePhone | script.js:379-382 | without `name`, an id containing `email` or type `email` is judged by the email test alone, so before the phone and message rules |
| FieldValidation.PhoneBeforeMessage | script.js:383-386 | without name or email, an id containing `phone` or type `tel` is judged by the phone pattern alone, so before the message rule |
| FieldValidation.MessageLast | script.js:387-391 | the message rule applies only to an id containing `message` that matched no earlier role |
| FieldValidation.NoRoleNoCheck | script.js:374-392 | a field matching no role gets no pattern check: it fails only when required and empty |
| ErrorPresenter.ShowErrorAsWritten | script.js:406-421 | the script's `showError` marks the field invalid and shows the message: in the `aria-describedby` element when that exists, otherwise in a new feedback element appended to the parent's |
| ErrorPresenter.ClearErrorAsWritten | script.js:423-433 | the script's `clearError` removes the invalid mark and hides the `aria-describedby` element when that exists; without the attribute it hides the parent's first feedback element, if any; with an attribute naming no element it hides nothing |
| ErrorPresenter.StaleFeedbackWithoutDescribedBy | script.js:409-432 | as written, clear-show twice then clear leaves a field with no `aria-describedby` unmarked but still showing the message |
| ErrorPresenter.StaleFeedbackWithDanglingReference | script.js:409-432 | as written, when `aria-describedby` names no element, the message appended by `showError` is never hidden by `clearError` |
| ErrorPresenter.ShowError | script.js:406-421 | corrected `showError`: the field is marked invalid and shows the message; only the addressed element can be shown, before and after |
| ErrorPresenter.ClearError | script.js:423-433 | corrected `clearError`: the invalid mark is removed and, from a tidy state, no feedback element is shown |
| ErrorPresenter.ClearIdempotent | script.js:423-433 | corrected `clearError`: clearing a field that was just cleared changes nothing, and a clean field stays clean when cleared |
| ErrorPresenter.ClearAfterShowIsClean | script.js:406-433 | clear after show gives a field that looks as if no error had ever been shown |
| ErrorPresenter.TidyPreserved | script.js:406-433 | any sequence of corrected show/clear operations keeps a tidy field tidy, so no stale message can build up |
| ContactForm.ValidateField | script.js:364-404 | with the corrected error-slot pair: `validateField` returns true exactly when no error was chosen, and it leaves the field's input untouched |
| ContactForm.ValidateFieldOutcome | script.js:370-403 | with the corrected error-slot pair: on false the field is marked invalid and shows the chosen error; on true it is clean, because `clearError` runs first; either way it stays tidy |
| ContactForm.ValidateFieldAsWritten | script.js:364-433 | with the script's error-slot operations: the same verdict and the input untouched; on true the field is left exactly as the script's `clearError` leaves it; on false it is marked invalid and the chosen error is shown |
| ContactForm.ValidFieldKeepsStaleMessageAsWritten | script.js:364-433 | as written, a required field left empty and validated twice, then filled in, validates true yet still shows the required message |
| ContactForm.ValidateEach | script.js:348-355 | the loop applies the field check to every field in order, none skipped after a failure, and the flag is true exactly when every check passed |
| ContactForm.ValidateForm | script.js:347-362 | with the corrected error-slot pair: every field is validated, none skipped after a failure; the result is true exactly when every field passes; one `warning` toast is appended when some field fails, none when all pass |
| ContactForm.FormLeavesEachFieldSettled | script.js:347-404 | with the corrected error-slot pair: after the form pass, each failing field shows its own error and each passing field is clean |
| Navigation.OpenMenu | script.js:123-128 | open sets `is-open`, `aria-expanded="true"` and `u-no-scroll` |
| Navigation.CloseMenu | script.js:130-134 | close clears all three |
| Navigation.ToggleMenu | script.js:115-121 | toggle flips `is-open` and leaves the three marks in lock step |
| Navigation.OnDocumentClick | script.js:97-101 | a click outside the nav closes an open menu; a click inside the nav, or on a closed menu, changes nothing; it never opens the menu |
| Navigation.Step | script.js:85-112 | Escape on an open menu closes it and other keys change nothing; a click outside the nav closes an open menu and a click inside changes nothing; a nav-link click closes; a resize to 1024 px or wider closes an open menu and a narrower one changes nothing; on a closed menu only a toggle or nav-link click has any effect; every event keeps lock-stepped marks in lock step |
| Navigation.CloseTriggersNeverOpen | script.js:90-112 | Escape, a click outside, a nav-link click and a resize can never open the menu, and they leave a closed, lock-stepped menu unchanged |
| Navigation.ToggleClickFlips | script.js:85-101 | with the toggle inside the nav, a click on it flips the menu |
| Navigation.ToggleOutsideNavNeverOpens | script.js:85-101 | were the toggle outside the nav, the bubbling click would close the menu at once: the click always ends closed |
| Navigation.RunKeepsLockStep | script.js:85-134 | from lock step, the three marks stay equivalent through any sequence of events |
| Navigation.RunSettlesLockStep | script.js:85-134 | after any sequence of events the marks are either untouched or in lock step |
| Navigation.NoToggleStaysClosed | script.js:90-112 | without a toggle click, a closed menu stays closed through any sequence of events |
| Accordion.Click | script.js:624-633 | with the target present, `aria-expanded` becomes `"true"` exactly when it was not `"true"`, always one of the two boolean texts, and both classes flip; without a target nothing changes |
| Accordion.ClickKeepsSynced | script.js:624-633 | a click keeps a synced button and panel synced |
| Accordion.DoubleClickRestores | script.js:624-633 | two clicks restore the state when `aria-expanded` held `"true"` or `"false"` |
| Accordion.OtherTextReadAsCollapsed | script.js:629-630 | any text other than `"true"` reads as collapsed, and the first click writes `"true"` |
| PageLinks.IsHomepage | script.js:166 | the homepage is exactly the path `/` or some directory followed by `/index.html` |
| PageLinks.AnyIndexPageIsHomepage | script.js:166 | any path ending in `/index.html` counts as the homepage |
| PageLinks.RewriteAnchor | script.js:171-178 | the href changes exactly when the page is not the homepage and the href is a section link (starts with `#`, is neither `#` nor `#!`), and then only by a leading `/` |
| PageLinks.RewriteReversible | script.js:171-178 | the original href can be read back from the rewritten one |
| PageLinks.RewriteIdempotent | script.js:171-178 | rewriting a rewritten href changes nothing |
| PageLinks.ScrollTarget | script.js:185-188 | the smooth-scroll listener looks up an element exactly for the section links, and the id it looks up is the text after the `#` |
| PageLinks.ScrollsTo | script.js:185-191 | the click is taken over exactly when the href is a section link and the page has an element with the looked-up id |
| PageLinks.RewrittenLinksNotScrolled | script.js:171-191 | away from the homepage, no link rewritten at start-up is taken over by the smooth scroll, whatever ids the page has |
| PageLinks.HomepageSectionLinksScrolled | script.js:171-191 | on the homepage a section link is kept and, when its target element exists, scrolled to |
| PageLinks.MarkLink | script.js:217-230 | a link is marked active exactly when it matches the path, its `aria-current` is `"page"` exactly when it is active, and its href is kept |
| PageLinks.UpdateActiveState | script.js:213-232 | for every nav link: href kept; active (with `aria-current="page"`) exactly when the page is the homepage and the href is `/`, `./index.html` or `index.html`, or the href is non-empty and ends the path; neither mark otherwise |
| PageLinks.UpdateForgetsPriorMarks | script.js:217-219 | the outcome depends on the hrefs only, since both marks are removed first |
| PageLinks.UpdateIdempotent | script.js:213-232 | running the update twice is running it once |
| PageLinks.HomeLinksActiveOnHomepage | script.js:223-226 | on the homepage a link spelled `/`, `./index.html` or `index.html` is active |
| PageLinks.RootLinkActiveOnDirectoryPaths | script.js:227-229 | the suffix test also marks the `/` link active on any path ending in `/` |
| PageLinks.IsActiveLink | script.js:221-229 | a link with a missing or empty href is never active; away from the homepage a link is active only when its href ends the path |
| PageLinks.EmptyHrefNeverActive | script.js:221-229 | a link with no href or an empty one is never marked |

## Findings

| source | as written | input that shows it | evidently intended | confidence | as-written member | corrected member |
|---|---|---|---|---|---|---|
| script.js:406-433 | Without a resolvable `aria-describedby`, `showError` appends a new `.invalid-feedback` element on every call. `clearError` hides only the parent's first one, or nothing at all when the attribute names no element. | A required field with no `aria-describedby` is left empty and blurred twice, then filled in and blurred. `validateField` returns true and the field loses `is-invalid`, but the second feedback element still shows the required message. | `clearError` hides the element `showError` wrote to, so a valid field shows no message. | not executed; high for fields without `aria-describedby` | ErrorPresenter.ShowErrorAsWritten, ErrorPresenter.ClearErrorAsWritten, ErrorPresenter.StaleFeedbackWithoutDescribedBy, ErrorPresenter.StaleFeedbackWithDanglingReference, ContactForm.ValidFieldKeepsStaleMessageAsWritten | ErrorPresenter.ShowError, ErrorPresenter.ClearError, ErrorPresenter.ClearAfterShowIsClean, ErrorPresenter.TidyPreserved, ContactForm.ValidateFieldOutcome |

The corrected pair addresses one element. That is the `aria-describedby`
element if it exists. Otherwise it is the parent's first `.invalid-feedback`,
which is created on first use. `ContactForm.ValidateField` and
`ContactForm.ValidateForm` use the corrected pair.

## Left out

- DOM querying, element creation and listener binding. Fields, links, the menu
  and the accordion are plain records, and each listener is a function.
- `debounce`, `throttle`, the 5000 ms removal of toasts, and `submitForm`
  (button disabling, the 1000 ms simulated send, the success toast and the
  1500 ms redirect to `thank_you.html`). These are driven by timers, and the
  send is only a timeout. The model's toasts are the list `notify` appends to.
- The submit listener's call of `submitForm` after a successful
  `validateForm`. The model stops at the validity result.
- The name and email regular expressions. As written they have lost their
  backslashes, and the name class contains the reversed range `s-'`. They are
  parameters of type `string -> bool`. The email examples `a@b.co` and
  `not-an-email` are therefore not stated.
- The name pattern's early error. The range `s-'` at script.js:277 has its
  ends in reverse order. The early-error rules for patterns in ECMA-262
  (section 22.2.1.1 in recent editions) make that a SyntaxError, so a
  conforming engine rejects the whole script and none of the widgets run. An
  engine that reported it only when the literal is evaluated would throw in
  the `FormValidator` constructor. The form listeners would then never be
  bound, and `AppInitializer.init` would stop before the scroll animation, the
  micro-interactions, the accordion and scroll-to-top. The model describes the
  script as if the name test were a working pattern.
- Focus handling: the focus trap installed by `openMenu`, which adds another
  keydown listener on every opening, and `toggle.focus()` after Escape.
- Smooth-scroll geometry (header offset, `scrollTo`). Only the id looked up,
  and whether the page has an element with it, are modelled.
- The counter animation, ripples, hover transforms, scroll reveal,
  scroll-to-top, AOS, the image fallback built with `btoa`, and the injected
  `<style>` blocks. These are floating point, browser observers or pure
  presentation.
- Bootstrap's own collapse and toast behaviour, which are foreign code.
- `Accordion.Click`: `document.querySelector` on a missing or invalid
  `data-bs-target` is reduced to "target found or not". A selector that throws
  is not modelled.
- ContactForm.ValidateForm: each field has feedback elements of its own.
  Controls that share one parent also share its `.invalid-feedback` elements
  (script.js:416 and 427). Then clearing one control's error can hide another's
  message: a required empty control A and a valid control B in one parent,
  neither with `aria-describedby` and A validated first, end with A marked
  invalid and its message hidden. The model does not cover this.
- ContactForm.FormLeavesEachFieldSettled: holds for fields whose feedback
  elements are their own. Fields sharing a parent are not covered (see the
  previous line).
