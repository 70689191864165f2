# Portfolio page script: a verified model

A Dafny model of the behaviour in `script.js`, the single script of a portfolio web page.
The model covers the following parts of that script:

- the contact form's validation and submission flow: three field checks, the error display,
  the status line, and the submit button around the send to the email service;
- `validateEmail`, the regular-expression test of an address;
- `getEmailConfig`, which reads the email settings from the form's data attributes;
- the light/dark theme switch: `applyTheme`, `initTheme` and `toggleTheme`;
- the navigation menu toggle and its close-on-link-click;
- the one-shot fade-in reveal of page sections.

The project has these modules:

- `JsText` (`js_text.dfy`) holds the JavaScript string primitives the script uses:
  - the `\s` whitespace class, which `trim` also strips;
  - `trim`, with its length counted in UTF-16 code units;
  - `includes` and ASCII `toLowerCase`.
- `EmailShape` (`email_shape.dfy`) runs the pattern `^[^\s@]+@[^\s@]+\.[^\s@]+$` as an automaton.
  It proves that the automaton accepts exactly the addresses of the shape `L@D.T`, where each
  of the three segments is non-empty and holds no whitespace and no `@`.
- `EmailConfig` (`email_config.dfy`) holds `getEmailConfig`.
- `Theme` (`theme.dfy`) holds the pure theme choices and a `ThemeSwitch` class. The class's
  fields are the body's theme attribute, the toggle's `aria-pressed` and the stored preference.
- `NavMenu` (`nav_menu.dfy`) holds the menu transitions and a `Nav` class with the two classes
  as fields.
- `FadeIn` (`fade_in.dfy`) holds a `RevealObserver` class with the watched and the shown
  elements.
- `ContactForm` (`contact_form.dfy`) holds the submission as a pure decision (`Decide`) and a
  `Form` class. The class's methods update the controls, the status text and the button, and
  are proved against `Decide` and `Checked`.

## Model

| member | source | states |
|---|---|---|
| JsText.Trim | script.js:113 | the result is empty exactly when the input is all whitespace; otherwise it neither starts nor ends with whitespace and is the slice after the leading blanks, with only whitespace after it |
| JsText.TrimPadded | script.js:127 | trimming any whitespace padding from around a text that neither starts nor ends with whitespace gives back exactly that text |
| JsText.LeadingPadded | script.js:113 | the leading blanks of whitespace followed by a non-blank character are exactly the whitespace prefix |
| JsText.TrailingPadded | script.js:113 | the trailing blanks of a non-blank character followed by whitespace are exactly the whitespace suffix |
| JsText.Utf16Length | script.js:127 | `length` counts one or two code units per character, and exactly one per character when every character is in the Basic Multilingual Plane |
| JsText.IncludesIff | script.js:19 | `includes` holds exactly when the searched text occurs at some index |
| JsText.ToLower | script.js:88 | lowercasing keeps the length and maps each character on its own, ASCII capitals to small letters |
| EmailShape.RunIgnoresCase | script.js:88 | lowercasing the address never changes the state the pattern's automaton reaches |
| EmailShape.ValidateEmailIff | script.js:86-89 | `validateEmail` accepts an address exactly when it splits as `L@D.T` with three non-empty segments free of whitespace and `@` |
| EmailShape.AcceptsJoined | script.js:86-89 | any three such segments joined with `@` and `.` are accepted |
| EmailShape.SplitAccepted | script.js:86-89 | every accepted address comes apart into three such segments joined with `@` and `.` |
| EmailShape.AcceptedHasOneAt | script.js:87 | an accepted address holds exactly one `@` and no whitespace |
| EmailShape.PaddingRejected | script.js:87-88 | the address is not trimmed: a whitespace character before or after it makes it fail |
| EmailShape.AcceptedExamples | script.js:86-89 | `a@b.co` and `A@B.CO` are accepted |
| EmailShape.RejectsDoubleAt | script.js:87 | `a@@b.co` is rejected |
| EmailShape.RejectsNoAt | script.js:87 | every address without `@` is rejected |
| EmailShape.RejectsPlainString | script.js:87 | `plainstring` is rejected |
| EmailShape.RejectsNoDot | script.js:87 | a domain without a dot (`a@b`) is rejected |
| EmailConfig.GetEmailConfig | script.js:10-24 | no settings exactly when the form is missing, a setting is missing or empty, or the key contains `PUBLIC_KEY`; otherwise the three settings are passed through unchanged and are non-empty |
| EmailConfig.PlaceholderKeyRejected | script.js:19 | a key with `PUBLIC_KEY` anywhere in it is never used |
| Theme.NextTheme | script.js:81 | the toggle picks light exactly after dark, and dark after anything else, an unset theme included |
| Theme.InitialTheme | script.js:76 | the stored value is used unless it is unset or empty, in which case dark is used; the result is never empty |
| Theme.ToggleParity | script.js:80-84 | from dark or light, an even number of toggles returns to the start and an odd number gives the other theme |
| Theme.ToggleFromOther | script.js:80-84 | from any other theme, the first toggle gives dark and the two themes then alternate |
| Theme.ToggleTwice | script.js:80-84 | two toggles from dark or light restore the theme |
| Theme.ThemeSwitch.ApplyTheme | script.js:68-73 | the theme attribute is set, and the toggle, when the page has one, is pressed exactly when the theme is light; storage is untouched |
| Theme.ThemeSwitch.InitTheme | script.js:75-78 | applies `InitialTheme` of the stored preference and leaves storage unchanged |
| Theme.ThemeSwitch.ToggleTheme | script.js:80-84 | applies `NextTheme` of the current attribute and stores the theme it applied |
| NavMenu.Toggle | script.js:40-43 | each of the two classes is flipped |
| NavMenu.CloseOnLinkClick | script.js:45-50 | at a window width of 768 or less both classes are removed; wider, nothing changes |
| NavMenu.ToggleTwice | script.js:40-43 | toggling twice restores the menu |
| NavMenu.CloseIdempotent | script.js:45-50 | a second link click changes nothing more |
| NavMenu.HandlersKeepInStep | script.js:40-50 | both handlers keep the menu open exactly when the toggle is active, when that already held |
| NavMenu.Nav.HandleNavToggle | script.js:40-43 | the new state is `Toggle` of the old one |
| NavMenu.Nav.CloseNavOnLinkClick | script.js:45-50 | the new state is `CloseOnLinkClick` of the old one |
| FadeIn.Revealed | script.js:55-59 | an element is revealed by a batch exactly when some entry of the batch for it is intersecting |
| FadeIn.RevealObserver.OnIntersection | script.js:54-60 | the intersecting targets become visible and stop being watched; nothing else changes; no element is ever both visible and watched |
| FadeIn.RevealObserver.ObserveAll | script.js:65 | every fade-in element is added to the watched set |
| FadeIn.ObserveFadeIns | script.js:52-66 | a fresh observer watches exactly the fade-in elements and nothing is visible yet |
| ContactForm.NameOk | script.js:113 | the name check passes exactly when the name has a character that is not whitespace |
| ContactForm.MessageOk | script.js:127 | a passing message has at least 5 characters after trimming; for text inside the Basic Multilingual Plane it passes exactly when the trimmed text has at least 10 characters |
| ContactForm.MessageBoundary | script.js:127 | whitespace around a message does not count: nine characters are too few and ten are enough |
| ContactForm.Checked | script.js:91-103 | after a check the control shows the error text and the `invalid` class exactly when the check failed; its value is untouched |
| ContactForm.Decide | script.js:111-157 | a submission stops on invalid fields exactly when a check fails; it stops unconfigured exactly when the checks pass but there are no settings or no email library; otherwise it sends the raw field values with the form's service, template and a non-placeholder key |
| ContactForm.AllErrorsTogether | script.js:111-140 | all failing checks are reported together: an empty name, `a@b` and a short message each fail, and the submission stops |
| ContactForm.Form.ShowError | script.js:91-96 | the chosen control gets the text and the `invalid` class; the other controls, the status and the button are unchanged |
| ContactForm.Form.ClearError | script.js:98-103 | the chosen control's text and `invalid` class are cleared; everything else is unchanged |
| ContactForm.Form.CheckFields | script.js:111-132 | each control ends as `Checked` by its own test, all three run; the verdict holds exactly when no control is invalid, and exactly when all three checks pass |
| ContactForm.Form.HandleSubmit | script.js:105-157 | the outcome is `Decide` of the submitted values; the controls are checked; the status is the outcome's text; the button is disabled exactly on the send path |
| ContactForm.Form.FinishSend | script.js:159-174 | the status reports success or failure, only success empties the fields, and the button is enabled again either way |
| ContactForm.SubmitAndSettle | script.js:105-174 | a whole submission ends with the button enabled and the status of its outcome; the fields are emptied only by a successful send and are otherwise kept |

## Left out

- `handleScrollGradient` (script.js:32-38) is floating-point page geometry; it is not part of this model.
- `setCurrentYear` (script.js:26-30) reads the clock; it is not part of this model.
- The delayed clearing of the status line (script.js:136-138, 164-166) depends on timers and is not modelled.
- The email service (`emailjs.init`, `emailjs.send` and its promise chain) is not modelled. Its answer is the input `succeeded` of `FinishSend`, and whether the library is loaded is the input `emailjsDefined`.
- The observer's `threshold: 0.2` and the browser's intersection computation are not modelled. Each batch of entries is an input to `OnIntersection`.
- `localStorage`, `querySelector` and the event-listener wiring (script.js:1-8, 177-204) are not modelled. The stored preference is a field, and the page elements are assumed present wherever a handler uses them. A missing nav toggle, nav links, submit button or error element would throw in the source; the model does not capture that.
- JsText.ToLower: only ASCII letters are lowercased. Full Unicode case mapping is not modelled. It cannot change `validateEmail`'s verdict, because the pattern only separates whitespace, `@`, `.` and everything else, and those characters have no case. For the ASCII letters this is proved by `RunIgnoresCase`.
- ContactForm.Form.FinishSend: `form.reset()` is modelled as emptying the three fields. This matches inputs with no default value; a field the markup gives a default would be reset to that default instead.
- ContactForm.MessageOk: for text outside the Basic Multilingual Plane, its contract states only the bounds implied by UTF-16 length, not an exact character count.
- Theme.InitialTheme: any non-empty stored string is applied as the theme, not only dark or light. The model follows the code here, and `ToggleFromOther` shows how toggling recovers from such a value.
- `aria-pressed` is set in the source to the string form of a boolean; the model keeps the boolean.
- The button is disabled only while a send is outstanding. A second submission during that time (for example a script calling `form.requestSubmit()`) is not modelled; `SubmitAndSettle` requires the button to be enabled.
