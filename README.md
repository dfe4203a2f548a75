# Learning-portal page logic, modelled in Dafny

This project models the stateful logic that sits under the user interface of an
education company's website and learning portal. All persistence and identity
are handled by a hosted backend. The model treats each backend call as an answer
passed in as a parameter: a row, no row, an error, or (inside `try`) a throw.

Five pages are modelled. Each page is a class whose fields are the page's
`useState` variables, and each event handler is a method on it. The pure helpers
are functions with lemmas.

- **Certificate verification** (`VerifyCertificate`). The lookup key is the
  input trimmed and upper-cased. Blank input makes no lookup. The result shown
  is an error, a verified certificate, or "not found", in that priority order.
  The key ignores surrounding white space and letter case, and normalising a key
  again leaves it unchanged. A search after a failed one shows the new outcome,
  so an error never sticks.
- **Admin moderation** (`Admin`). A user is admin exactly when the role query
  returns a row, so a failed query denies access. Submissions are fetched only
  for an admin. `toggleRead` changes the `read` flag of the entries with the
  given id and nothing else. Toggling an entry twice restores it.
- **Student portal** (`LMSPortal`). The fetches run in a dependent sequence. A
  null result becomes an empty list. Certificates and attendance are fetched
  only when a student row exists. Classes are split into recorded and live. The
  portal also maps attendance statuses to badges and labels, supplies fallback
  labels, and builds a verification link that the verification page reads back.
- **Login / sign-up dialog** (`LoginDialog`). Sign-up checks that the two
  passwords match, then that the password has at least 6 characters. Forms are
  cleared only when the identity service accepts them. `isLoading` always ends
  false.
- **Contact form** (`Contact`). An empty phone is sent as null. The form resets
  only when the insert succeeds. A keystroke changes exactly one field.

Shared modules:

- `Wrappers` holds `Option`, the model of `null`.
- `Backend` holds the reply types of the hosted client.
- `JsStrings` models `String.prototype.trim` and `toUpperCase`.
- `SearchParams` models `URLSearchParams.get` on a URL's query string.

Three behaviours of the portal's code are worth stating plainly:

- The recorded/live split is not exhaustive. Every class whose type is neither
  `"recorded"` nor `"live"` is shown in neither tab
  (`LMSPortal.SplitIsExhaustiveIff`, `LMSPortal.OtherTypesDropped`).
- A query error makes that step's data empty and the sequence goes on. For the
  student query the data is then null, so the certificate and attendance
  fetches are skipped and those two lists keep their values. A thrown call,
  however, ends the whole sequence and leaves every later field as it was
  (`LMSPortal.PortalPage.FetchStudentData`).
- For a signed-in user with no student record, the certificate and attendance
  lists are left as they were. They are empty only because the page mounts
  with empty lists.

## Model

| member | source | states |
|---|---|---|
| `VerifyCertificate.SearchId` | src/pages/VerifyCertificate.tsx:33 | a non-empty explicit id wins; an absent or empty one falls back to the typed field |
| `VerifyCertificate.BlankIffWhiteSpace` | src/pages/VerifyCertificate.tsx:34 | the blank check holds exactly when the trimmed input is empty, and exactly when the key would be empty |
| `VerifyCertificate.LookupKey` | src/pages/VerifyCertificate.tsx:44 | the key is trimmed, has no lower-case letter, and equals the trimmed input up to case |
| `VerifyCertificate.KeyIgnoresPaddingAndCase` | src/pages/VerifyCertificate.tsx:44 | inputs that differ only in surrounding white space or letter case give the same key |
| `VerifyCertificate.KeyIdempotent` | src/pages/VerifyCertificate.tsx:44 | normalising a key again leaves it unchanged |
| `VerifyCertificate.Outcome` | src/pages/VerifyCertificate.tsx:47-55 | a thrown call or an error answer is an error, otherwise a row is verified, otherwise not found; never nothing |
| `VerifyCertificate.ErrorAfter` | src/pages/VerifyCertificate.tsx:47-55 | the error message is set exactly after a throw or an error answer |
| `VerifyCertificate.CertificateAfter` | src/pages/VerifyCertificate.tsx:47-55 | a successful answer's row (or null) is stored; a throw or an error answer stores null |
| `VerifyCertificate.ShownAfterSearch` | src/pages/VerifyCertificate.tsx:40-58 | once the search has finished, the render of the stored error and certificate is exactly the outcome of the answer |
| `VerifyCertificate.OutcomeIgnoresPaddingAndCase` | src/pages/VerifyCertificate.tsx:41-55 | against one backend, inputs differing only in padding or case end in the same outcome |
| `VerifyCertificate.Render` | src/pages/VerifyCertificate.tsx:101-168 | nothing unless searched and not loading; then error before verified before not found, each exactly in its case |
| `VerifyCertificate.VerifyPage.constructor` | src/pages/VerifyCertificate.tsx:18-22 | the field is seeded from the `id` query parameter or ""; nothing is searched or shown |
| `VerifyCertificate.VerifyPage.Edit` | src/pages/VerifyCertificate.tsx:84 | typing replaces the field |
| `VerifyCertificate.VerifyPage.Verify` | src/pages/VerifyCertificate.tsx:32-59 | blank input makes no lookup and changes nothing; otherwise the normalised key is sent, an error clears the certificate, a success stores the row and clears any earlier error, loading ends false, and the page shows the outcome of the answer |
| `VerifyCertificate.VerifyPage.Settle` | src/pages/VerifyCertificate.tsx:40-58 | the `try` / `catch` / `finally` leaves the error and certificate the answer calls for, loading false, and the page showing the outcome |
| `VerifyCertificate.VerifyPage.Submit` | src/pages/VerifyCertificate.tsx:61-64 | a submit searches the typed field: no lookup iff it is blank, otherwise the page shows the outcome for its key |
| `VerifyCertificate.VerifyPage.OnSearchParams` | src/pages/VerifyCertificate.tsx:24-30 | a present, non-empty `id` parameter seeds the field and runs the same lookup as a submit, so an all-white-space one changes nothing else on the page; otherwise nothing changes |
| `JsStrings.Trim` | src/pages/VerifyCertificate.tsx:44 | the result has no white space at either end and is no longer than the input |
| `JsStrings.TrimSplits` | src/pages/VerifyCertificate.tsx:44 | every input is white space, then its trimmed form, then white space |
| `JsStrings.ToUpperCase` | src/pages/VerifyCertificate.tsx:44 | same length, no lower-case letter left, each character equal to the input's up to case |
| `JsStrings.TrimIgnoresPadding` | src/pages/VerifyCertificate.tsx:44 | white space added around an input does not change its trimmed form |
| `JsStrings.TrimIdempotent` | src/pages/VerifyCertificate.tsx:44 | trimming twice is trimming once |
| `JsStrings.TrimEmptyIffBlank` | src/pages/VerifyCertificate.tsx:34 | the trimmed input is empty iff the input is all white space |
| `JsStrings.TrimUpperCaseCommute` | src/pages/VerifyCertificate.tsx:44 | trimming and upper-casing commute |
| `SearchParams.GetSinglePair` | src/pages/VerifyCertificate.tsx:25 | a query `name=value` of plain characters yields `value` for `name` |
| `SearchParams.GetFirstPairWins` | src/pages/VerifyCertificate.tsx:18 | the first pair carrying the name gives its value, whatever follows it |
| `SearchParams.GetSkipsOtherPair` | src/pages/VerifyCertificate.tsx:18 | a pair carrying another name is skipped and the search goes on after it |
| `Admin.IsAdmin` | src/pages/Admin.tsx:44 | admin exactly when the role query returned a row; a failed query with no row never grants admin |
| `Admin.Redirect` | src/pages/Admin.tsx:27-31 | a redirect to "/" happens exactly when auth has loaded with no user |
| `Admin.Toggled` | src/pages/Admin.tsx:79-81 | same length and order; every entry with the id has `read == !currentRead`, every other entry keeps its flag, and no other field of any entry changes |
| `Admin.ToggleTwiceRestoresEntry` | src/pages/Admin.tsx:72-81 | toggling an entry twice, each time passing its displayed flag, restores that entry |
| `Admin.ToggleTwiceRestoresList` | src/pages/Admin.tsx:72-81 | with distinct ids, two such toggles restore the whole list |
| `Admin.Gate` | src/pages/Admin.tsx:85-106 | Loading exactly while auth or the role check runs, then Access Denied exactly for a non-admin; the list only for an admin |
| `Admin.NoRoleRowDenied` | src/pages/Admin.tsx:37-44 | a role query with no row, failed or not, ends in Access Denied |
| `Admin.AdminPage.constructor` | src/pages/Admin.tsx:22-24 | no submissions, not admin, role check pending, so the page shows Loading |
| `Admin.AdminPage.CheckAdminRole` | src/pages/Admin.tsx:33-51 | with no user nothing is asked; otherwise `(user.id, "admin")` is asked, `isAdmin` is whether a row came back, and the check is over |
| `Admin.AdminPage.FetchSubmissions` | src/pages/Admin.tsx:53-70 | fetched only for an admin, so only after the role check has finished; the list is replaced only by an answer with no error and non-null data |
| `Admin.AdminPage.ToggleRead` | src/pages/Admin.tsx:72-83 | sends `read := !currentRead` for the id; a failed update leaves the list exactly as before, a successful one applies `Toggled` |
| `LMSPortal.OrEmpty` | src/pages/LMSPortal.tsx:93 | a null result becomes the empty list, a list is kept |
| `LMSPortal.ClassesOfType` | src/pages/LMSPortal.tsx:119-120 | every class kept has the type, and a class is kept iff it is in the input with that type |
| `LMSPortal.ClassesOfTypeKeepsEveryCopy` | src/pages/LMSPortal.tsx:119-120 | every copy of a class of the type is kept, as many as the input has, and no copy of any other class |
| `LMSPortal.ClassesOfTypeInOrder` | src/pages/LMSPortal.tsx:119-120 | the filter result is a subsequence of the classes, in their order |
| `LMSPortal.SplitInOrderAndDisjoint` | src/pages/LMSPortal.tsx:119-120 | recorded and live are order-preserving selections and share no class |
| `LMSPortal.OtherTypesDropped` | src/pages/LMSPortal.tsx:119-120 | a class of any other type is in neither list |
| `LMSPortal.SplitIsExhaustiveIff` | src/pages/LMSPortal.tsx:119-120 | the two lists together hold every class iff every class is recorded or live |
| `LMSPortal.Badge` | src/pages/LMSPortal.tsx:303-311 | default iff present, secondary iff late, destructive for every other status |
| `LMSPortal.Capitalize` | src/pages/LMSPortal.tsx:312 | same length, the first character upper-cased up to case, the rest kept; "" stays "" |
| `LMSPortal.CapitalizeIdempotent` | src/pages/LMSPortal.tsx:312 | capitalising twice is capitalising once |
| `LMSPortal.StatusLabels` | src/pages/LMSPortal.tsx:312 | the three statuses read "Present", "Late", "Absent" |
| `LMSPortal.OrFallback` | src/pages/LMSPortal.tsx:195 | null and "" fall back, any other value is shown; the label is never empty |
| `LMSPortal.CourseLabel` | src/pages/LMSPortal.tsx:195 | the course title when the class has a course with a non-empty title, otherwise "General" |
| `LMSPortal.DescriptionLabel` | src/pages/LMSPortal.tsx:200 | a non-empty description is shown as it is; a null or empty one reads "No description available" |
| `LMSPortal.AttendanceTitle` | src/pages/LMSPortal.tsx:298 | a joined class with a non-empty title shows that title; no class or an empty title reads "Unknown Class" |
| `LMSPortal.VerifyLink` | src/pages/LMSPortal.tsx:353 | the link is the verification path, then `?id=`, then the certificate id unencoded |
| `LMSPortal.LinkRoundTrip` | src/pages/LMSPortal.tsx:353 | a certificate id without `&`, `#`, `+`, `%`, with no tab, line feed or carriage return and not ending in a space or control character, is read back unchanged from its link's `id` parameter |
| `LMSPortal.PortalPage.constructor` | src/pages/LMSPortal.tsx:57-61 | no student, empty lists, loading |
| `LMSPortal.PortalPage.FetchStudentData` | src/pages/LMSPortal.tsx:75-117 | student, then classes, then, only with a student row, certificates and attendance by its id; nulls become empty lists; a throw stops the sequence with later fields unchanged; loading ends false on every path |
| `LoginDialog.CheckSignup` | src/components/LoginDialog.tsx:58-74 | accepted iff the passwords match and have at least 6 characters; a mismatch is reported whatever the length |
| `LoginDialog.LoginForm.constructor` | src/components/LoginDialog.tsx:17-23 | all fields empty, not loading |
| `LoginDialog.LoginForm.HandleLogin` | src/components/LoginDialog.tsx:29-53 | success clears email and password, closes the dialog and goes to /lms; failure keeps them; loading ends false |
| `LoginDialog.LoginForm.HandleSignup` | src/components/LoginDialog.tsx:55-100 | a rejected password calls nothing and leaves loading as it was; otherwise `signUp(email, password, username)` is called, success clears all four fields, closes and goes to /lms, failure keeps them, loading ends false |
| `Contact.WithField` | src/pages/Contact.tsx:60-65 | the named field holds the value and every other field keeps its own |
| `Contact.WithFieldOwnValue` | src/pages/Contact.tsx:60-65 | writing a field's own value back changes nothing |
| `Contact.WithFieldOverwrite` | src/pages/Contact.tsx:60-65 | the later of two writes to a field wins |
| `Contact.WithFieldCommute` | src/pages/Contact.tsx:60-65 | writes to different fields commute |
| `Contact.Payload` | src/pages/Contact.tsx:36-41 | name, email and message copied; phone null iff empty, otherwise verbatim |
| `Contact.PayloadRoundTrip` | src/pages/Contact.tsx:39 | the form can be read back from the payload, a null phone as "" |
| `Contact.ContactPage.constructor` | src/pages/Contact.tsx:21-27 | an empty form, not submitting |
| `Contact.ContactPage.HandleChange` | src/pages/Contact.tsx:60-65 | the form becomes `WithField` of the old form |
| `Contact.ContactPage.HandleSubmit` | src/pages/Contact.tsx:30-58 | the payload of the form is inserted; success resets all four fields, an error keeps the form; submitting ends false |

## Left out

- JsStrings.ToUpperCase: maps only the ASCII letters. JavaScript maps every Unicode letter, and some letters grow (`ß` becomes `SS`). `VerifyCertificate.LookupKey` and `LMSPortal.Capitalize` share this limit.
- LoginDialog.CheckSignup: measures length in Unicode scalar values. JavaScript's `.length` counts UTF-16 code units, so a character outside the Basic Multilingual Plane counts twice there.
- SearchParams.Get: does not decode percent escapes. `LMSPortal.LinkRoundTrip` assumes ids without `%`, so this does not affect it.
- LMSPortal.LinkRoundTrip: the browser's URL parsing of the link is not modelled. The query is taken from the link as written, so the round trip is stated only for ids that parsing leaves alone (`LMSPortal.KeptByUrlParser`): the parser removes every tab, line feed and carriage return and strips trailing spaces and control characters, and it percent-encodes the query, which cancels out here only because `SearchParams.Get` does not decode.
- Contact.ContactPage.HandleSubmit, LoginDialog.LoginForm.HandleLogin, LoginDialog.LoginForm.HandleSignup: the browser's form validation is not modelled. The inputs are marked `required` and the email inputs `type="email"` (src/pages/Contact.tsx:148, 161, 189; src/components/LoginDialog.tsx:125, 136, 160, 171, 182, 193), so the browser fires `onSubmit` only for a filled-in form with a well-formed email. The handlers are modelled on every form, including ones the page never submits, such as an empty contact form.
- Contact.ContactPage.HandleSubmit: each handler runs to completion, so the model cannot observe the state while the call is awaited, when `isSubmitting` is true; in particular the submit button, disabled while `isSubmitting` is true (src/pages/Contact.tsx:199), is never seen disabled. The same holds for `isLoading` in the other pages.
- A rejected promise in the admin page, the contact form and the login dialog. These handlers have no `try`, and the hosted client reports failures through its error field. Replies there always resolve. `Backend.Call` models a throw only where the source catches one (certificate lookup, portal fetches).
- The query engine of the hosted backend: filters, ordering by `scheduled_at` or `created_at`, and `maybeSingle`. Each query is an answer passed in, keyed by the key the page sends.
- The identity service: the internals of `useAuth`, `signIn` and `signUp`. It appears only as the current user, its loading flag, and the error each call returns.
- Effect scheduling. The effects that call `CheckAdminRole` when the user changes and `FetchSubmissions` when `isAdmin` changes are left to the caller's order of calls.
- The portal's own redirect effect (src/pages/LMSPortal.tsx:63-67), which has the same shape as `Admin.Redirect`, and its render gate (src/pages/LMSPortal.tsx:122-132), which shows Loading while auth or the fetch runs and then nothing (`null`) when there is no user.
- Toast wording, JSX layout and styling, icons, and date formatting with `toLocaleDateString` / `toLocaleString`, which depend on locale and time zone.
- Navigation and closing the dialog appear only as returned effects (`LoginDialog.Effects`, `Admin.Redirect`). The router is not modelled.
