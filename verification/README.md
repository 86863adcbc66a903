# Genie landing page: the waitlist form, the messaging-app selector and the platform carousel

A Dafny model of the three pieces of logic in the Genie marketing site:

- **The waitlist signup form** (`src/pages/Index.tsx`). `validateEmail` tests the regular
  expression `^[^\s@]+@[^\s@]+\.[^\s@]+$`. `handleSubmit` validates the field, inserts
  `{ email }` into the `signups` table and turns the answer into one toast: success, the
  PostgreSQL `unique_violation` code `23505` ("Already signed up!"), or a logged failure. Its
  `finally` clears the loading flag. The email input re-validates as the visitor types, but
  only while the field is flagged invalid.
- **The messaging-app selector** (`src/components/IMSelector.tsx`, with the defaults of
  `src/contexts/IMContext.tsx`). It has a fixed table of five options. `handleIMChange` selects
  an option by id, the mount effect re-selects the table entry for the current id, and the
  free-text input edits the name typed for "other".
- **The platform carousel** (`src/components/MessagingPlatformAnimation.tsx`). It cycles the
  heading through four platforms. A fade-out event and an advance event act on `currentIndex`
  and `isVisible`.

Layout:

| file | module | form |
|---|---|---|
| `wrappers.dfy` | `Wrappers` | `Option` |
| `email_validation.dfy` | `EmailValidation` | functions and lemmas (`validateEmail` is pure) |
| `signup_form.dfy` | `SignupForm` | class `Form` with ghost logs of inserts, toasts, log lines and outcomes |
| `im_selector.dfy` | `IMSelection` | option table, `find`, class `Selector` |
| `platform_animation.dfy` | `PlatformAnimation` | platform table, class `Carousel` |

The email check has three views, and the model proves them equal:
- `MatchesPattern` reads the regular expression as a decomposition of the string.
- `WellFormed` is a structural description: no whitespace, exactly one `@`, a non-empty local
  part, and a `.` in the domain that is neither its first nor its last character.
- `Matcher` is a compiled matcher, and `ValidateEmail` runs it. Because `[^\s@]` excludes `@`, the regular
  expression's first run must be the longest `[^\s@]` prefix, and that prefix must end at the
  `@`.

`handleSubmit` is asynchronous, so the model splits it at its `await`:
- `BeginSubmit` runs up to and including the insert.
- `CompleteSubmit(result)` runs the `try`/`catch`/`finally` once the backend has answered.

The insert's answer is one of four cases:
- a resolved result with no error;
- a resolved result carrying an error object, which line 70 rethrows;
- a rejection with an error object;
- a rejection with `null` or `undefined`.

In that last case, reading `error.code` inside the `catch` throws. No toast is shown and nothing
is logged, but the `finally` still clears the loading flag and the handler's promise rejects.

The insert sends only `{ email }` (src/pages/Index.tsx:68); no platform field is sent.

## Model

| member | source | states |
|---|---|---|
| `EmailValidation.AtomPrefixLength` | src/pages/Index.tsx:50 | the leading `[^\s@]+` run: the result is a prefix made only of characters outside `\s` and `@`, and it cannot be extended |
| `EmailValidation.MatcherSound` | src/pages/Index.tsx:49-52 | every string the matcher accepts is in the language of `^[^\s@]+@[^\s@]+\.[^\s@]+$` |
| `EmailValidation.MatcherComplete` | src/pages/Index.tsx:49-52 | every string in the language of the regular expression is accepted by the matcher |
| `EmailValidation.SplitAccepted` | src/pages/Index.tsx:50 | a split of the input as run `@` run `.` run, each run of `[^\s@]`, is accepted |
| `EmailValidation.MatcherMatchesPattern` | src/pages/Index.tsx:49-52 | the matcher accepts `s` if and only if `s` matches the regular expression |
| `EmailValidation.PatternIffWellFormed` | src/pages/Index.tsx:50 | the regular expression matches exactly the strings with no whitespace, exactly one `@`, a non-empty part before it, and a `.` after it that is neither the domain's first nor its last character |
| `EmailValidation.ValidateEmail` | src/pages/Index.tsx:49-52 | `validateEmail(s)` holds if and only if `s` is in the language of `^[^\s@]+@[^\s@]+\.[^\s@]+$`, and if and only if `s` has no whitespace, exactly one `@`, a non-empty part before it, and a `.` after it that is neither the domain's first nor its last character |
| `EmailValidation.AcceptsPlainAddress` | src/pages/Index.tsx:49-52 | `user@example.com` is accepted |
| `EmailValidation.AcceptsDottedAddress` | src/pages/Index.tsx:49-52 | `first.last@sub.domain.org` is accepted: dots may appear in the local part and several times in the domain |
| `EmailValidation.RejectsWithoutAt` | src/pages/Index.tsx:49-52 | any input without an `@` is rejected |
| `EmailValidation.RejectsIncomplete` | src/pages/Index.tsx:49-52 | the empty string, `a@b`, `a.com` and `not-an-email` are rejected |
| `EmailValidation.RejectsMisplaced` | src/pages/Index.tsx:49-52 | `a b@c.com`, `a@.com` and `a@b.` are rejected |
| `EmailValidation.RejectsSecondAt` | src/pages/Index.tsx:49-52 | `a@b@c.com` is rejected |
| `SignupForm.CaughtError` | src/pages/Index.tsx:66-76 | the `catch` block receives an error object exactly when the insert returned one (rethrown at line 70) or rejected with one |
| `SignupForm.CaughtOutcome` | src/pages/Index.tsx:77-87 | for a caught error object: "already signed up" if and only if its code is `"23505"`; otherwise failure carrying that same error, including when it has no code |
| `SignupForm.Classify` | src/pages/Index.tsx:66-87 | the branch taken: success if and only if there was no error; "already signed up" if and only if the caught error's code is `"23505"`; failure, carrying that error, if and only if a caught error has any other code or none; a crash if and only if the rejection value was null or undefined |
| `SignupForm.ReturnedLikeThrown` | src/pages/Index.tsx:70 | a returned error and a thrown error with the same code take the same branch, and that branch is never success |
| `SignupForm.Form.constructor` | src/pages/Index.tsx:17-19 | the form starts with an empty email, marked valid and not loading, with no inserts, toasts or log lines |
| `SignupForm.Form.EditEmail` | src/pages/Index.tsx:129-132 | the field becomes the typed text; the new `isValid` is the old one or, when that was false, `validateEmail` of the text, so a true flag stays true; nothing else changes; the form invariant is kept |
| `SignupForm.Form.BeginSubmit` | src/pages/Index.tsx:54-68 | an insert is issued if and only if the current email passes `validateEmail` (equivalently, is well-formed). If it fails: `isValid` is false, the email and loading flag are unchanged, there is no insert and no toast. If it passes: both flags are true and exactly one insert of `{ email }` into `signups` is added. The invariant says every insert ever issued carried a valid email |
| `SignupForm.Form.CompleteSubmit` | src/pages/Index.tsx:66-90 | afterwards `isLoading` is false on every path and `isValid` is still true. On success there is exactly one success toast and the email becomes `""`. On `"23505"` there is exactly one "Already signed up!" toast, no log line, and the email is kept. On any other error object there is exactly one log line with that error, exactly one "Something went wrong" toast, and the email is kept. A null or undefined rejection gives no toast and no log line and rejects the handler. No insert is added |
| `SignupForm.Form.HandleCaught` | src/pages/Index.tsx:76-87 | code `"23505"`: one duplicate toast and no log line; any other code or none: one log line with the error and one failure toast |
| `IMSelection.Find` | src/components/IMSelector.tsx:56 | `find` returns nothing if and only if no option has the id; otherwise it returns the first option with that id |
| `IMSelection.FindDistinct` | src/components/IMSelector.tsx:56 | in a table with distinct ids, looking up an entry's id returns that entry |
| `IMSelection.OptionTable` | src/components/IMSelector.tsx:19-45 | the table has exactly five options with distinct ids: `slack`, `discord`, `teams`, `telegram`, `other`, in that order |
| `IMSelection.FindOption` | src/components/IMSelector.tsx:19-45 | looking up any option's id in the table returns exactly that option, so a lookup finds at most one |
| `IMSelection.Selector.constructor` | src/contexts/IMContext.tsx:17-34 | the initial selection is `{ name: "Slack", id: "slack" }`, the other-name is `""`, and the free-text input is hidden (src/components/IMSelector.tsx:17) |
| `IMSelection.Selector.Mount` | src/components/IMSelector.tsx:47-53 | the selected id never changes. A known id is replaced by its own table entry; an unknown id leaves the selection as it was |
| `IMSelection.Selector.HandleIMChange` | src/components/IMSelector.tsx:55-64 | an unknown id changes nothing. A known id selects the table entry with that id, shows the free-text input if and only if the id is `other`, clears the other-name for every other id, and keeps it for `other` |
| `IMSelection.Selector.EditOtherName` | src/components/IMSelector.tsx:100 | the other-name becomes exactly the typed text, and nothing else changes |
| `IMSelection.MountFromDefault` | src/components/IMSelector.tsx:47-53 | mounting from the context's default selects the table's Slack entry, with an empty other-name and the input hidden |
| `PlatformAnimation.Next` | src/components/MessagingPlatformAnimation.tsx:39 | one advance stays in bounds: it moves to the following entry, and from the last entry back to the first |
| `PlatformAnimation.AdvanceBy` | src/components/MessagingPlatformAnimation.tsx:39 | after any number of advances, the index is still within the table |
| `PlatformAnimation.AdvanceByIsRotation` | src/components/MessagingPlatformAnimation.tsx:39 | `n` advances from `i` give `(i + n) % 4` |
| `PlatformAnimation.FullCycle` | src/components/MessagingPlatformAnimation.tsx:9-39 | four advances return the index to its starting value |
| `PlatformAnimation.DisplayOrder` | src/components/MessagingPlatformAnimation.tsx:9-26 | starting from 0, the heading shows Slack, Discord, Telegram, Teams, then Slack again |
| `PlatformAnimation.Carousel.constructor` | src/components/MessagingPlatformAnimation.tsx:29-30 | the carousel starts at index 0, visible |
| `PlatformAnimation.Carousel.Shown` | src/components/MessagingPlatformAnimation.tsx:57-62 | under the invariant `0 <= currentIndex < 4`, `platforms[currentIndex]` is defined and is an entry of the table |
| `PlatformAnimation.Carousel.FadeOut` | src/components/MessagingPlatformAnimation.tsx:35 | the fade-out hides the platform, leaves the index unchanged and keeps it in bounds |
| `PlatformAnimation.Carousel.Advance` | src/components/MessagingPlatformAnimation.tsx:39-40 | the advance sets the index to `(currentIndex + 1) % 4` and makes it visible; the index stays in bounds |
| `PlatformAnimation.FourRounds` | src/components/MessagingPlatformAnimation.tsx:33-41 | four interval rounds, each a fade-out then an advance, end on the starting platform, visible |

## Left out

- Layout, styling and JSX: the markup around the form, selector and carousel, and the
  validation message and button labels they render.
- The IntersectionObserver scroll animation (src/pages/Index.tsx:24-47) is DOM input and
  output. `scrollToSection` (src/pages/Index.tsx:93-95) is left out for the same reason.
- The Supabase client is a network call into a library outside this model. Its answer is the
  `InsertResult` passed to `CompleteSubmit`. The `signups` table and its uniqueness constraint
  are not modelled.
- `toast` and `console.error` are output sinks. Their calls are appended to ghost logs and their
  rendering is left out.
- `async`/`await` scheduling, React's batching of state updates, and the timers are reduced to
  discrete events: the 2000 ms interval, the 500 ms timeout and `clearInterval` on unmount.
  Each setter takes effect when it is called.
- `BeginSubmit` models the handler once the browser has dispatched `submit`. The inputs have
  `type="email"` and `required` and the forms lack `noValidate` (src/pages/Index.tsx:123-136,
  254-267), so the browser's own e-mail check runs first: it blocks an empty or non-address
  value (such as `not-an-email`) and trims surrounding whitespace. That native check is not
  modelled; the invalid path of `BeginSubmit` is reached in the page only by values that check
  accepts and the regular expression rejects, such as `a@b`.
- Double submission: `BeginSubmit` requires that no attempt is in flight. In the source the only
  guard is the disabled submit button (src/pages/Index.tsx:147, 273), and concurrent attempts
  are not modelled.
- The regular-expression engine is not modelled; only the language it accepts is. `IsSpace` is
  the fixed set of ECMAScript `\s` code points: tab, line feed, vertical tab, form feed,
  carriage return, space, U+00A0, U+1680, U+2000 to U+200A, U+2028, U+2029, U+202F, U+205F,
  U+3000 and U+FEFF. Dafny characters are Unicode scalar values and JavaScript strings are
  UTF-16, so lone surrogates are not modelled.
- The React context plumbing (`createContext`, `useContext`, the provider) is left out. Only its
  default values are used, as the selector's initial state. The `logo` fields of the options are
  dropped.
- The free-text name typed for "other" is not sent anywhere by these components, so nothing
  downstream of the selector is modelled.
