# Wedding invitation: RSVP e-mail, countdown, reveal-on-scroll and music latch

This project models the four pieces of sequential logic in the wedding-invitation site and proves properties of them in Dafny:

- **RSVP endpoint** (`app/api/send-rsvp/route.ts`).
  - `escapeHtml` is modelled as its four chained global replacements, `&` first (`HtmlEscape.EscapeHtml`).
  - It is proved equal to a character-by-character reference escaping.
  - The four replacements undone in reverse order give back the input.
  - `buildEmailHtml` is modelled with its exact template (`SendRsvp.BuildEmailHtml`). A reader for that template, `SendRsvp.ParseEmail`, is its partner: every displayed value reads back exactly, unless the unescaped attendance or transfer text carries a `<` of its own.
  - `POST` is a pure function of four inputs: the parsed request (or what parsing threw), the API key, the configured sender and the provider's reply. It returns the response and the e-mail handed to the provider, if any.
- **Countdown** (`components/CountdownTimer.tsx`).
  - `calculateTimeLeft` is proved to split the remaining milliseconds into the unique in-range tuple that adds up to the difference rounded down to a whole second.
  - The `padStart` display keeps the number's value and never truncates.
  - A small class holds the `timeLeft` state that the interval recomputes.
- **Reveal** (`components/Reveal.tsx`).
  - A class with one method per event: observer batch, timer firing, effect cleanup.
  - Its fields are `isVisible`, the handle stored on the element, the set of timers still pending, and whether the element is still observed.
  - Scenario methods exhibit the handles the cleanup cannot cancel.
- **Music player** (`components/MusicPlayer.tsx`).
  - A class with one method per event: start timer, document gesture, mute button, cleanup.
  - The outcome of `audio.play()` is a boolean parameter.
  - It keeps the invariant that `isPlaying` and `hasInteracted` are equal and never go back to false, and that the start latch implies playback.

Inputs of the model:

- The clock (`new Date().getTime()`) and the parsed target date are integer parameters.
- `request.json()`, `process.env.RESEND_API_KEY`, `process.env.RESEND_FROM_EMAIL` and the provider's `send` are parameters of `SendRsvp.Post`.
- Timer handles are modelled as increasing positive integers.

Behaviour of the code worth knowing:

- Unmounting a reveal clears only the handle stored on the element. In `once` mode no handle is stored, and in toggle mode only the latest one is. A delayed reveal can therefore outlive its element (`Reveal.OnceTimerOutlivesCleanup`). A toggle-mode reveal can also fire after the element has left the viewport (`Reveal.ToggleOrphanTimerRevealsAfterLeave`).
- The three gesture listeners are independent `{ once: true }` registrations, and a failed `play()` releases the start latch. A gesture after a failed timer attempt therefore tries again and can start playback (`MusicPlayer.Player.TryPlay`, `MusicPlayer.GestureRetriesAfterFailedTimer`). Once the timer and all three gestures have failed, no automatic attempt is left (`MusicPlayer.AutomaticAttemptsRunOut`).
- The cleanup pauses the audio whenever the start latch is clear. Playback started from the mute button never sets that latch, so it is paused on unmount (`MusicPlayer.ButtonStartedPlaybackIsPausedOnCleanup`).
- The handler parses the request before it checks the key. A malformed request without a key answers with the parse error, not with the configuration message (`SendRsvp.PostParseFailure`).

## Model

| member | source | states |
|---|---|---|
| HtmlEscape.EscapeHtml | app/api/send-rsvp/route.ts:30-36 | text without `&`, `<`, `>` and `"` (an apostrophe included) is returned as it is |
| HtmlEscape.ReplaceChar | app/api/send-rsvp/route.ts:32-35 | a global single-character replacement leaves text without that character unchanged |
| HtmlEscape.EscapeHtmlIsCharwise | app/api/send-rsvp/route.ts:30-36 | the four chained replacements, `&` first, equal escaping each character on its own into its entity |
| HtmlEscape.UnescapeEscape | app/api/send-rsvp/route.ts:32-35 | undoing the four replacements in reverse order gives back the original text, for every input |
| HtmlEscape.EscapeHtmlAppend | app/api/send-rsvp/route.ts:30-36 | escaping the concatenation of two strings is the concatenation of their escapings |
| HtmlEscape.EscapeHtmlNoMarkup | app/api/send-rsvp/route.ts:30-36 | the escaped text contains no `<`, `>` or `"` |
| HtmlEscape.EscapeHtmlAmpersands | app/api/send-rsvp/route.ts:32-35 | every `&` of the escaped text begins `&amp;`, `&lt;`, `&gt;` or `&quot;` |
| HtmlEscape.Entity | app/api/send-rsvp/route.ts:32-35 | each replacement starts with its only `&` and contains no `<`, `>` or `"` |
| HtmlEscape.SpecialIndex | app/api/send-rsvp/route.ts:32-35 | classifies a character as one of the four replaced characters, in replacement order, or as none of them |
| SendRsvp.OrDash | app/api/send-rsvp/route.ts:22-23 | an empty name becomes the dash; a non-empty one is kept |
| SendRsvp.YesNoText | app/api/send-rsvp/route.ts:17-18 | `yes` gives `Да`, `no` gives `Нет`, the empty string gives the dash, anything else passes through verbatim; no `<` is introduced |
| SendRsvp.Join | app/api/send-rsvp/route.ts:19 | joining no items gives the empty string and one item gives that item |
| SendRsvp.JoinSnoc | app/api/send-rsvp/route.ts:19 | appending an item appends the separator and the item |
| SendRsvp.DrinksText | app/api/send-rsvp/route.ts:19 | the drinks line is the dash for a non-array or an empty list, else the items joined by `, ` |
| SendRsvp.SplitAtTag | app/api/send-rsvp/route.ts:20-27 | splits the text before its first `<`; the parts concatenate back to the text |
| SendRsvp.TakeSlot | app/api/send-rsvp/route.ts:20-27 | a value read from between two template parts contains no `<` |
| SendRsvp.ReadSlots | app/api/send-rsvp/route.ts:20-27 | reading gives one `<`-free value per template part |
| SendRsvp.Closers | app/api/send-rsvp/route.ts:20-27 | the five template parts that follow the values each start with `<` |
| SendRsvp.ParseEmail | app/api/send-rsvp/route.ts:20-27 | the attendance and transfer values read from an e-mail contain no `<` |
| SendRsvp.ReadFill | app/api/send-rsvp/route.ts:20-27 | `<`-free values placed before their template parts are read back exactly |
| SendRsvp.BuildEmailHtml | app/api/send-rsvp/route.ts:16-28 | the e-mail starts with the fixed heading and ends with the fixed text after the drinks line |
| SendRsvp.BuildIsFill | app/api/send-rsvp/route.ts:20-27 | the e-mail is the heading followed by each of the five values and the fixed text after it |
| SendRsvp.RenderedValuesHaveNoTag | app/api/send-rsvp/route.ts:22-26 | the escaped values never contain `<`, and the two answers contain none when the guest's text has none |
| SendRsvp.ParseFilled | app/api/send-rsvp/route.ts:20-27 | an e-mail built from `<`-free values reads back as those values, the escaped ones unescaped |
| SendRsvp.EmailRoundTrip | app/api/send-rsvp/route.ts:16-28 | reading the rendered e-mail gives back the five display values (escaped fields unescaped) whenever attendance and transfer carry no `<` |
| SendRsvp.AnswersInterpolatedRaw | app/api/send-rsvp/route.ts:24-25 | an attendance or transfer answer other than `yes`, `no` and the empty string occurs in the e-mail verbatim, without escaping |
| SendRsvp.AttendanceMarkupNotEscaped | app/api/send-rsvp/route.ts:24 | an attendance answer containing `<` occurs in the e-mail verbatim, and the e-mail then does not read back as that answer |
| SendRsvp.ContainsEscapedLastName | app/api/send-rsvp/route.ts:22 | the e-mail contains the last name, or the dash, in escaped form |
| SendRsvp.AnswersReadBack | app/api/send-rsvp/route.ts:16-28 | a guest answering `yes` and `no` with two drinks reads back as `Да`, `Нет` and the two drinks joined by `, `, with the names (or the dash for an empty one) as entered |
| SendRsvp.Truthy | app/api/send-rsvp/route.ts:43 | an absent value and the empty string are falsy, every other string is truthy (also the tests at lines 59 and 61) |
| SendRsvp.OrEmpty | app/api/send-rsvp/route.ts:51-54 | an absent field becomes the empty string, a present one is kept |
| SendRsvp.Normalize | app/api/send-rsvp/route.ts:50-56 | each of the four text fields is the received one, or the empty string when absent; the body always has a drinks list, and keeps the one received when it was an array |
| SendRsvp.MissingDrinksRenderDash | app/api/send-rsvp/route.ts:55 | a non-array `drinks` value is coerced to the empty list and the e-mail's drinks line shows the dash |
| SendRsvp.Subject | app/api/send-rsvp/route.ts:61 | the subject is the prefix followed by the first non-empty of last name, first name and the fallback text |
| SendRsvp.Sender | app/api/send-rsvp/route.ts:59 | the configured sender when it is non-empty, else `onboarding@resend.dev` |
| SendRsvp.ExceptionResponse | app/api/send-rsvp/route.ts:70-75 | a thrown value answers 500 with its message when it is an `Error`, else the fallback message |
| SendRsvp.Post | app/api/send-rsvp/route.ts:38-76 | the provider is called exactly when the request parsed and the key is non-empty; status is 200 exactly when it was called and delivered; status is always 200 or 500, and 200 exactly with the success body |
| SendRsvp.PostWithoutKey | app/api/send-rsvp/route.ts:43-48 | without a key the answer is 500 with the configuration message and no e-mail is sent |
| SendRsvp.PostParseFailure | app/api/send-rsvp/route.ts:38-76 | a request that fails to parse answers as the exception does, before and regardless of the key |
| SendRsvp.PostEmail | app/api/send-rsvp/route.ts:58-63 | the e-mail sent has the sender, the fixed recipient, the subject and the body rendered from the normalised payload |
| SendRsvp.PostDeliversAnswers | app/api/send-rsvp/route.ts:50-63 | with a key, the e-mail handed to the provider reads back as the guest's names (or the dash), the localised answers and the drinks line, whenever the two answers carry no `<` |
| SendRsvp.PostProviderOutcome | app/api/send-rsvp/route.ts:65-75 | delivery answers 200 with success, a provider error answers 500 with its message, a provider exception answers as the exception |
| Countdown.CalculateTimeLeft | components/CountdownTimer.tsx:18-33 | a non-positive difference gives all zeros; hours are at most 23, minutes and seconds at most 59 |
| Countdown.CalculateIsWholeSeconds | components/CountdownTimer.tsx:25-28 | for a positive difference the tuple equals the whole seconds of the difference split into days, hours, minutes and seconds |
| Countdown.Reassembly | components/CountdownTimer.tsx:25-28 | the tuple's total `T` satisfies `T <= difference < T + 1000` |
| Countdown.ReassemblyUnique | components/CountdownTimer.tsx:25-28 | any in-range tuple whose total satisfies that bound is the computed tuple |
| Countdown.SameSecondSameTuple | components/CountdownTimer.tsx:23-32 | two differences with the same floor of difference over 1000 give the same tuple |
| Countdown.SubSecondIsZero | components/CountdownTimer.tsx:23-28 | a positive difference under one second shows all zeros |
| Countdown.CountsDown | components/CountdownTimer.tsx:21-32 | a later clock reading never gives a larger total |
| Countdown.DecimalString | components/CountdownTimer.tsx:47 | `String(n)` is a non-empty string of decimal digits without a leading zero |
| Countdown.DecimalRoundTrip | components/CountdownTimer.tsx:47 | the decimal digits denote the number |
| Countdown.Repeat | components/CountdownTimer.tsx:47 | the fill has the requested length and holds only the fill character |
| Countdown.PadStart | components/CountdownTimer.tsx:47 | the result has length max(width, input length), ends with the input, and is otherwise fill characters |
| Countdown.ZerosPreserveValue | components/CountdownTimer.tsx:47 | leading zeros do not change the value of a digit string |
| Countdown.DisplayField | components/CountdownTimer.tsx:47-65 | a displayed field has at least the pad width and is never shorter than the number's own digits |
| Countdown.DisplayFieldValue | components/CountdownTimer.tsx:47-65 | a displayed field denotes the number it shows |
| Countdown.DisplayTimeLeft | components/CountdownTimer.tsx:47-65 | days show as at least three digits, hours, minutes and seconds as exactly two, each denoting its field |
| Countdown.CountdownTimer.constructor | components/CountdownTimer.tsx:10-15 | before the first computation the state is all zeros |
| Countdown.CountdownTimer.Start | components/CountdownTimer.tsx:35-36 | the effect computes the state immediately and registers the interval |
| Countdown.CountdownTimer.Tick | components/CountdownTimer.tsx:18-36 | each tick sets the state to the tuple for the target and the clock, independent of the previous state |
| Countdown.CountdownTimer.Stop | components/CountdownTimer.tsx:38 | the cleanup unregisters the interval |
| Countdown.CountdownTimer.ChangeTarget | components/CountdownTimer.tsx:17-39 | a new target clears the old interval before registering one, and recomputes for the new target |
| Reveal.RevealElement.constructor | components/Reveal.tsx:30-62 | mounting starts hidden, with no timers and the element observed |
| Reveal.RevealElement.OnEntries | components/Reveal.tsx:37-58 | only the first entry counts; entering without delay shows at once, with delay only schedules a timer (stored in toggle mode, overwriting the previous handle); `once` unobserves on entering and ignores leaving; toggle-mode leaving clears the stored timer and hides |
| Reveal.RevealElement.FireTimer | components/Reveal.tsx:42 | a firing timer sets `isVisible` and leaves the stored handle unchanged |
| Reveal.RevealElement.Cleanup | components/Reveal.tsx:63-68 | cleanup clears only the stored handle and disconnects the observer; in `once` mode no pending timer is cleared |
| Reveal.OnceTimerOutlivesCleanup | components/Reveal.tsx:41-67 | in `once` mode with a delay, a timer is still pending after unmount |
| Reveal.ToggleOrphanTimerRevealsAfterLeave | components/Reveal.tsx:41-56 | in toggle mode, an overwritten timer survives leaving and reveals the element after it has left |
| Reveal.OnlyFirstEntryCounts | components/Reveal.tsx:39 | a batch whose first entry is a leave hides the element even if a later entry enters |
| Reveal.ClassName | components/Reveal.tsx:74-80 | the class list always starts with the base classes |
| Reveal.VisibilityOnlyAddsClasses | components/Reveal.tsx:74-80 | `isVisible` only inserts `opacity-100 translate-y-0` after the base classes |
| MusicPlayer.Player.constructor | components/MusicPlayer.tsx:14-49 | the element is looped, at volume 0.5 and preloading; nothing plays; the start timer and three listeners are registered |
| MusicPlayer.Player.TryPlay | components/MusicPlayer.tsx:28-42 | nothing happens when already started or not paused; otherwise success sets playing and interacted, failure releases the latch; the flags never go back to false |
| MusicPlayer.Player.OnStartTimer | components/MusicPlayer.tsx:45 | the start timer fires once and tries to play: from a paused element a successful play starts playback and sets the latch, a failed one leaves it paused and the latch clear |
| MusicPlayer.Player.OnDocumentEvent | components/MusicPlayer.tsx:47-49 | a gesture removes its own listener and tries to play, with the same outcome for playback and the latch as the timer |
| MusicPlayer.Player.ToggleMute | components/MusicPlayer.tsx:60-84 | before interaction a successful play sets playing and interacted and unmutes, a failed one changes nothing; afterwards it flips mute on the state and the element alike and leaves playing untouched |
| MusicPlayer.Player.Cleanup | components/MusicPlayer.tsx:51-57 | clears the timer and the listeners, and pauses exactly when the start latch is clear |
| MusicPlayer.ButtonStartedPlaybackIsPausedOnCleanup | components/MusicPlayer.tsx:56-73 | playback started by the button is paused by the cleanup |
| MusicPlayer.AutomaticStartSurvivesCleanup | components/MusicPlayer.tsx:28-57 | playback started by the timer sets the latch, so the cleanup does not pause it |
| MusicPlayer.GestureRetriesAfterFailedTimer | components/MusicPlayer.tsx:28-49 | after a failed timer attempt the latch is clear, and a later successful gesture starts playback and sets it |
| MusicPlayer.AutomaticAttemptsRunOut | components/MusicPlayer.tsx:38-49 | after the timer and the three gestures have failed, no automatic attempt is left and nothing plays |

## Left out

- The mail provider client, `request.json()`, `NextResponse` and the environment reads are parameters of `SendRsvp.Post`; network I/O and `async` scheduling are not modelled.
- Request fields that are not strings (a number as `lastName`, a non-string inside `drinks`) are not modelled: the model's payload holds strings, an absent or null field, or a non-array `drinks`.
- Parsing the target date and reading the clock are left to the runtime; the model takes both as integer milliseconds, and a date that fails to parse (`NaN`) is not modelled.
- `setInterval`, `setTimeout` and the intersection observer's threshold geometry are abstract events; the delay's length and the threshold value do not appear in the model's decisions.
- `Reveal.ClassName`: `cn` is modelled as joining its truthy arguments with spaces; the class merging done by `lib/utils` is not part of this model.
- React's re-run of an effect when its dependencies change is modelled for the countdown (`ChangeTarget`) only; for the reveal and the player each object models one mount.
- `audio.play()` is atomic: its success or failure is a parameter and its promise settles at once, so interleavings of a pending play with later events are not modelled; nor is a `play()` that returns `undefined`.
- Countdown.DecimalString: models `String(n)` as plain decimal digits only; JavaScript switches to exponent notation from 1e21, which a count bounded by the largest `Date` (8.64e15 ms) never reaches.
- The `!audio` and `!ref.current` guards are not modelled: the element is assumed present.
- Rendering (JSX, icons, labels), `app/page.tsx`, `app/layout.tsx`, `components/PageLoader.tsx` and `components/QrRedirectPage.tsx` are static markup or thin wrappers and are not part of this model; the orientation gate and the image-preload gate have no code in the modelled files.
