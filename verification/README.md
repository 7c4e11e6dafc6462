# CyberShield roadmap: the session, progress and view logic in Dafny

CyberShield is a single-page React dashboard. It shows a three-month
security curriculum (`ROADMAP_DATA`) behind a mock login. Under the
rendering sits a small layer of logic, and this project models that layer
as pure functions over immutable state:

- **Session and lockout** (App.tsx, components/LoginPage.tsx). A login
  writes `session_user` and `session_start` into `localStorage`. A
  one-second interval counts down four hours from the start and then
  forces a logout. That logout records today's date as `lockout_date`.
  The login form refuses every submission on that date, and it refuses
  empty credentials.
- **Progress** (App.tsx). Completion is a set of milestone ids that a
  checkbox click toggles. Each phase shows the rounded percentage of its
  milestones that are completed. The header shows `|done| / 9` as a
  rounded percentage.
- **View cursors** (App.tsx). There are three cursors: the active phase,
  the one expanded milestone and the one expanded topic. Each expansion
  opens on a click and closes on a second click. Choosing a phase closes
  both expansions.
- **Time formatting** (App.tsx). `formatTime` renders milliseconds as
  `HH:MM:SS`.
- **The curriculum table** (constants.tsx). It is a constant, together with
  the structural facts the code above relies on without checking them.

The modules are:

- `Wrappers`: `Option`.
- `Types`: the records of types.ts.
- `Roadmap`: the table and its invariants.
- `JsNumber`: `toString`, `padStart` and `parseInt` on integers.
- `Clock`: `formatTime`, and a parser that reads its output back.
- `Session`: the shell's state machine and its four-hour limit.
- `LoginPage`: the form.
- `Progress`: the completion tracker.
- `View`: the dashboard's cursors.
- `Scenarios`: properties that span several of these modules.

Each source file is cited by its path under the repository root.

The host is passed in as values:

- `localStorage` is a `map<string, string>`.
- `Date.now()` and `new Date().toDateString()` become an
  `Env(now, today)` argument.
- Whether a milestone click landed on the checkbox (`closest('.milestone-check')`)
  is a boolean argument.

Each React handler or effect run is one transition function.

## Model

| member | source | states |
|---|---|---|
| Roadmap.RoadmapShape | constants.tsx:4-200 | the table has phases with ids 1, 2, 3 in that order, every phase has exactly three milestones, and nine milestones in all |
| Roadmap.PhaseMilestoneIdLists | constants.tsx:39-177 | phase 1 holds m1-1..m1-3, phase 2 holds m2-1..m2-3 and phase 3 holds m3-1..m3-3 |
| Roadmap.ShippedMilestoneIdList | constants.tsx:39-177 | the ids of all milestones, in table order, are the nine ids m1-1 to m3-3 |
| Roadmap.ShippedMilestoneIdsDistinct | constants.tsx:41-176 | no two milestones of the whole table share an id |
| Roadmap.PhaseIdsDistinct | constants.tsx:6-150 | no two phases share an id |
| Roadmap.ShippedTopicNamesDistinct | constants.tsx:12-172 | within every phase, no two topics share a name |
| Roadmap.ShippedMilestonesNotCompleted | constants.tsx:44-176 | every milestone in the table carries `completed: false` |
| Roadmap.RoadmapWellFormed | constants.tsx:4-200 | the table satisfies every structural invariant at once: non-empty, distinct phase ids, non-empty milestone lists, distinct milestone ids, distinct topic names per phase, nothing pre-completed |
| Roadmap.ShippedMilestoneIdCount | constants.tsx:39-177 | the set of shipped milestone ids, and the set of ids the table holds, each have exactly nine elements |
| Roadmap.ShippedMilestoneIdsFromTable | constants.tsx:39-177 | the nine ids the header counts against are exactly the milestone ids the table holds |
| Roadmap.FindPhase | App.tsx:75 | `find` by id: a result is a phase of the table with that id and the first such phase; no result exactly when no phase has the id |
| JsNumber.NatToString | App.tsx:70 | `toString` of a non-negative integer: at least one decimal digit, no leading zero, a single digit exactly below 10 |
| JsNumber.IntToStringReadsBack | App.tsx:102 | `toString` of an integer starts with "-" exactly when it is negative, and `parseInt` reads it back as the same integer |
| JsNumber.DigitsValueOfNatToString | App.tsx:70 | reading the rendered digits back gives the number (proved by induction) |
| JsNumber.DigitsValueLeadingZero | App.tsx:102 | a leading zero does not change a numeral's value (proved by induction) |
| JsNumber.PadStart | App.tsx:102 | `padStart(len, fill)`: the result has length `max(len, |s|)`, ends with `s`, and every added character is `fill` |
| JsNumber.TrimStart | App.tsx:46 | `parseInt`'s whitespace skip: the result is a suffix that starts with a non-whitespace character, and everything dropped was whitespace |
| JsNumber.DigitPrefix | App.tsx:46 | `parseInt`'s digit scan: the result is the longest prefix made of digits in the radix |
| JsNumber.ParseInt | App.tsx:46 | `parseInt`: an empty or all-blank string is NaN, and a negative result needs a leading "-" after the blanks; ParseIntOfNumeral and ParseIntOfNatToString pin the value of a plain numeral |
| JsNumber.ParseIntOfNumeral | App.tsx:46 | `parseInt` of a decimal numeral without a superfluous leading zero is its value |
| JsNumber.ParseIntOfNatToString | App.tsx:46-47 | `parseInt(Date.now().toString())` is the clock reading: the stored start round-trips |
| JsNumber.ParseIntOfNegativeNumeral | App.tsx:46 | `parseInt` of "-" followed by a canonical decimal numeral is the negated value |
| JsNumber.SignedOfMinus | App.tsx:46 | after the blanks, a leading "-" negates the magnitude `parseInt` reads from the rest |
| Clock.FormatTimeReadsBack | App.tsx:97-103 | for `ms >= 0` the display parses back as three fields with minutes and seconds below 60 and `hrs*3600 + mins*60 + secs == ms div 1000` |
| Clock.FormatTime | App.tsx:97-103 | `formatTime`; its contract is stated by FormatTimeReadsBack, FormatTimeShape and FormatTimeOfFields: for `ms >= 0` an `HH:MM:SS` display whose fields read back as the hours, minutes and seconds of `ms div 1000` |
| Clock.FormatTimeShape | App.tsx:97-103 | for `ms >= 0` the display is `HH:MM:SS`: two colons in fixed places from the end, decimal digits elsewhere, and at least two digits per field |
| Clock.FormatTimeOfNonNegative | App.tsx:97-103 | for `ms >= 0` JavaScript's truncating `%` agrees with Euclidean remainder, so the display is the Euclidean split rendered |
| Clock.FormatTimeOfFields | App.tsx:97-103 | a time whose whole seconds are `h*3600 + m*60 + s` with `m, s < 60` displays exactly those fields |
| Clock.RenderReadsBack | App.tsx:102 | three padded fields joined by colons parse back as the same three numbers |
| Clock.FieldReadsBack | App.tsx:102 | a padded field is at least two decimal digits and reads back as its number |
| Clock.Field | App.tsx:102 | `n.toString().padStart(2, '0')`; FieldReadsBack states that for `n >= 0` it is at least two decimal digits that read back as `n` |
| Clock.SplitThree | App.tsx:102 | joining three colon-free strings with colons and splitting at colons gives the three strings back |
| Clock.SplitSeconds | App.tsx:98-101 | hours, minutes and seconds recombine to the whole seconds, with minutes below 60 |
| Session.HandleLogout | App.tsx:33-40 | both session keys are removed and the user is cleared. `lockout_date` becomes today exactly for the reason `'LOCKOUT'` and is otherwise untouched. Every other key is untouched |
| Session.OnLogin | App.tsx:67-72 | the name is stored and becomes the user. The stored start reads back through `parseInt` as `now`. The lockout date and every other key are untouched |
| Session.StoredStart | App.tsx:46-47 | a missing or empty stored start reads as 0, and a start written as `n.toString()` reads back as `n` |
| Session.SessionEffect | App.tsx:43-50 | with no user the interval is cleared. With a user and a usable start it runs from that start. Otherwise (missing, empty, non-numeric or zero start) the user is logged out: both session keys are removed, no lockout is written and the displayed time is kept |
| Session.Tick | App.tsx:52-61 | before the limit the remaining time is shown. At or after the limit the user is logged out, both keys are removed and today is recorded as the lockout date, while the displayed time and every other key are untouched |
| Session.StepsPreserveConsistency | App.tsx:31-72 | every transition keeps the displayed time positive, and keeps an interval running only for a signed-in user with a non-zero start |
| Session.MountConsistent | App.tsx:26-50 | the shell starts in a consistent state whatever the store holds |
| Session.Mount | App.tsx:26-50 | mounting shows the full limit. A stored user survives exactly when the store also holds a usable start (or the stored name is empty, which the effect ignores as falsy), and an interval runs from that start exactly then |
| Session.LoginStartsCountdown | App.tsx:43-72 | after a login the effect starts an interval from the login moment exactly when that moment is not 0 |
| Session.TickKeepsSessionBeforeLimit | App.tsx:52-61 | for `start <= now < start + limit` a tick keeps user, store and interval and shows a time in `(0, limit]` |
| Session.TickLogsOutExactlyAtLimit | App.tsx:52-61 | a tick signs the user out if and only if `now >= start + limit`, and then records today's lockout |
| Session.CorruptedSessionLogsOut | App.tsx:46-50 | a signed-in user whose start is missing, empty or "0" is logged out, both session keys are removed and no lockout is written |
| Session.SessionStartOnlyWrittenByLogin | App.tsx:43-65 | ticks and the effect either keep the stored start or remove it, never write a new one |
| LoginPage.MountForm | components/LoginPage.tsx:15-20 | the form is locked exactly when the stored lockout date equals today's date string, and starts with empty fields and no error |
| LoginPage.SetUsername | components/LoginPage.tsx:91 | typing a name replaces only the name field: password, lockout, error and authenticating state are kept |
| LoginPage.SetPassword | components/LoginPage.tsx:104 | typing a key replaces only the password field: name, lockout, error and authenticating state are kept |
| LoginPage.HandleLogin | components/LoginPage.tsx:22-38 | `onLogin` is called exactly when the form is not locked and both fields are non-empty, and it receives exactly the username. A locked form is unchanged. Otherwise the error is cleared on sign-in and set to "CREDENTIALS REQUIRED" on empty fields. `isAuthenticating` is set exactly on sign-in |
| LoginPage.LockoutTakesPrecedence | components/LoginPage.tsx:24-29 | a locked-out form ignores every submission, whatever was typed, and keeps its error |
| LoginPage.UnlockedSubmission | components/LoginPage.tsx:26-37 | without today's lockout, filled fields sign in with exactly the name, and an empty field only shows the error |
| Progress.Toggle | App.tsx:80-85 | the id's membership flips, and every other id keeps its membership |
| Progress.ToggleInvolution | App.tsx:80-85 | toggling the same id twice restores the set |
| Progress.RoundPercent | App.tsx:94 | `Math.round(100*num/den)` with ties rounded up, characterised by `2*den*r <= 200*num + den < 2*den*(r+1)` |
| Progress.RoundPercentRange | App.tsx:94 | a share in [0, 1] rounds into [0, 100]. Below 200 parts it is 0 exactly at no part and 100 exactly at all parts |
| Progress.RoundPercentMonotone | App.tsx:94 | a larger numerator never rounds lower |
| Progress.CountCompletedExtremes | App.tsx:93 | all milestones are counted exactly when every id is completed, and none exactly when no id is (proved by induction) |
| Progress.CountCompleted | App.tsx:93 | the filter count never exceeds the number of milestones; CountCompletedIsOverlap pins it to the overlap with the completed set |
| Progress.CountCompletedMonotone | App.tsx:93 | completing more ids never lowers the count (proved by induction) |
| Progress.CountCompletedIsOverlap | App.tsx:93 | with distinct ids, the count is the size of the completed set's intersection with the phase's ids (proved by induction) |
| Progress.CalculateProgress | App.tsx:91-95 | the percentage is undefined (NaN) exactly for a phase without milestones, and otherwise lies in [0, 100] |
| Progress.ProgressIsOverlapShare | App.tsx:91-95 | with distinct ids, the percentage is the rounded share `|done ∩ phase ids| / |phase|` |
| Progress.ProgressExtremes | App.tsx:91-95 | a phase with milestones shows 0% when none is completed and 100% when all are; for fewer than 200 milestones these are the only ways to show 0% and 100% |
| Progress.ProgressMonotone | App.tsx:91-95 | completing more milestones never lowers a phase's percentage |
| Progress.ThreeMilestoneProgress | App.tsx:91-95 | a three-milestone phase only shows 0, 33, 67 or 100 |
| Progress.TotalDenominatorMatchesTable | App.tsx:165 | the hard-coded 9 equals the table's milestone count and its number of distinct ids |
| Progress.TotalCompletion | App.tsx:165 | the total is the whole percent nearest to the completed count out of nine, with halves rounded up |
| Progress.TotalCompletionBounded | App.tsx:165 | with only shipped ids completed the total lies in [0, 100], and is 100 exactly when every shipped milestone is completed |
| View.ActivePhaseIn | App.tsx:75 | the active phase carries the active id whenever some phase has that id, and is the first phase when none has it |
| View.Reclick | App.tsx:87 | a re-click on the open entry closes it, and a click on any other entry opens that one |
| View.SelectPhase | App.tsx:188-192 | the chosen phase becomes active, both expansions close whatever they were, and completion is kept |
| View.ClickMilestone | App.tsx:77-89 | a milestone click keeps the active phase and the topic cursor. A checkbox click keeps the milestone cursor, any other click keeps the completed set |
| View.ClickTopic | App.tsx:322 | a topic click closes the topic exactly when it was the open one and otherwise opens it, leaving every other field alone |
| View.CheckboxClickTogglesOnlyThatId | App.tsx:79-85 | a checkbox click flips exactly that id and leaves the active phase and both expansions alone, and a second click restores the dashboard |
| View.CardClickTogglesExpansion | App.tsx:86-88 | any other click on a milestone card closes it if it was open and otherwise opens it, and changes neither completion nor the topic cursor |
| View.TopicClickTogglesExpansion | App.tsx:322 | a topic click toggles the topic cursor the same way, independently of the milestone cursor and completion |
| View.Step | App.tsx:183-192 | one click on the page: only a phase card moves the active phase, only a checkbox changes completion, and each expansion cursor moves only on a phase card or its own kind of click |
| View.Offered | App.tsx:215 | the clicks the page can produce: a card per phase of the table, a milestone card per milestone of the active phase and a header per topic of it (App.tsx:322) |
| View.StepKeepsWithinTable | App.tsx:183-322 | every click the page offers keeps the active id inside the table and the completed set inside the table's ids |
| View.InitialWithinTable | App.tsx:27-28 | the dashboard starts on phase 1 with nothing completed, inside the table |
| View.WithinTableFindsPhase | App.tsx:75 | in a well-formed table an active id from the table is found without the fallback, and its progress is defined |
| View.WithinAppTable | App.tsx:75 | a dashboard lies within the shipped table exactly when its active phase is 1, 2 or 3 and it has completed only shipped milestone ids |
| View.WithinTableReadings | App.tsx:75-95 | on phase 1, 2 or 3 with only shipped ids completed, the lookup never falls back, the active phase shows 0, 33, 67 or 100, and the total is at most 100 |
| View.AtMostOneTopicShown | App.tsx:318-335 | with distinct topic names at most one topic's resources are shown |
| View.AtMostOneGuideShown | App.tsx:207-245 | with distinct milestone ids at most one guide is shown |
| View.OneExpansionEach | App.tsx:207-335 | on any dashboard over a well-formed table at most one topic and one guide are open |
| View.PhaseMilestoneIdsDistinct | constants.tsx:39-177 | ids distinct across the table are distinct within each phase (proved by induction over phases) |
| Scenarios.ExpiryLocksLoginForTheDay | App.tsx:56-58 | after the tick that ends a session, a login form mounted the same day is locked and ignores every submission |
| Scenarios.ExpiryLockoutEndsWithTheDay | components/LoginPage.tsx:15-37 | on any other day the same store lets a filled-in form sign in |
| Scenarios.ManualLogoutLeavesLoginOpen | App.tsx:33-40 | a logout without a reason never locks the login form |
| Scenarios.FormatTimeSessionLimit | App.tsx:9 | a full session displays "04:00:00" and one second less displays "03:59:59" |
| Scenarios.FourHourSession | App.tsx:43-72 | a login at `t0` displays 04:00:00, then 03:59:59 one second later, and the tick at `t0` + 4 h signs out and locks the day |
| Scenarios.ThreeTicks | App.tsx:77-95 | on a three-milestone phase, ticking a, then b, then unticking a reads 33, 67, 33 |
| Scenarios.FirstPhaseTicks | App.tsx:27-95 | on the shipped dashboard, checkbox clicks on m1-1, m1-2 and m1-1 again show 33%, 67% and 33% |
| Scenarios.FirstPhaseIsActive | App.tsx:27-75 | the dashboard opens on the first phase, whose milestones are m1-1, m1-2, m1-3 |

## Left out

- Rendering is not modelled, because it has no behaviour to state. This covers the JSX and styling, the `Tooltip` component, components/PhaseCard.tsx, the `resourceGroups` link lists, and the display of labs and projects.
- The chat relay (services/gemini.ts, AIChat) is not part of this model. It is a call into a hosted third-party client over the network.
- React scheduling is not modelled. This covers re-renders, the `setInterval`/`clearInterval` timers and the 1500 ms `setTimeout` before `onLogin`. Each tick, effect run and submission is an explicit transition, and the delayed `onLogin` is reported as the submission's output.
- The submit button's `disabled={isAuthenticating}` is not modelled (components/LoginPage.tsx:122). `HandleLogin` models the handler itself, which has no such guard.
- `Date.now()` and `toDateString()` are not modelled. They are inputs (`Env`), and a day is compared only for equality, as the source does.
- Progress.RoundPercent: rounds the exact rational `100*num/den` half up. JavaScript rounds the floating-point product `(num/den)*100`, and that can differ from the exact value in the last bit. For the denominators 3 and 9 that the table uses, the two agree on every numerator up to the denominator.
- JsNumber.ParseInt: integers are unbounded. JavaScript loses precision above 2^53, which a millisecond timestamp does not reach. Whitespace is the listed set of JavaScript whitespace characters, not every Unicode space separator.
- ChatMessage (types.ts:43-46) is not modelled, because it belongs to the chat relay.
- Phase icons are kept as their Unicode code points. The `Lab` difficulty strings are kept as a three-value datatype.
- The shell's `timeLeft` is not reset by a logout, and the model keeps that. After a new login the display shows the previous value until the first tick.
