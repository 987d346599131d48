# training_timer — a verified model of the interval timer and its locale routing

training_timer is a Next.js interval-training timer. A session runs through
five kinds of phase: prepare, warm-up, then per cycle a number of sets of work
and rest, with a cycle rest between cycles. The dashboard keeps the settings
(durations as "MM:SS" text, set and cycle counts, two reps-mode flags) and
the timer state (phase, current and total set and cycle, playing, paused). A
one-second interval counts the current phase down and moves to the next phase
when it runs out. Play/pause, stop, next and previous buttons act on the same
state. Around the dashboard sit:

- a number stepper for the settings rows;
- a middleware that puts every page under a locale prefix (en-US, es-AR or
  pt-BR), choosing the locale from the Accept-Language header;
- a translation hook whose `t` looks up dotted keys in a nested tree;
- language buttons that link to the current page in the other locales;
- a server-side bundle lookup that falls back to es-AR.

The model has these modules, one per file:

- `Wrappers`: the `Option` type.
- `Strings`: JavaScript's string operations used here: decimal digits,
  `padStart`, `includes`, `indexOf`, `replace`, `split`.
- `TimeCodec`: `timeStringToSeconds` and `secondsToTimeString`.
- `TimerMachine`: the timer engine as values. It holds the settings, the
  session-length formula, the phase transition table, the whole session
  schedule, navigation, stop and play/pause, with the lemmas that tie them
  together.
- `DashboardTimer`: class `Dashboard`. Its fields are the component's state
  hooks; its methods are the handlers and one firing of the interval, each
  proved against the functions of `TimerMachine`.
- `Scenarios`: play followed by two ticks, driven through the class.
- `Stepper`: the increment, decrement and toggle handlers of a settings row.
- `Locales`: the supported locales and the language part of a tag.
- `Middleware`: `getLocale` and `middleware`.
- `Translations`: the `useTranslations` hook and its `t`. `t` is a method with
  a loop, proved against the function `Translate`.
- `LangButtons`: the base path and the language links.
- `TranslationBundles`: `getTranslations` and `getStaticTranslations`.

Each component takes its inputs as parameters: the route's locale, the page
path, the Accept-Language header and the translation trees.

The comment above the settings effect reads "Initialize timer when settings
change" (Dashboard.tsx:81), but the effect (Dashboard.tsx:82-95) resets only
part of the timer:

- it recomputes the session length;
- it copies the new counts into `totalSets` and `totalCycles`;
- it puts the prepare duration on the clock;
- it zeroes the elapsed time;
- it leaves phase, current set, current cycle and playing as they were.

The model does exactly this. `TimerMachine.FewerSetsLeaveBounds` shows what
follows: lowering the number of sets below the current set leaves the counters
out of bounds.

## Model

| member | source | states |
|---|---|---|
| TimeCodec.FieldNumber | src/components/Dashboard/Dashboard.tsx:19 | A duration field is a number exactly when it is all decimal digits, and its value is then the decimal value of those digits. The empty field is 0; any other field is NaN. |
| TimeCodec.SecondsToTimeString | src/components/Dashboard/Dashboard.tsx:23-27 | The result is minutes, ':', then two seconds digits. The minutes field is digits worth n/60; the last two characters are digits worth n%60. |
| TimeCodec.ParseWithoutColon | src/components/Dashboard/Dashboard.tsx:18-21 | A duration without ':' has no seconds field, so it parses to NaN (None). |
| TimeCodec.FormatThenParse | src/components/Dashboard/Dashboard.tsx:18-27 | Parsing the formatted string gives back every non-negative number of seconds. |
| TimeCodec.ParseThenFormat | src/components/Dashboard/Dashboard.tsx:18-27 | A canonical "MM:SS" string parses, and formatting the result gives the same string. Canonical means padded minutes and two seconds digits below 60. |
| TimerMachine.DefaultSettingsLengths | src/components/Dashboard/Dashboard.tsx:62-72 | The default settings parse to 3 s, 300 s, 30 s, 20 s and 30 s, giving a session of 1173 s. |
| TimerMachine.TotalSessionTime | src/components/Dashboard/Dashboard.tsx:29-41 | The session length is prepare + warm-up + (work+rest)·sets·cycles + cycleRest·(cycles−1). It is non-negative when cycles ≥ 1 and sets ≥ 0. |
| TimerMachine.ScheduleLength | src/components/Dashboard/Dashboard.tsx:29-41 | The session length equals the sum of the durations of every phase in `Schedule(sets, cycles)`. With at least one set and at least one cycle this is the schedule the state machine runs through (`RunFollowsSchedule`); with zero sets (`ZeroSetsUndercount`) or zero cycles (`ZeroCyclesUndercount`) it is not. |
| TimerMachine.ZeroSetsRunAsOneSet | src/components/Dashboard/Dashboard.tsx:115-155 | From set 1, any number of completions with zero sets reaches the same state as with one set, apart from the total, and the set stays 1: at a rest, `currentSet < totalSets` fails for both. |
| TimerMachine.ZeroSetsUndercount | src/components/Dashboard/Dashboard.tsx:35-37 | With zero sets, which the Sets stepper can reach, the timer runs the one-set schedule. The computed session length is shorter than that schedule's total by one work and one rest per cycle. |
| TimerMachine.ZeroCyclesRunAsOneCycle | src/components/Dashboard/Dashboard.tsx:115-155 | From cycle 1, any number of completions with zero cycles reaches the same state as with one cycle, apart from the total, and the cycle stays 1: at the last rest, `currentCycle < totalCycles` fails for both. |
| TimerMachine.ZeroCyclesUndercount | src/components/Dashboard/Dashboard.tsx:35-37 | With zero cycles, which the Cycles stepper can reach, the timer runs the one-cycle schedule. The computed session length is prepare + warm-up − cycle rest, short of that schedule's total by every work and rest of the cycle plus one cycle rest. |
| TimerMachine.ChangeReplacesOnlyKey | src/components/Dashboard/Dashboard.tsx:306-309 | A settings change sets the named key to the new value and leaves every other key as it was. |
| TimerMachine.Retotaled | src/components/Dashboard/Dashboard.tsx:86-91 | The settings effect copies sets and cycles into the totals and changes no other field of the timer state. |
| TimerMachine.FewerSetsLeaveBounds | src/components/Dashboard/Dashboard.tsx:82-95 | After a settings change that lowers sets below the current set, phase and set are unchanged and the state is out of bounds. |
| TimerMachine.CompletionKeepsBounds | src/components/Dashboard/Dashboard.tsx:106-166 | Every phase completion keeps 1 ≤ set ≤ totalSets and 1 ≤ cycle ≤ totalCycles, and keeps the totals. |
| TimerMachine.PositionInSchedule | src/components/Dashboard/Dashboard.tsx:115-155 | A state consistent with the phase sequence sits at its own position in the session schedule. |
| TimerMachine.CompletionFollowsSchedule | src/components/Dashboard/Dashboard.tsx:115-155 | Completion moves exactly one step along the schedule. The session-complete branch fires exactly at the schedule's last phase. |
| TimerMachine.RunFollowsSchedule | src/components/Dashboard/Dashboard.tsx:106-166 | From a stopped state, the k-th completion reaches the k-th phase of the schedule. Totals, playing and paused stay unchanged. |
| TimerMachine.RunEndsSession | src/components/Dashboard/Dashboard.tsx:144-148 | The completion after the last phase only sets playing to false: phase, set and cycle stay. |
| TimerMachine.TwoByTwoSchedule | src/components/Dashboard/Dashboard.tsx:115-155 | With two sets and two cycles the phases are prepare, warm-up, work, rest, work, rest, cycle rest, work, rest, work, rest. |
| TimerMachine.NextStepsForward | src/components/Dashboard/Dashboard.tsx:219-241 | Next advances the (set, cycle) counter by one, with cycle as the fast digit, modulo sets·cycles. It stays in bounds and keeps the phase and every other field. |
| TimerMachine.PreviousStepsBack | src/components/Dashboard/Dashboard.tsx:252-274 | Previous moves the (set, cycle) counter back by one modulo sets·cycles. It stays in bounds and keeps every other field. |
| TimerMachine.PreviousAfterNext | src/components/Dashboard/Dashboard.tsx:219-274 | Previous undoes next for every in-bounds state. |
| TimerMachine.NextAfterPrevious | src/components/Dashboard/Dashboard.tsx:219-274 | Next undoes previous for every in-bounds state. |
| TimerMachine.SingleCycleNext | src/components/Dashboard/Dashboard.tsx:227-233 | With one cycle and three sets, next moves set 1 to set 2, and set 3 back to set 1. |
| TimerMachine.Stopped | src/components/Dashboard/Dashboard.tsx:205-213 | Stop always gives prepare at set 1 of cycle 1, not playing and not paused, with the totals kept. The result is in bounds iff both totals are at least 1, and then sits at the start of the schedule. |
| TimerMachine.StopIdempotent | src/components/Dashboard/Dashboard.tsx:205-213 | Stopping twice is the same as stopping once. |
| TimerMachine.PlayToggled | src/components/Dashboard/Dashboard.tsx:197-203 | Play/pause flips playing, sets paused to the old playing, and changes nothing else. |
| TimerMachine.ToggleTwice | src/components/Dashboard/Dashboard.tsx:197-203 | Two toggles restore playing; paused then holds the negation of the original playing. |
| DashboardTimer.Dashboard.constructor | src/components/Dashboard/Dashboard.tsx:47-95 | After mounting, the state is prepare at 1/3 sets and 1/5 cycles, not playing. The clock shows 3 s, nothing has elapsed, and the session length is 1173 s. |
| DashboardTimer.Dashboard.CurrentTimeText | src/components/Dashboard/Dashboard.tsx:98-104 | The displayed remaining time parses back to the clock's seconds. |
| DashboardTimer.Dashboard.ElapsedTimeText | src/components/Dashboard/Dashboard.tsx:98-104 | The displayed elapsed time parses back to the elapsed seconds. |
| DashboardTimer.Dashboard.SettingsEffect | src/components/Dashboard/Dashboard.tsx:82-95 | The session length is recomputed and the totals are copied from the settings. The clock gets the prepare duration and elapsed becomes 0; phase, set, cycle and playing are kept. |
| DashboardTimer.Dashboard.HandleSettingsChange | src/components/Dashboard/Dashboard.tsx:302-320 | The named setting is replaced. The reps notice shows iff a reps flag was switched on (or it already showed). Then the settings effect runs. |
| DashboardTimer.Dashboard.HandleMessageClose | src/components/Dashboard/Dashboard.tsx:298-300 | The notice is hidden. |
| DashboardTimer.Dashboard.HandlePhaseComplete | src/components/Dashboard/Dashboard.tsx:106-166 | The state follows the transition table and the clock gets the new phase's duration. At the end of the session only playing turns off. Bounds are preserved. |
| DashboardTimer.Dashboard.Tick | src/components/Dashboard/Dashboard.tsx:169-182 | The interval fires iff the timer is playing with time left, and each firing adds one elapsed second. The clock counts down above 1 s; otherwise the phase completes. Bounds are preserved. |
| DashboardTimer.Dashboard.HandlePlayPause | src/components/Dashboard/Dashboard.tsx:197-203 | The timer state becomes `PlayToggled` of the old one. |
| DashboardTimer.Dashboard.HandleStop | src/components/Dashboard/Dashboard.tsx:205-217 | The timer state becomes `Stopped` of the old one, with the prepare duration on the clock and nothing elapsed. |
| DashboardTimer.Dashboard.HandleNext | src/components/Dashboard/Dashboard.tsx:219-250 | The position advances as `NextPosition` says. The clock gets the rest duration in a rest phase and the work duration otherwise. Bounds are preserved. |
| DashboardTimer.Dashboard.HandlePrevious | src/components/Dashboard/Dashboard.tsx:252-283 | The position moves back as `PreviousPosition` says, with the same clock rule as next. Bounds are preserved. |
| Scenarios.PlayTwoTicks | src/components/Dashboard/Dashboard.tsx:169-203 | With 2 s of prepare on the clock, play then two ticks both fire. Exactly one phase completes: the timer is in the warm-up with its duration on the clock and 2 more seconds elapsed. |
| Stepper.IntToStringRoundTrip | src/components/Dashboard/TimerControllerRow.tsx:16-17 | Parsing the decimal text of an integer gives back that integer. |
| Stepper.Increment | src/components/Dashboard/TimerControllerRow.tsx:14-23 | Exactly one value is emitted. For a number input it parses to the parsed value (0 if unparsable) plus one; otherwise it is the value unchanged. |
| Stepper.Decrement | src/components/Dashboard/TimerControllerRow.tsx:25-36 | For a number input a value is emitted iff the parsed value is positive, and it parses to that value minus one, so it is never negative. Otherwise the value is re-emitted unchanged. |
| Stepper.Toggle | src/components/Dashboard/TimerControllerRow.tsx:38-42 | A value is emitted iff there is a toggle callback, and it is the negation of the toggle's state. |
| Stepper.StepperExamples | src/components/Dashboard/TimerControllerRow.tsx:14-36 | '3' increments to '4', 'invalid' to '1'. '3' decrements to '2'; '0' and 'invalid' emit nothing. A time value is re-emitted by both. |
| Locales.LanguageIsFirstPart | src/components/LangButtons/LangButtons.tsx:27 | The language of a tag is the first part of splitting it at '-'. |
| Locales.SupportedLanguages | src/middleware.ts:5 | The languages of en-US, es-AR and pt-BR are en, es and pt. |
| Middleware.FirstMentioned | src/middleware.ts:13-17 | There is no result iff the header mentions none of the locales (by tag or by language). Otherwise the result is mentioned and no earlier locale is. |
| Middleware.GetLocale | src/middleware.ts:9-22 | The result is always supported, and is es-AR without a header or when nothing is mentioned. Otherwise it is the first supported locale, in list order, that the header mentions. |
| Middleware.ListOrderWins | src/middleware.ts:13-17 | A header listing Portuguese before English still yields en-US. |
| Middleware.Middleware | src/middleware.ts:24-54 | Static, API and favicon paths pass, as do paths already carrying a locale. Any other path redirects to /locale followed by the path, with '/' contributing nothing. |
| Middleware.RedirectPasses | src/middleware.ts:38-53 | A redirect target carries a supported locale, so the middleware lets it pass whatever header follows. |
| Translations.ResolveConcat | src/hooks/useTranslations.ts:16-22 | Walking a path in two pieces is walking the first piece, then the second from where it led. |
| Translations.T | src/hooks/useTranslations.ts:12-25 | The loop's result is `Translate`: the string the dotted key leads to, or else the key. |
| Translations.NestedKey | src/hooks/useTranslations.ts:13-24 | `prefix.rest` resolves as `rest` does within the subtree `prefix` leads to, and translates to the string found there or else to the whole key. |
| Translations.TwoLevelLookup | src/hooks/useTranslations.ts:12-25 | A two-level key such as `home.greeting` translates to the string stored under it. |
| Translations.MissingLookup | src/hooks/useTranslations.ts:17-21 | A key whose first segment is absent, such as `missing.key`, comes back unchanged. |
| Translations.UndefinedTranslatesNothing | src/hooks/useTranslations.ts:15-24 | Without a translation tree every key comes back unchanged. |
| Translations.UseTranslations | src/hooks/useTranslations.ts:6-27 | The hook's current locale is the route's locale, or es-AR when it is missing or empty, and langs is the three supported locales. Translations are that locale's tree; without one, every key translates to itself. |
| LangButtons.BasePath | src/components/LangButtons/LangButtons.tsx:16-18 | The base path is never empty, and is '/' when there is no path. |
| LangButtons.BasePathWithoutLocale | src/components/LangButtons/LangButtons.tsx:16-18 | A non-empty path that does not contain /locale is its own base path. |
| LangButtons.BasePathFirstOccurrence | src/components/LangButtons/LangButtons.tsx:16-18 | Wherever /locale first occurs in the path, only that occurrence is cut out, with '/' when nothing remains. |
| LangButtons.BasePathOfLocalePath | src/components/LangButtons/LangButtons.tsx:16-18 | On a path that begins with /locale, that prefix is removed, leaving '/' when nothing remains. |
| LangButtons.LinksFrom | src/components/LangButtons/LangButtons.tsx:22-30 | Every link is for a listed locale other than the current one, and every such locale gets a link. Each href is '/' + locale + base path; each text is the part of the locale before '-'. |
| LangButtons.LinksInListOrder | src/components/LangButtons/LangButtons.tsx:22-30 | Any two links name locales that appear in the same order in the locale list. |
| LangButtons.ButtonCount | src/components/LangButtons/LangButtons.tsx:22-30 | There is one link fewer than there are locales when the current locale is listed, and one per locale otherwise. |
| LangButtons.SwitchKeepsPage | src/components/LangButtons/LangButtons.tsx:16-30 | On /L/rest every link leads to /M/rest, or /M/ at the root. The middleware passes each of these unchanged. |
| LangButtons.EnglishPageLinks | src/components/LangButtons/LangButtons.tsx:16-30 | On an en-US page the buttons are es and pt, in that order, leading to the same page under es-AR and pt-BR. |
| LangButtons.PortuguesePageLinks | src/components/LangButtons/LangButtons.tsx:16-30 | On a pt-BR page the buttons are en and es, in that order; on /pt-BR they lead to /en-US/ and /es-AR/. |
| TranslationBundles.BundlesCoverSupported | src/utils/translations.ts:5-9 | Exactly the supported locales have a bundle, and no two share one. |
| TranslationBundles.StaticTranslations | src/utils/translations.ts:11-19 | A supported locale gets its own bundle. The result is the es-AR bundle iff the locale is es-AR or unsupported, so it is never absent. |

## Left out

- Host timers: `setInterval` and `clearInterval`, the effect's re-arming and cleanup, and React's update batching are not modelled. One firing of the interval is the method `Tick`. Phase completion inside that firing puts the next phase's duration on the clock; a completion that ends the session leaves the clock at 0. In the source the clock's updater queues the completion's update and then returns 0 itself. The model takes the nested update to win. If React applied the 0 last instead, the effect would not re-arm the interval and the timer would stall at 0.
- The display strings `currentTime` and `totalTime` of the timer state are not stored. They are derived by `CurrentTimeText` and `ElapsedTimeText`; the session length is kept as the number `sessionTime`. Which of the two effects writing `totalTime` wins is not modelled.
- TimeCodec.FieldNumber: JavaScript's `Number` also accepts whitespace, a sign, decimals, exponents and hexadecimal. The model reads only all-digit fields and treats everything else as NaN.
- NaN propagation is modelled only as `None`. `DashboardTimer.Dashboard.HandleSettingsChange` requires the changed settings to parse, so a malformed duration never reaches the arithmetic.
- TimeCodec.SecondsToTimeString: it takes only non-negative seconds. JavaScript's formatting of negative or fractional seconds is not modelled.
- Stepper.Increment: the model parses an optional sign followed by leading digits, else 0. `parseInt` also skips leading whitespace and reads a `0x` prefix as hexadecimal (`parseInt("0x1A")` is 26, the model gives 0); `toString` switches to exponent notation above 10^21. The stepper is only handed the decimal text of a count, so none of these inputs reach it.
- TimerMachine.ZeroCyclesUndercount: it takes at least one set. With zero sets and zero cycles together, the run is the one-set, one-cycle schedule, which follows from the two run lemmas combined but is not stated as a lemma of its own.
- The view, the menu, `handleDone` (which branches on the window width) and every presentational component are not part of this model.
- Middleware.Middleware: the `NextResponse` and `URL` objects, URL normalisation of the redirect target and the `matcher` configuration are left out. The model works on the path string and an optional Accept-Language string.
- LangButtons.PortuguesePageLinks: the framework's link component drops a trailing '/'; that normalisation is not modelled. So the root's links are the hrefs the component builds, `/en-US/` and `/es-AR/`.
- Translations.T: arrays in the translation tree, `null`, and properties found on an object's prototype (a key such as `constructor`) are not modelled. Every non-object value is `Scalar`.
- TranslationBundles.StaticTranslations: the bundles are opaque values, and the JSON contents of the translation files are not part of this model. `getTranslations` has the same body as `getStaticTranslations` and only wraps the result in a promise, so one function models both. A prototype property as locale is not modelled.
