# Cheemai renderer: request orchestration, error classification, translation

This project models the logic inside the Electron renderer's entry point of
Cheemai, a time-tracking client, and proves properties of that model. The
entry point mostly wires up Vue and axios. Five small pieces of sequential
logic sit inside it:

- **Translator** (`$trans`, module `Translator`). It looks a message key up in
  the catalog of the store's active language and falls back to the key itself.
  Then it replaces every `:name` placeholder by the value of `name`, one
  variable at a time, in key order. `Trans` is the loop. It is proved equal to
  the function `Translate`. Lemmas then show when the result keeps the template
  unchanged, when every placeholder is resolved, and that a placeholder can
  survive (`PlaceholderSurvives`).
- **Error classifier** (`getErrorMessage`, modules `Patterns` and
  `Classifier`). The table has ten entries of the form (method, anchored path
  pattern, message). Each pattern is literal text and `\d+` runs, so it is
  modelled as a sequence of `Segment`s with a matcher, `Matches`. That matcher
  is proved equivalent to "the path splits into one accepted piece per
  segment". The table keys are kept verbatim. At run time each key is parsed
  as the source parses it, using `/^([A-Z]+) +(.*)$/` and then the compilation
  of the `^…$` source. `TableParses` proves that every key parses into the
  intended rule. `GetErrorMessage` runs the first-match loop `FirstRuleMessage`
  over the verbatim table. It is proved equal to `ErrorMessage`, which is
  built on `FirstMatch`. The order and fallback
  properties, and the concrete cases, are lemmas.
- **Client interceptors** (`getClient`, module `Client`). A `Store` class
  holds the loading flag, the notification list and a ghost log of every
  commit and dispatch. A `Client` class holds the url and method that the last
  request captured. The request interceptor, the success branch and the
  failure branch are methods that state the whole new state.
- **State persister** (`store.subscribe` callback, module `Snapshot`). It
  copies the whitelisted entries of the state into a fresh object.
- **`Number.prototype.pad`** (module `Pad`). It prepends the filler to the
  decimal form until the text is at least `length || 2` long.

`Text` holds the JavaScript string operations the pieces rely on: a global
`replace` with a literal pattern (`ReplaceAll`), a `replace` with a string
pattern that replaces only the leftmost occurrence (`ReplaceFirst`), ASCII
`toUpperCase`, and `String(n)` for a natural number. `Wrappers` holds `Option`,
which stands for `undefined`.

Behaviour of the code worth knowing:

- A missing catalog for the active language is not tolerated silently.
  `str in translations[language]` throws on `undefined`, so every translator
  entry point requires `HasActiveCatalog`.
- The persisted snapshot holds the whitelisted keys that are present in the
  state, so it can hold fewer than all four (`WhitelistedKeys`).
- On a failed request, the notification is dispatched BEFORE the loading
  flag is cleared (`Client.Client.OnError`, whose log ensures fixes this
  order).
- Substitution can leave a placeholder unresolved, even when no value
  contains a placeholder. With the single
  variable `ab := b`, the template `:a:ab` becomes `:ab`
  (`Translator.PlaceholderSurvives`). The lemma `SubstituteResolvesAll`
  proves that every placeholder is resolved when every value is non-empty
  and shares no character with any placeholder.

## Model

| member | source | states |
|---|---|---|
| `Text.ReplaceAllIdentity` | src/renderer/main.js:26 | a global replace of a pattern that does not occur leaves the string unchanged |
| `Text.NoOccurrenceAfterReplaceAll` | src/renderer/main.js:26 | with a non-empty replacement that shares no character with `q`, a global replace leaves no `q` when `q` is the pattern, and creates none otherwise |
| `Text.ReplaceFirstIdentity` | src/renderer/main.js:149-153 | `replace(':url', …)` on a message without `:url` returns it unchanged |
| `Text.ReplaceFirstAt` | src/renderer/main.js:149 | the string-pattern replace puts the value in place of the leftmost occurrence and keeps everything around it |
| `Text.ReplaceFirstAfter` | src/renderer/main.js:153 | when the text before the placeholder has no `:`, the placeholder is replaced exactly there |
| `Text.UpperOfUpperLetters` | src/renderer/main.js:145 | `toUpperCase` of the capitals captured from a key is the same text |
| `Text.DecimalStringRoundTrip` | src/renderer/main.js:37 | `DecimalString(n)`, the form `String(n)` takes for a natural number below 10^21, is a non-empty digit string with no leading zero that reads back as `n` |
| `Translator.Trans` | src/renderer/main.js:13-30 | the loop returns `Translate`: the catalog entry (or the key) with each variable's placeholder replaced in turn; with no variables, the entry itself if the key is in the catalog and the key otherwise |
| `Translator.SubstituteUnchanged` | src/renderer/main.js:25-27 | a template holding none of the variables' placeholders comes back unchanged |
| `Translator.SubstituteKeepsAbsent` | src/renderer/main.js:25-27 | non-empty values sharing no character with a placeholder never bring that placeholder back |
| `Translator.SubstituteResolvesOne` | src/renderer/main.js:25-27 | with safe values, the placeholder of variable `k` is absent from the result |
| `Translator.SubstituteResolvesAll` | src/renderer/main.js:25-27 | with safe values, no variable's placeholder is left in the result |
| `Translator.PlaceholderSurvives` | src/renderer/main.js:25-27 | the single left-to-right pass can assemble a placeholder it never resolves: `:a:ab` with `ab := b` gives `:ab` |
| `Patterns.RunLength` | src/renderer/main.js:144 | the greedy run: every character before the returned length satisfies the test, and the one at it does not |
| `Patterns.DecompositionOfMatch` | src/renderer/main.js:146-148 | a path the matcher accepts splits into one accepted piece per segment |
| `Patterns.MatchOfDecomposition` | src/renderer/main.js:146-148 | a path that splits into accepted pieces is accepted |
| `Patterns.MatchesIffDecomposition` | src/renderer/main.js:146-148 | the anchored matcher accepts exactly the paths that split into literal texts and non-empty digit runs in segment order |
| `Patterns.LitDigitsMatches` | src/renderer/main.js:131 | `^a\d+$` matches `a` followed by digits |
| `Patterns.LitDigitsLitMatches` | src/renderer/main.js:132 | `^a\d+b$` matches `a`, digits, `b` |
| `Patterns.MatchEndsWithLit` | src/renderer/main.js:132 | anchoring at `$`: a pattern ending in a literal only matches paths ending in it |
| `Patterns.MatchEndsWithDigit` | src/renderer/main.js:131-133 | anchoring at `$`: a pattern ending in `\d+` only matches paths ending in a digit |
| `Patterns.FirstCharMismatch` | src/renderer/main.js:134-140 | anchoring at `^`: a pattern starting with a literal rejects a path whose first character differs |
| `Patterns.RunLengthOfConcat` | src/renderer/main.js:144 | the greedy run over `a + b` stops exactly at the end of `a` when `b` starts with a character outside the class |
| `Patterns.CompileBodyRoundTrip` | src/renderer/main.js:146 | compiling the body text of a normal pattern gives the pattern back |
| `Patterns.CompileBodyLit` | src/renderer/main.js:146 | a plain literal followed by `\d+` or by nothing compiles to one literal segment, followed by the compiled rest |
| `Patterns.CompileRoundTrip` | src/renderer/main.js:146 | `new RegExp` of the `^…$` text of a normal pattern gives the pattern back |
| `Patterns.ParseKeyRoundTrip` | src/renderer/main.js:144 | `/^([A-Z]+) +(.*)$/` on method, spaces and source captures the method and the source |
| `Patterns.ParseRuleRoundTrip` | src/renderer/main.js:144-146 | such a key yields the upper-cased method token and the compiled pattern |
| `Classifier.FirstMatch` | src/renderer/main.js:143-151 | the index of the first applicable rule lies inside the table |
| `Classifier.FirstMatchSound` | src/renderer/main.js:143-151 | the chosen rule applies and no earlier rule does; with no choice, no rule applies |
| `Classifier.FirstApplicable` | src/renderer/main.js:143-151 | the first applicable rule is the one chosen, whatever follows it |
| `Classifier.NoneApplicable` | src/renderer/main.js:143-153 | with no applicable rule, the search finds nothing and the fallback is used |
| `Classifier.TableParses` | src/renderer/main.js:130-146 | each of the ten keys parses into the method and pattern of the rule at the same position |
| `Classifier.FirstRuleMessage` | src/renderer/main.js:143-153 | over a table whose keys parse into the given rules, the loop with its early return gives the first applicable rule's translated message, or the translated fallback, with the path in place of the first `:url` |
| `Classifier.GetErrorMessage` | src/renderer/main.js:129-154 | the table's ten keys parse into `Rules`, and the result is `ErrorMessage`: the first applicable rule's translated message, or the translated fallback, with its first `:url` replaced by the path |
| `Classifier.FallbackMessage` | src/renderer/main.js:153 | with no applicable rule and an untranslated fallback, the result is the fallback with the path in place of its one `:url` |
| `Classifier.StopBeforeModify` | src/renderer/main.js:132-133 | `PATCH timesheets/<id>/stop` picks the stop rule, `PATCH timesheets/<id>` the modify rule, and the modify pattern rejects the stop path |
| `Classifier.DeleteTimesheetMessage` | src/renderer/main.js:131 | a failed `DELETE timesheets/<id>` gives `Failed to delete the timesheet!` |
| `Classifier.CustomerDetailsMessage` | src/renderer/main.js:139 | a failed `GET customers/<id>`, with a template that has `(:url)`, gives that message with the path in |
| `Classifier.UnknownPathFallsBack` | src/renderer/main.js:143-151 | a path starting with a character no pattern starts with matches no rule, whatever the method |
| `Classifier.UnknownRequestMessage` | src/renderer/main.js:153 | e.g. `GET unknown/thing` gives `An error occured during the request! (unknown/thing)` |
| `Classifier.DeleteNeedsTrailingDigit` | src/renderer/main.js:131 | a DELETE of a path not ending in a digit matches no rule |
| `Classifier.AnchoredPatterns` | src/renderer/main.js:131 | `DELETE timesheets/<id><suffix>` with a suffix that does not end in a digit (`timesheets/42/x`) falls back |
| `Client.LoaderSuppression` | src/renderer/main.js:98-103 | only `hideLoader === true` or `showLoader === false` suppresses the loader; the default `{}` engages it |
| `Client.FailureBeforeAnyRequest` | src/renderer/main.js:86 | a failure before any request is classified with `undefined` for url and method and falls back |
| `Client.Store.CommitLoading` | src/renderer/main.js:104 | `setLoading` sets the flag and appends one commit to the log, nothing else changes |
| `Client.Store.DispatchNotification` | src/renderer/main.js:32-34 | `$notify` appends the notification unchanged, nothing else changes |
| `Client.Client.constructor` | src/renderer/main.js:85-95 | base URL `host/api`, 60000 ms timeout, the two auth headers from the store, nothing captured yet |
| `Client.Client.OnRequest` | src/renderer/main.js:97-111 | commits loading = true exactly when the options engage the loader, captures url and upper-cased method, returns the config unchanged |
| `Client.Client.OnResponse` | src/renderer/main.js:113-116 | commits loading = false and returns the response unchanged |
| `Client.Client.OnError` | src/renderer/main.js:117-125 | appends exactly one `error` notification with the classified text for the captured url and method and a 2000 ms timeout, then commits loading = false, and resolves to nothing |
| `Client.FailedRequest` | src/renderer/main.js:97-125 | a request that fails commits loading = true unless the options suppress it, then dispatches one notification classified by that request's path and upper-cased method, then commits loading = false, in that order in the log; the captured url and method are that request's, the settings unchanged |
| `Client.SucceededRequest` | src/renderer/main.js:97-116 | a request that succeeds commits loading = true unless the options suppress it, then loading = false, in that order in the log; it returns its response unchanged, adds no notification, captures that request's url and method and leaves the settings unchanged |
| `Client.OverlappingRequests` | src/renderer/main.js:86-125 | with two overlapping requests where the second finishes first, the loader goes off while the first is pending, and the first's failure is reported with the second's url and method, which stay captured |
| `Snapshot.Save` | src/renderer/main.js:46-60 | the loop returns exactly the whitelisted entries of the state, in the state's order |
| `Snapshot.WhitelistedMembers` | src/renderer/main.js:56-59 | an entry is saved if and only if it is in the state and its key is whitelisted |
| `Snapshot.WhitelistedKeys` | src/renderer/main.js:47-60 | a key is saved if and only if it is a state key and in `host, username, apiKey, language` |
| `Snapshot.WhitelistedDistinct` | src/renderer/main.js:47-60 | the saved object has distinct keys when the state does |
| `Snapshot.WhitelistedIdempotent` | src/renderer/main.js:47-60 | filtering a saved snapshot again changes nothing |
| `Snapshot.SavedValue` | src/renderer/main.js:58 | the value saved under a whitelisted key is the state's value, and the only one saved under it |
| `Pad.RepeatLength` | src/renderer/main.js:40 | `k` fillers are `k` times the filler's length |
| `Pad.PadNumber` | src/renderer/main.js:36-44 | the loop returns `Padded` of the decimal form, the target (`length`, or 2 when it is missing or 0) and the filler (default one space) |
| `Pad.PaddedShape` | src/renderer/main.js:39-41 | the result is some number of fillers followed by the unchanged decimal form, and none when it is already long enough |
| `Pad.PaddedLength` | src/renderer/main.js:39-41 | the result reaches the target; one filler fewer would fall short; with a one-character filler it is exactly the target |
| `Pad.PadResult` | src/renderer/main.js:36-44 | one call: ends with `String(n)`, at least the target long, unchanged if already long enough, exactly the target with a one-character filler |
| `Pad.DefaultPadOfDigit` | src/renderer/main.js:36-44 | `(7).pad()` is a space followed by `7` |

## Left out

- Vue, vue-electron, the router, the root component and the `Vue.prototype` hook wiring (src/renderer/main.js:1-12, 74-78, 155-162) are framework bootstrap and are not part of this model.
- The axios transport is not part of this model. The client records its base URL, timeout and headers as plain fields. Whether a response counts as a success or a failure is decided by axios, so the model offers both branches as separate methods.
- The catalogs loaded by `require` inside `try/catch` (src/renderer/main.js:65-72) are a parameter, `Translations`. A code whose file is missing has no catalog, and calling the translator in that language is excluded by `HasActiveCatalog`, because the source throws there.
- `localStorage.setItem` and `JSON.stringify` (src/renderer/main.js:62) are I/O. `Snapshot.Save` returns the object that would be serialized.
- The store's own `commit` and `dispatch` are opaque collaborators. The model keeps only the loading flag, the notification list and a ghost log of the calls.
- Concurrency: the model runs one request at a time, plus the single interleaving of `OverlappingRequests`. Other orders of several in-flight requests are not modelled.
- General regular expressions: the table patterns are modelled as literal text and `\d+` runs, and `Compile` returns `None` for anything else. A variable key is treated as literal text, not as regex source. `$` sequences in replacement strings are not interpreted. The model assumes keys are plain identifiers and values and paths contain no `$`.
- `Text.Upper` upper-cases ASCII letters only. JavaScript's full Unicode case mapping is not modelled.
- Variable values, `str` and `length` are modelled as strings and integers. JavaScript's conversion of other value types is not modelled.
- Pad.PadNumber: covers only natural numbers (`String(n)` of a non-integer or negative number is not modelled). It requires a non-empty filler unless the text is already long enough, because otherwise the loop at src/renderer/main.js:39 never ends.
- Pad.PadNumber: for `n` of 10^21 or more, `String(n)` is in exponent form (`1e+21`), while `DecimalString` keeps writing plain digits. The result is faithful only below 10^21.
- Pad.PadNumber: `s.length` at src/renderer/main.js:39 counts UTF-16 code units, while `|s|` counts Unicode characters. For a filler outside the Basic Multilingual Plane the source stops earlier. `(7).pad(3, '\u{1F600}')` gives one filler there and two in the model.
- Text.DecimalStringRoundTrip: states the digit form for every natural number, which is what `String(n)` gives only below 10^21.
- Translator.Trans: `str in catalog` at src/renderer/main.js:16 also finds names inherited from `Object.prototype`, such as `toString` or `constructor`. For such a key the source takes the inherited function as the template: it returns that function when `vars` is empty and throws at line 26 otherwise. The model treats the key as missing and returns the key text.
- The ten `$trans` calls of the table are evaluated before the loop in the source. They are pure, so the model translates only the chosen message.
