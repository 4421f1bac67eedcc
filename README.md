# Text utilities, a transport logger and an environment-driven configuration

This project models four TypeScript files from a small object-oriented
teaching repository and proves properties about them:

- `TextProcessor.ts` is a chainable text processor. Its `text` field is
  rewritten by `truncate`, `sanitizeHTML`, `capitalizeWords` and
  `normalizeWhitespace`, and read by `wordCount` and `value`. It also has the
  static helpers `isValidEmail`, `extractHashtags`, `extractMentions` and
  `toSlug`. The class is `TextProcessor.TextProcessor`: a Dafny class whose
  methods reassign `text`. Each regular expression is written out as a
  character scan, and the static helpers are pure functions.
- `OOP-1/Logger.ts` is a logger with a severity threshold
  (`error` < `warn` < `info`) and an ordered list of transports. A transport is
  the datatype `Console | File(path)`. The console is an `Output` object whose
  `lines` grow by one entry per `console.log`. The clock reading of
  `new Date().toISOString()` is a `timestamp` parameter.
- `OOP-1/AppConfig.ts` assembles a configuration from `process.env`, which is
  modelled as a `map<string, string>` parameter. A key counts as absent when it
  is missing or maps to `""`, because the code tests `!value`. A thrown error is
  an `Err` result. The static `instance` field lives on an `AppConfigStatics`
  object.
- `OOP-1/AppConfigSimple.ts` is the minimal once-only singleton and its two
  `NODE_ENV` predicates.

Shared pieces of JavaScript are modelled once:

- `Strings`:
  - the `\s` class is the exact ECMAScript white-space and line-terminator set;
  - `\w` is ASCII `[A-Za-z0-9_]`;
  - also `trim`, single-character `split`, `join` and `indexOf`.
- `JsNumber`: `parseInt`, including leading white space, a sign, `0x`, the
  longest digit prefix, and `NaN` when there is no digit.
- `Wrappers`: `Option` and `Result`.

The model follows the code where its behaviour may be unexpected:

- `shouldLog` on a name outside the levels list returns true, because
  `indexOf` yields -1.
- `parseAllowedHosts` on an unset `ALLOWED_HOSTS` returns `[""]`. This can only
  happen through a direct call, since validation demands the key.
- A `LOG_LEVEL` or `NODE_ENV` value is passed through unchecked.

- `parseLogLevel` (OOP-1/AppConfig.ts:96-98) is never called: `loadOptions`
  reads `LOG_LEVEL` inline at line 54. The model keeps both, and
  `LoadOptionsFields` proves that they agree.

The usage comments at `TextProcessor.ts:92` and `:103` do not match what the
code computes. `CommentUsage` runs that chain and proves what it computes:

- the first line prints `&lt;script&gt;ale...`, because `truncate(20)` keeps
  17 characters of the escaped text;
- after `truncate(20)` the word count is 1, not 6.

## Model

| member | source | states |
|---|---|---|
| TextProcessor.TextProcessor.constructor | TextProcessor.ts:2 | the processor starts with the given text |
| TextProcessor.Truncated | TextProcessor.ts:5-11 | a text within the limit is unchanged; a longer one becomes its first `max - 3` characters (none when negative) plus `...`, so its length is the limit, or 3 when the limit is below 3 |
| TextProcessor.TruncateIdempotent | TextProcessor.ts:5-11 | truncating twice with one limit is truncating once |
| TextProcessor.TextProcessor.Truncate | TextProcessor.ts:5-11 | the new text is the truncation of the old one, and the receiver is returned |
| TextProcessor.SanitizedIsEscapeEach | TextProcessor.ts:15 | the two global replacements equal escaping every character on its own, in order: `<` to `&lt;`, `>` to `&gt;`, everything else kept |
| TextProcessor.SanitizeSafe | TextProcessor.ts:14-17 | sanitized text has no `<` or `>`, and sanitizing leaves a text unchanged exactly when it has neither |
| TextProcessor.SanitizeIdempotent | TextProcessor.ts:14-17 | sanitizing twice is sanitizing once |
| TextProcessor.SanitizeConcat | TextProcessor.ts:15 | sanitizing commutes with concatenation |
| TextProcessor.TextProcessor.SanitizeHTML | TextProcessor.ts:14-17 | the new text is the sanitized old text, with no angle bracket; the receiver is returned |
| TextProcessor.CapitalizedAt | TextProcessor.ts:20-23 | the length is kept; a character is upper-cased exactly when it is a word character with no word character before it, and every other character is kept |
| TextProcessor.CapitalizeIdempotent | TextProcessor.ts:20-23 | capitalizing twice is capitalizing once |
| TextProcessor.CapitalizeExample | TextProcessor.ts:107 | `hello world` becomes `Hello World` |
| TextProcessor.TextProcessor.CapitalizeWords | TextProcessor.ts:20-23 | the new text is the capitalized old text, of the same length; the receiver is returned |
| TextProcessor.CollapseSpaces | TextProcessor.ts:27 | after `replace(/\s+/g, " ")` the only white space is single plain spaces; it is empty exactly when the input is, and starts with white space exactly when the input does |
| TextProcessor.Normalized | TextProcessor.ts:26-29 | normalized text is single-spaced with plain spaces and has no white space at either end |
| TextProcessor.NormalizeJoinsWords | TextProcessor.ts:26-29 | normalizing gives the words of `trim().split(/\s+/)` joined by single spaces |
| TextProcessor.NormalizeIdempotent | TextProcessor.ts:26-29 | normalizing twice is normalizing once |
| TextProcessor.NormalizeKeepsNonSpaces | TextProcessor.ts:27 | the non-white-space characters come out unchanged and in order |
| TextProcessor.TextProcessor.NormalizeWhitespace | TextProcessor.ts:26-29 | the new text is the normalized old text: single-spaced and trimmed; the receiver is returned |
| TextProcessor.WordCountSpec | TextProcessor.ts:32-34 | the count of `trim().split(/\s+/)` is at least 1; it is 1 for white space only, and otherwise the number of maximal non-white-space runs |
| TextProcessor.TextProcessor.WordCount | TextProcessor.ts:32-34 | the same three facts about the current text, read without change |
| TextProcessor.IsValidEmailIff | TextProcessor.ts:42-44 | the scan accepts exactly the strings that split as local `@` left `.` right with all three parts non-empty runs of `[^\s@]`, which is the language of the pattern |
| TextProcessor.ValidEmailShape | TextProcessor.ts:42-44 | a valid address has no white space and exactly one `@` |
| TextProcessor.TokenShape | TextProcessor.ts:48 | a match is the text at its position, the sigil followed by word characters only, and the next character is no word character (greedy) |
| TextProcessor.StartsComplete | TextProcessor.ts:48 | every position where the sigil is followed by a word character is listed among the reference match starts |
| TextProcessor.ExtractIsTokensAtStarts | TextProcessor.ts:47-56 | the global-match scan returns the greedy token at every match start, left to right, without overlap |
| TextProcessor.HashtagsSpec | TextProcessor.ts:47-50 | `extractHashtags` is the list of `#` tokens in order, and it is `[]` exactly when no `#` is followed by a word character |
| TextProcessor.MentionsSpec | TextProcessor.ts:53-56 | `extractMentions` is the list of `@` tokens in order, and it is `[]` exactly when no `@` is followed by a word character |
| TextProcessor.CollapseDashesShape | TextProcessor.ts:63 | after `replace(/-+/g, "-")` no two dashes are adjacent, every character is one of the input's, and a text in `[a-z0-9-]` stays in it |
| TextProcessor.ToSlugIsSlug | TextProcessor.ts:59-65 | a slug has only `[a-z0-9-]`, no `--`, and no dash at either end |
| TextProcessor.ToSlugJoinsPieces | TextProcessor.ts:59-65 | a slug is the groups of `[a-z0-9]` characters of the lower-cased text, in order, joined by single dashes, with the empty groups dropped |
| TextProcessor.ToSlugIdempotent | TextProcessor.ts:59-65 | slugifying a slug gives it back, so slugifying twice is slugifying once |
| TextProcessor.ToSlugExample | TextProcessor.ts:110 | `Hello World! 2024` becomes `hello-world-2024` |
| TextProcessor.CommentUsage | TextProcessor.ts:89-103 | the usage chain shows `&lt;script&gt;ale...` and then counts 1 word |
| TextProcessor.CommentShown | TextProcessor.ts:92 | escaping the usage comment and truncating it to 20 gives `&lt;script&gt;ale...` |
| Strings.TrimAround | TextProcessor.ts:27 | `trim` removes exactly the white space around a text whose ends are not white space |
| Strings.Trim | TextProcessor.ts:27 | `trim` drops exactly the leading and trailing white space: the result is a slice of the input, has no white space at either end, and is empty exactly when the input is all white space |
| Strings.SplitShape | OOP-1/AppConfig.ts:88 | `split(c)` has one piece more than there are `c`, and no piece contains `c` |
| Strings.JoinSplit | OOP-1/AppConfig.ts:88 | joining the pieces of a split with the separator gives the text back |
| Strings.SplitJoin | OOP-1/AppConfig.ts:88 | splitting a join of separator-free pieces gives the pieces back |
| Strings.IndexOf | OOP-1/Logger.ts:39 | `indexOf` is -1 exactly when the element is absent; otherwise it is the first position holding it |
| Logger.Rank | OOP-1/Logger.ts:38-39 | the position of a level's name in `["error", "warn", "info"]`: 0, 1 or 2 |
| Logger.ShouldLog | OOP-1/Logger.ts:37-40 | true exactly when the level's rank is at most the threshold's rank; true for a name outside the list |
| Logger.ErrorAlwaysLogged | OOP-1/Logger.ts:56 | `error` passes every threshold |
| Logger.InfoLoggedIff | OOP-1/Logger.ts:49 | `info` passes exactly when the threshold is `info` |
| Logger.ShouldLogMonotone | OOP-1/Logger.ts:37-40 | raising the threshold never filters out a level that passed before |
| Logger.FormatParses | OOP-1/Logger.ts:42-46 | a formatted line parses back into its timestamp, context, level and message when the first three contain no `]` |
| Logger.ParseFormats | OOP-1/Logger.ts:42-46 | every line in the bracketed shape is the formatting of the fields it parses to |
| Logger.DeliverAt | OOP-1/Logger.ts:51 | the k-th line delivered is the k-th transport's rendering: one copy per transport, in attachment order |
| Logger.DeliverSnoc | OOP-1/Logger.ts:30 | a transport attached last delivers its line after all the others |
| Logger.Output.constructor | OOP-1/Logger.ts:9 | the console starts empty |
| Logger.Output.Log | OOP-1/Logger.ts:9 | `console.log` appends one line |
| Logger.Send | OOP-1/Logger.ts:3 | `log` on a transport appends exactly its rendering of the message |
| Logger.Logger.constructor | OOP-1/Logger.ts:24-27 | a new logger keeps its context, has no transports and has the threshold `info` |
| Logger.Logger.AddTransport | OOP-1/Logger.ts:29-31 | appends exactly the transport at the end, and keeps the threshold |
| Logger.Logger.SetLogLevel | OOP-1/Logger.ts:33-35 | sets the threshold and keeps the transports |
| Logger.Logger.Broadcast | OOP-1/Logger.ts:51 | the `forEach` loop appends exactly the lines of every transport, in order, and changes nothing else |
| Logger.Logger.Info | OOP-1/Logger.ts:48-53 | appends the `INFO` line from every transport when the threshold is `info`, otherwise nothing; the logger is unchanged |
| Logger.Logger.Error | OOP-1/Logger.ts:55-60 | appends the `ERROR` line from every transport under every threshold; the logger is unchanged |
| Logger.DeliverConsoleThenFile | OOP-1/Logger.ts:65-66 | console then file gives the plain line and then the file line |
| Logger.AuthServiceLine | OOP-1/Logger.ts:57 | the formatted error line of the scenario, written out |
| Logger.AuthServiceUsage | OOP-1/Logger.ts:63-70 | at threshold `error`, the info call writes nothing and the error call writes the console line and then `[File] Writing to logs.txt: ` plus that line |
| JsNumber.MagnitudeDigits | OOP-1/AppConfig.ts:44 | the unsigned part of `parseInt` reads a non-empty digit string as its decimal value |
| JsNumber.ParseIntDigits | OOP-1/AppConfig.ts:44 | `parseInt` of a digit string is its decimal value |
| JsNumber.ParseIntDecimal | OOP-1/AppConfig.ts:52 | `parseInt` of the decimal rendering of n is n |
| AppConfig.MissingOfIff | OOP-1/AppConfig.ts:69 | the filter keeps exactly the names that are absent or empty |
| AppConfig.MissingOfConcat | OOP-1/AppConfig.ts:69 | the filter works piecewise, so the missing names keep the list's order |
| AppConfig.ValidateEnv | OOP-1/AppConfig.ts:68-75 | fails exactly when one of the four required keys is absent or empty; the message is `Missing environment variables: ` and the missing keys joined by `, ` |
| AppConfig.MissingReported | OOP-1/AppConfig.ts:68-75 | the reported names are exactly the absent required keys, in the order of the required list |
| AppConfig.PartialEnvMissing | OOP-1/AppConfig.ts:69 | with only `DATABASE_URL` and `API_URL` set, the missing keys are `JWT_SECRET` and `ALLOWED_HOSTS`, in that order |
| AppConfig.ValidateEnvExample | OOP-1/AppConfig.ts:70-73 | that environment fails with `Missing environment variables: JWT_SECRET, ALLOWED_HOSTS` |
| AppConfig.GetRequiredEnvModes | OOP-1/AppConfig.ts:78-84 | without `force` the read never fails and gives `""` exactly for an unset key; with `force` it fails exactly for an unset key and otherwise gives the same value as without |
| AppConfig.Optional | OOP-1/AppConfig.ts:53 | a non-forced read never fails |
| AppConfig.ParseListShape | OOP-1/AppConfig.ts:88 | the number of entries is the number of commas plus 1, and the pieces before trimming join back to the text |
| AppConfig.ParseListJoin | OOP-1/AppConfig.ts:93 | parsing a comma-join of trimmed, comma-free entries gives them back |
| AppConfig.ParseCorsOrigins | OOP-1/AppConfig.ts:86-89 | `["*"]` when `CORS_ORIGINS` is unset; otherwise its trimmed pieces, one more than its commas |
| AppConfig.ParseAllowedHosts | OOP-1/AppConfig.ts:91-94 | the trimmed pieces of `ALLOWED_HOSTS`, one more than its commas; `[""]` when unset |
| AppConfig.ParseTen | OOP-1/AppConfig.ts:44 | `parseInt("10")` is 10 |
| AppConfig.PoolSize | OOP-1/AppConfig.ts:44 | 10 when `DATABASE_POOL_SIZE` is unset, otherwise `parseInt` of it |
| AppConfig.LoadOptions | OOP-1/AppConfig.ts:39-57 | fails exactly when validation fails, with its message |
| AppConfig.RequiredPresent | OOP-1/AppConfig.ts:40 | after validation every required key is set, so the forced reads cannot fail |
| AppConfig.LoadOptionsFields | OOP-1/AppConfig.ts:41-56 | a loaded configuration holds the required values as given, and every other field as read with its default; the inline `LOG_LEVEL` read agrees with `parseLogLevel` |
| AppConfig.LoadOptionsDefaults | OOP-1/AppConfig.ts:39-57 | with the required keys set and `PORT`, `LOG_LEVEL`, `CORS_ORIGINS` and `DATABASE_POOL_SIZE` unset, loading succeeds with port 3000, level `info`, origins `["*"]` and pool size 10 |
| AppConfig.EnvironmentExclusive | OOP-1/AppConfig.ts:104-114 | at most one of the three getters holds; exactly one holds when the environment is one of the three names; an unset `NODE_ENV` is development |
| AppConfig.AppConfig.constructor | OOP-1/AppConfig.ts:33-37 | the read-only configuration is the one loaded |
| AppConfig.AppConfigStatics.constructor | OOP-1/AppConfig.ts:32 | no instance before the first call |
| AppConfig.AppConfigStatics.GetInstance | OOP-1/AppConfig.ts:59-66 | returns the stored instance when there is one; otherwise loads: on failure it stores nothing and reports the error, on success it stores a fresh instance built from the loaded options and returns it |
| AppConfig.GetInstanceTwice | OOP-1/AppConfig.ts:59-66 | two calls return one object built from the first call's environment |
| AppConfigSimple.AppConfig.constructor | OOP-1/AppConfigSimple.ts:3 | the instance holds the given URL |
| AppConfigSimple.AppConfigStatics.constructor | OOP-1/AppConfigSimple.ts:2 | no instance before the first call |
| AppConfigSimple.AppConfigStatics.GetInstance | OOP-1/AppConfigSimple.ts:5-13 | the first call stores and returns a fresh instance for `http://localhost:3000/`; later calls return the stored one and replace nothing |
| AppConfigSimple.GetInstanceTwice | OOP-1/AppConfigSimple.ts:25-26 | the two usage calls return the same object |
| AppConfigSimple.DevelopmentIsNotProduction | OOP-1/AppConfigSimple.ts:16-22 | `isDevelopment` is exactly the negation of `isProduction`, so an unset `NODE_ENV` is development |
| AppConfigSimple.AgreesWithFull | OOP-1/AppConfigSimple.ts:20-22 | both configurations agree on production; this one alone reports development for a set `NODE_ENV` that is neither `development` nor `production` |
| AppConfigSimple.StagingDiffers | OOP-1/AppConfigSimple.ts:21 | under `staging` this configuration reports development and the full one reports staging |

## Left out

- `TextProcessor.isValidURL` (TextProcessor.ts:68-75): it depends entirely on the WHATWG `URL` parser, a foreign library.
- `TextProcessor.generateRandomString` (TextProcessor.ts:78-85): it depends on `Math.random` and floating point.
- Console output (`console.log`, `console.error`) of the usage scripts and of `getInstance` is not modelled. The exception is the logger's transport output, which is the `Output` trace.
- `new Date().toISOString()` is a `timestamp` parameter of `Info` and `Error`.
- `FileTransport` only simulates a file write, and so does the model: no file is written.
- `process.env` is a map parameter. A process cannot change its own environment between calls in this model, and the getters read it at call time.
- The `database`, `security` and `server` getters (OOP-1/AppConfig.ts:116-126) are plain field reads of `config`. They are the datatype fields of `Options`.
- `Database.name` is declared optional and is never set, so `Database` has no such field.
- The static `AppConfig.isProduction()` call of the usage script (OOP-1/AppConfigSimple.ts:28) discards its result.
- The logger has no `warn` method. `warn` exists only as a threshold value.
- A Dafny `char` is a Unicode scalar value, while JavaScript strings are sequences of UTF-16 code units. The model agrees with the source only on text without characters outside the Basic Multilingual Plane: on such characters `length`, `substring` and the scans of the source count two units where the model counts one.
- TextProcessor.Truncated: `maxLength` is a JavaScript `number` and the model takes an `int`, so `NaN`, infinite and fractional limits are not covered.
- Strings.ToLower: only ASCII letters change case. For `capitalizeWords` this is exact, because `\w` matches ASCII characters only. For `toSlug` the model differs only where JavaScript's Unicode lower-casing turns a non-ASCII character into `[a-z]`: U+0130 and U+212A.
- JsNumber.ParseInt: the result is an unbounded integer. Precision loss beyond 2^53, the `-0` of `parseInt("-0")` and other radixes than 10 and 16 are not modelled.
- The usage lines at TextProcessor.ts:93-102, 106 and 109 are not restated for their literal inputs. `HashtagsSpec`, `MentionsSpec`, `NormalizeJoinsWords` and `IsValidEmailIff` state what those calls return on every input.
- AppConfig.GetInstanceTwice requires an empty instance field, as in a fresh process running the usage.
