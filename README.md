# httpyac send pipeline in Dafny

A model of the core of httpyac, a command-line and editor HTTP client that sends the requests of `.http` files:

- **Send pipeline** (`src/httpYacApi.ts`). `send` looks at the shape of the caller's send context and picks one of three modes: one region, a list of regions, or the whole file. It then assembles a processor context:
  - the configuration, merged from defaults, the project file and the caller;
  - the log settings;
  - the variables of the default providers;
  - an HTTP client.

  The two region modes then run the global scripts and, when they succeed, the region actions; whole-file mode runs only the region actions. Each mode has its own failure policy. `getEnvironments` lists the environments of a file's providers.
- **File-system helpers** (`src/utils/fsUtils.ts`):
  - resolving a relative file name;
  - making a file name safe and short;
  - finding the project root of a file;
  - reading JSON;
  - loading the project configuration (`.httpyac.json` or the `httpyac` key of `package.json`), with client-certificate paths resolved.
- **Content-type parsing and classification** (`src/utils/mimeTypeUtils.ts`).
- **`JsonEnvProvider`** (`src/environments/jsonEnvProvider.ts`): a fixed table from environment names to variables.

Files:

| file | module | contents |
|---|---|---|
| `wrappers.dfy` | `Wrappers` | `Option` (JavaScript `undefined` is `None`) |
| `json.dfy` | `Json` | parsed JSON values, JavaScript truthiness, property access, `Object.assign` on own properties |
| `js_strings.dfy` | `JsStrings` | `split`, `join`, `trim`, `startsWith`, `indexOf`, `slice` |
| `js_arrays.dfy` | `JsArrays` | de-duplication by `indexOf`, the default `sort` on strings, `reverse` |
| `mime_type_utils.dfy` | `MimeTypeUtils` | `parseMimeType` and the `isMimeType*` predicates |
| `file_names.dfy` | `FileNames` | `replaceInvalidChars`, `shortenFileName` |
| `fs_utils.dfy` | `FsUtils` | the abstract file provider, `toAbsoluteFilename`, `findRootDir(OfFile)`, `parseJson`, `getHttpacJsonConfig`, `resolveClientCertficates` |
| `models.dfy` | `Models` | regions, files, providers, the processor context, and the caller's send context (a class whose fields context assembly writes) |
| `json_env_provider.dfy` | `JsonEnvProviders` | `JsonEnvProvider` |
| `http_yac_api.dfy` | `HttpYacApi` | the send pipeline and `getEnvironments` |

**Oracles.** The host's collaborators are function fields of a `Host` value:
- `executeGlobalScripts`, `processHttpRegionActions` and `initHttpClient`;
- the registered default variable providers;
- the file provider.

Every pipeline method returns its boolean result together with the trace of calls it made into the host. Its contract ties both to a specification function (`Outcome`, `SingleRegionOutcome`, `RegionsOutcome`, `FileOutcome`), and lemmas state what the three failure policies mean.

**File provider.** The file provider is a `FileProvider` value of functions. These cover existence, `isAbsolute`, `joinPath`, `dirname`, `fsPath`, `readdir`, `readFile`, and `JSON.parse` (undefined where it throws). A model-only `depth` measure gives the upward root search a termination argument. `Valid(fs)` says `dirname` either reaches a fixed point or strictly lowers the depth.

**State.** Two things are changed in place:
- the caller's send context (class `Models.SendContext`), into which `createEmptyProcessorContext` writes the configuration, the variables and the client;
- the process-wide logger state (class `HttpYacApi.Logger`: log level, colour level, warnings issued).

The loops of `sendHttpRegions`, `sendHttpFile`, `shortenFileName`, `findRootDir`, `resolveClientCertficates` and `getEnvironments` are methods with loops.

## Model

| member | source | states |
|---|---|---|
| `HttpYacApi.Send` | src/httpYacApi.ts:12-22 | The result and the calls made are `Outcome` of the context as it was on entry. A context with a region goes to single-region mode, else a context with a region list goes to region-list mode, else the whole file is sent. A disabled single region leaves the context and the logger untouched; in every other case the context ends assembled as `AssembledContext` of its entry state and the logger configured by the merged configuration. |
| `HttpYacApi.SendHttpRegion` | src/httpYacApi.ts:24-32 | A disabled region returns false, with no call made and neither the context nor the logger touched. Otherwise the context is assembled in place and the global scripts run; their failure returns false; else the result is that of one strict (`true`) processing of the region with the assembled context. |
| `HttpYacApi.DisabledSingleRegionShortCircuits` | src/httpYacApi.ts:24-32 | A disabled single region gives `(false, [])`: nothing is assembled and nothing is called. |
| `HttpYacApi.SendHttpRegions` | src/httpYacApi.ts:34-51 | Assembles the context in place and runs the global scripts once; on their failure returns false with no region processed; otherwise returns the fail-fast loop's result, its calls following the scripts' call. |
| `HttpYacApi.ProcessRegionsFailFast` | src/httpYacApi.ts:37-48 | The loop over the region list returns exactly the result and calls of `FailFast`: disabled regions are skipped, each enabled one is processed non-strictly with the context narrowed to it, and the first failure returns false at once. |
| `HttpYacApi.FailFastMeaning` | src/httpYacApi.ts:37-48 | The loop succeeds iff every enabled region's processing succeeds. It processes only enabled regions of the list, with strict `false`, each with the base context narrowed to that region. Every call before the last succeeded, so nothing is processed after a failure. On failure the last call is the one that failed. Order and multiplicity are stated by `FailFastInOrder`. |
| `HttpYacApi.FailFastInOrder` | src/httpYacApi.ts:37-48 | The calls follow list order, one per region visited, at strictly increasing positions. On success the positions visited are exactly those of the enabled regions. On failure they are the enabled positions up to and including the failing one, which is the last call. |
| `HttpYacApi.RegionsSucceedOnlyIfAllDo` | src/httpYacApi.ts:34-51 | Region-list mode returns true iff the global scripts succeed and every enabled region's processing succeeds. |
| `HttpYacApi.SendHttpFile` | src/httpYacApi.ts:53-71 | Assembles the context in place, processes the selected regions, and returns true. |
| `HttpYacApi.ProcessFileRegions` | src/httpYacApi.ts:55-69 | The loop makes exactly the calls of `FileModeCalls`, in file order. It skips disabled regions, and regions that carry a request when a predicate is present and rejects them; every other region is processed without a strict flag and its outcome is ignored. |
| `HttpYacApi.FileModeCallsMeaning` | src/httpYacApi.ts:55-69 | Every call is a non-strict processing of a selected region of the file with the base context narrowed to it. Every selected region is processed; in particular a region without a request is never filtered by the predicate. Order and multiplicity are stated by `FileModeInOrder`. |
| `HttpYacApi.FileModeInOrder` | src/httpYacApi.ts:55-69 | The `k`-th call processes, without a strict flag, the region at position `idx[k]`, with `idx` strictly increasing, so each region at most once and in file order. The positions in `idx` are exactly those of the selected regions. |
| `HttpYacApi.FileModeIgnoresOutcomes` | src/httpYacApi.ts:53-71 | Whole-file mode returns true, and its result and calls are the same whatever `processHttpRegionActions` answers. |
| `HttpYacApi.GlobalScriptsGateRegionModes` | src/httpYacApi.ts:24-51 | In the two region modes any region processing is preceded by a successful run of the global scripts on the assembled context, and that run is the first call. Whole-file mode never runs the global scripts. |
| `HttpYacApi.DisabledRegionsAreNeverProcessed` | src/httpYacApi.ts:24-71 | In every mode each processing call carries a region, and that region is not disabled. |
| `HttpYacApi.RegionContext` | src/httpYacApi.ts:39-42 | The region context is a copy of the base context whose only changed field is `httpRegion`. |
| `HttpYacApi.CreateEmptyProcessorContext` | src/httpYacApi.ts:74-88 | Writes the merged configuration, the variables of the default providers and a new client into the caller's context and returns that same context. The logger ends with the deprecation warnings issued and the configured log level (`warn` when the configured one is falsy). Colours are off when `supportAnsiColors` is `false` and otherwise as before. |
| `HttpYacApi.AssembledContext` | src/httpYacApi.ts:74-88 | The assembled context's configuration is the merge of defaults, project file and caller configuration. Its variables are those of the default providers for that configuration (`GetVariables`), its client is the one `initHttpClient` makes for the file and that configuration, and the file, region, region list and predicate are the caller's. |
| `HttpYacApi.GetEnvironmentConfig` | src/httpYacApi.ts:91-114 | Returns `MergedConfig`, the defaults merged with the project file's configuration and then the caller's. The file's configuration is read only for a truthy `rootDir` and used only when truthy. The deprecation warnings for that configuration are appended to the logger, which is otherwise unchanged. |
| `HttpYacApi.ConfigPrecedence` | src/httpYacApi.ts:91-114 | Key by key, the caller's configuration wins, then the project file's, then the defaults; a key none of them has is absent. The merge is shallow: a top-level value is taken whole from the winner. |
| `HttpYacApi.MergePrecedence` | src/httpYacApi.ts:103-110 | The same precedence for `Object.assign` over any target, with at most one file source and an optional caller source. |
| `HttpYacApi.CallerLogReplacesFileLog` | src/httpYacApi.ts:81-82 | A caller `log` object without `supportAnsiColors` replaces the whole merged `log` object, so colours are never switched off by the project file in that case. |
| `HttpYacApi.DefaultsAlone` | src/httpYacApi.ts:103-110 | With no truthy project configuration and no caller configuration the merged configuration is exactly the defaults (`log.level` warn, `supportAnsiColors` true, `cookieJarEnabled` true, `envDirName` `env`). |
| `HttpYacApi.DeprecationWarnings` | src/httpYacApi.ts:117-134 | Issues at most three warnings. Each of the three fixed messages is issued iff `dotenv`, `intellij` or `httpRegionScript` respectively is truthy in the configuration, and no message is issued twice. No other message is issued. |
| `HttpYacApi.LogLevelFor` | src/httpYacApi.ts:80 | The level is `config.log.level` when that is truthy and `warn` otherwise; it is always truthy. |
| `HttpYacApi.GetVariables` | src/httpYacApi.ts:137-146 | The variables are the fold of the default providers' results (not the file's providers) over an empty record. A name is defined iff some provider defines it, and the last provider defining it gives its value. No providers give no variables. |
| `HttpYacApi.ProviderResults` | src/httpYacApi.ts:140-143 | One result per default provider, in order, each asked for the file's active environment. |
| `HttpYacApi.GetEnvironments` | src/httpYacApi.ts:149-165 | Only providers with `getEnvironments` contribute. A non-empty result is sorted, duplicate-free and has the same names as the concatenation. The result is empty iff the concatenation is, and an empty concatenation is returned as it is. |
| `HttpYacApi.AllEnvironments` | src/httpYacApi.ts:150-155 | A name is in the concatenation iff a provider with `getEnvironments` lists it. |
| `HttpYacApi.SortedNames` | src/httpYacApi.ts:156-162 | De-duplicating by `indexOf` and then sorting gives a sorted, duplicate-free, non-empty list with exactly the input's names. |
| `Json.ObjectAssign` | src/httpYacApi.ts:103-110 | `Object.assign` copies source by source, so every key of the target and of the last source is present in the result. |
| `Json.AssignDomain` | src/httpYacApi.ts:103-110 | The result's keys are exactly the target's and the sources'. |
| `Json.AssignLastWins` | src/httpYacApi.ts:138-143 | The last source that has a key gives that key's value. |
| `Json.AssignKeepsUntouched` | src/httpYacApi.ts:103-110 | A key no source has keeps the target's value. |
| `FsUtils.ToAbsoluteFilename` | src/utils/fsUtils.ts:5-20 | An absolute name that exists is returned unchanged. Otherwise any result is, for a truthy base, the join of the base (or of its directory when not a folder) with the name, when that exists. The result is undefined exactly when neither applies, and a defined result always exists. |
| `FsUtils.FindRootDir` | src/utils/fsUtils.ts:53-77 | Returns `RootDirOf`. That is `currentDir` when its listing holds one of the six marker names; else the directory of the first candidate, in argument order, whose join with `currentDir` exists; else the answer for the parent. Undefined once `dirname` reaches a fixed point. |
| `FsUtils.FirstExisting` | src/utils/fsUtils.ts:67-72 | The first candidate in argument order whose join exists, or undefined exactly when none does. |
| `FsUtils.Ancestors` | src/utils/fsUtils.ts:73-75 | The directory, then its parents by `dirname`, each different from the one before, ending at the fixed point of `dirname`. |
| `FsUtils.FirstQualifyingMeaning` | src/utils/fsUtils.ts:53-77 | Undefined exactly when no directory of the chain holds a marker or a candidate. Otherwise the root reported at the first one that does. |
| `FsUtils.RootDirIsNearestQualifyingAncestor` | src/utils/fsUtils.ts:53-77 | The search answers for the nearest ancestor (the directory itself included) that holds a marker or a candidate file, and finds nothing exactly when no ancestor up to the file-system root does. |
| `FsUtils.StartFile` | src/utils/fsUtils.ts:46-49 | An absolute name, or any name without a truthy working directory, is used as it is; a relative name with a truthy working directory is joined to it. |
| `FsUtils.FindRootDirOfFile` | src/utils/fsUtils.ts:45-51 | Searches from the directory of the file: a relative name is first joined to a truthy working directory. |
| `FsUtils.ParseJson` | src/utils/fsUtils.ts:79-87 | Defined exactly when the file can be read and its text parses, and then the parsed value; failures give undefined. |
| `FsUtils.GetHttpacJsonConfig` | src/utils/fsUtils.ts:90-99 | Returns `HttpyacJsonConfig`. That is `.httpyac.json` when it parses to a truthy value, else the `httpyac` property of `package.json`, with client certificates resolved when the result is truthy. |
| `FsUtils.DedicatedConfigWins` | src/utils/fsUtils.ts:90-99 | A truthy `.httpyac.json` wins over `package.json`. Without it the configuration is the `httpyac` value of a readable `package.json`, with certificates resolved when that value is truthy, and without both there is no configuration. |
| `FsUtils.ResolveClientCertificates` | src/utils/fsUtils.ts:102-116 | Returns `ResolvedClientCertificates`: when `clientCertificates` is truthy every entry is resolved (the values of an object, the items of an array), and nothing else changes. |
| `FsUtils.ResolvedClientCertificates` | src/utils/fsUtils.ts:102-116 | A configuration without truthy `clientCertificates` is unchanged. Otherwise the result has the same keys, and every key but `clientCertificates` keeps its value. Certificates listed by name keep their names and those in an array their number, and each entry becomes `ResolveEntry` of itself; any other truthy value is left alone. |
| `FsUtils.ResolveEntry` | src/utils/fsUtils.ts:105-113 | An entry keeps its shape and all its keys. Fields other than `cert`, `key` and `pfx` keep their values. Each of those three becomes `ResolvedPath` of its value. |
| `FsUtils.ResolvedPath` | src/utils/fsUtils.ts:105-113 | With a non-empty root directory, a non-empty path that is not an existing absolute path becomes its join under the root when that join exists, and is kept otherwise. An existing absolute path, an empty or non-string value, and any value under an empty root directory are kept. A changed value is always a path that exists. |
| `FsUtils.ExistingCertificatePathIsResolved` | src/utils/fsUtils.ts:105-113 | A relative certificate path whose join under the root directory exists is rewritten to that join. |
| `FileNames.ReplaceInvalidChars` | src/utils/fsUtils.ts:22-25 | The result contains none of `/ \ ? % * : \| " < >`, and has no leading or trailing `_` and no `__`. Its meaning is fixed by `ReplaceInvalidCharsAround`, `ReplaceInvalidCharsEmpty` and `ReplaceInvalidCharsOfSafe`. |
| `FileNames.ReplaceInvalidCharsAround` | src/utils/fsUtils.ts:22-25 | Around an invalid character or a `_`, the result is the two sides' results joined by exactly one `_`, or the non-empty one alone; when both sides have letters, it is always the join with one `_`. |
| `FileNames.ReplaceInvalidCharsEmpty` | src/utils/fsUtils.ts:22-25 | The result is empty exactly when the text has no letters, i.e. holds only invalid characters and `_`. |
| `FileNames.ReplaceInvalidCharsOfSafe` | src/utils/fsUtils.ts:22-25 | A name without invalid characters whose `_` only separates non-empty runs is returned unchanged. |
| `FileNames.SeparatorBecomesUnderscore` | src/utils/fsUtils.ts:23-24 | `a/b` becomes `a_b`. |
| `FileNames.UnderscoresCollapse` | src/utils/fsUtils.ts:24 | `x__y` becomes `x_y`. |
| `FileNames.ReplaceInvalidCharsIdempotent` | src/utils/fsUtils.ts:22-25 | Applying it twice gives the same as applying it once. |
| `FileNames.ReplaceInvalidCharsKeepsLetters` | src/utils/fsUtils.ts:22-25 | The characters that are neither invalid nor `_` survive, in order. |
| `FileNames.LettersAreValidCharacters` | src/utils/fsUtils.ts:23 | The letters of a text are exactly its characters that are neither invalid nor `_`. |
| `FileNames.ReplaceWithUnderscore` | src/utils/fsUtils.ts:23 | Same length; every invalid character becomes `_` and every other character is kept. |
| `FileNames.NonEmptyIsFilter` | src/utils/fsUtils.ts:24 | The pieces kept are a subsequence of the input, in its order, and each non-empty piece is kept exactly as often as the input holds it; no empty piece is kept. |
| `FileNames.ShortenFileName` | src/utils/fsUtils.ts:28-42 | The loop over the reversed segments, with its pushed array and character counter, returns `ShortenedName`. |
| `FileNames.Shortened` | src/utils/fsUtils.ts:28-42 | The result is at most `maxChars` long. When the last segment fits, the result is the joined kept segments, shorter than `maxChars`, and the final slice changes nothing. Otherwise it is the last `maxChars` characters of the last segment, and empty for a non-positive `maxChars`. |
| `FileNames.ShortenedNameKeepsLastSegment` | src/utils/fsUtils.ts:32-40 | The kept segments are a subsequence of the name's segments, in their original order and not necessarily contiguous, and end with the last segment. |
| `FileNames.KeptSegmentsLength` | src/utils/fsUtils.ts:33-35 | When the last segment fits, the counter is one more than the joined length and at most `maxChars`. |
| `MimeTypeUtils.ParseMimeType` | src/utils/mimeTypeUtils.ts:3-7 | The MIME type is the trimmed text before the first `;` (the whole trimmed text when there is none). The charset is defined iff some trimmed parameter starts with `charset=`, and is then the value of the first such parameter up to any further `=`. |
| `MimeTypeUtils.FindCharset` | src/utils/mimeTypeUtils.ts:5 | Defined iff a parameter starts with `charset=`; the first one gives the value. |
| `MimeTypeUtils.CharsetSplit` | src/utils/mimeTypeUtils.ts:5 | `split('=')[1]` of a `charset=` parameter is the text after `charset=` up to the next `=`. |
| `MimeTypeUtils.IsMimeTypeJson` | src/utils/mimeTypeUtils.ts:9-14 | A defined content type whose MIME type is `application/json` or contains `+json`; the contracts are those of `ClassifyParsedHeader` and `ComparisonsAreCaseSensitive`. |
| `MimeTypeUtils.IsMimeTypeJavascript` | src/utils/mimeTypeUtils.ts:15-17 | A defined content type whose MIME type is exactly `application/javascript`. |
| `MimeTypeUtils.IsMimeTypeXml` | src/utils/mimeTypeUtils.ts:18-24 | A defined content type whose MIME type is `application/xml` or `text/xml`, or contains `+xml`. |
| `MimeTypeUtils.IsMimeTypeHtml` | src/utils/mimeTypeUtils.ts:25-28 | A defined content type whose MIME type is exactly `text/html`. |
| `MimeTypeUtils.IsMimeTypeCss` | src/utils/mimeTypeUtils.ts:29-31 | A defined content type whose MIME type is exactly `text/css`. |
| `MimeTypeUtils.IsMimeTypeMultiPartFormData` | src/utils/mimeTypeUtils.ts:33-35 | A defined content type whose MIME type is exactly `multipart/form-data`. |
| `MimeTypeUtils.IsMimeTypeNewlineDelimitedJson` | src/utils/mimeTypeUtils.ts:37-39 | A defined content type whose MIME type is exactly `application/x-ndjson`. |
| `MimeTypeUtils.IsMimeTypeFormUrlEncoded` | src/utils/mimeTypeUtils.ts:41-43 | A defined content type whose MIME type is exactly `application/x-www-form-urlencoded`. |
| `MimeTypeUtils.ClassifyParsedHeader` | src/utils/mimeTypeUtils.ts:9-43 | On a parsed header, JSON holds iff the type is `application/json` or contains `+json`. XML holds iff it is `application/xml`, `text/xml` or contains `+xml`. Each other predicate holds iff the type equals its one literal. |
| `MimeTypeUtils.UndefinedIsUnclassified` | src/utils/mimeTypeUtils.ts:9-43 | An undefined content type satisfies no predicate. |
| `MimeTypeUtils.LiteralClassificationsAreExclusive` | src/utils/mimeTypeUtils.ts:15-43 | At most one of the six literal predicates holds, and a type satisfying one is neither JSON nor XML; `application/x-ndjson` is not JSON. |
| `MimeTypeUtils.JsonAndXmlOverlapOnlyBySuffix` | src/utils/mimeTypeUtils.ts:9-24 | A type is both JSON and XML only if it contains both `+json` and `+xml`. |
| `MimeTypeUtils.ComparisonsAreCaseSensitive` | src/utils/mimeTypeUtils.ts:9-43 | For every type without `+`, JSON holds iff it is exactly `application/json`, XML iff it is exactly `application/xml` or `text/xml`, and each other predicate iff it is exactly its lower-case literal; any other spelling, upper-case letters included, is rejected. |
| `JsonEnvProviders.JsonEnvProvider.GetEnvironments` | src/environments/jsonEnvProvider.ts:7-9 | One name per table entry, in entry order; a name is listed iff the table has an entry for it. |
| `JsonEnvProviders.JsonEnvProvider.GetVariables` | src/environments/jsonEnvProvider.ts:10-12 | Undefined iff the table has no entry for the name. In a table with distinct names, the answer is `v` iff the entry for the name holds `v`. |
| `JsonEnvProviders.ListedExactlyWhenDefined` | src/environments/jsonEnvProvider.ts:7-12 | A name is listed by `getEnvironments` iff `getVariables` answers for it; any other name gives undefined, not an empty table. |
| `JsonEnvProviders.TableRoundTrip` | src/environments/jsonEnvProvider.ts:5-12 | Every entry of the table is answered with its own variables, and no name is listed twice. |
| `JsonEnvProviders.Lookup` | src/environments/jsonEnvProvider.ts:11 | Undefined iff no entry has the name; otherwise the variables of the first entry with it. |
| `HttpYacApi.JsonEnvProviderInChain` | src/environments/jsonEnvProvider.ts:7-12 | As the only provider of a file, the provider contributes exactly its table's names in table order: the names `getVariables` answers for, each once when the table is well formed. |
| `Models.SendContext.constructor` | src/models/processorContext.ts:18-45 | A fresh send context carries the given file, region, region list, predicate, configuration and variables, and no client. |
| `JsStrings.JoinSplit` | src/utils/fsUtils.ts:24 | Joining the pieces of a split with the separator gives back the text. |
| `JsStrings.Trim` | src/utils/mimeTypeUtils.ts:4 | The result is a piece of the text with only ECMAScript white space around it, and neither starts nor ends with white space. |
| `JsArrays.Sort` | src/httpYacApi.ts:162 | The result is sorted character by character and is a permutation of the input. |
| `JsArrays.Dedupe` | src/httpYacApi.ts:157-162 | The result has no duplicates and exactly the input's names. |

## Left out

- **Asynchrony.** `Promise`/`async` and the `Promise.all` fan-out over the default providers run sequentially in the model. Only their fixed application order matters to the result.
- **Logging.**
  - `log.debug`, `log.trace` and `getDisplayName` are left out.
  - Whether a warning is shown at the logger's current level is not modelled: `Logger.warnings` records every `log.warn` call.
  - The warnings are issued before the configured level is set.
  - `LogLevel.warn` is represented by the value `"warn"`, not by its numeric enum value.
- **Collaborators.** `initHttpClient`, `executeGlobalScripts`, `processHttpRegionActions`, `JSON.parse` and the file provider's operations are oracles: pure functions of their arguments. Effects of the scripts and actions on the context (variables they set, requests they store) are not modelled.
- `HttpYacApi.AssembledContext`: `initHttpClient` is asked with `(httpFile, config)` only, while the source passes it the whole context (src/httpYacApi.ts:86).
- **Region-processing arguments.** The processor context keeps only the fields the pipeline reads or writes. `options`, `progress`, `repeat`, `processedHttpRegions`, the log handlers and `request` are not modelled.
- **Cancellation.** `Progress` is not polled by any of the loops, so cancellation is not modelled.
- **Variable providers.**
  - A default provider is asked with `(activeEnvironment, httpFile, config)`, not with the whole context.
  - A `variables` record the caller supplied is overwritten by context assembly and is not passed to the providers.
- **Mode tests.** `isHttpRegionSendContext` and `isHttpRegionsSendContext` (not part of this model) are taken to test the presence of `httpRegion` and `httpRegions`.
- **Strict flag.** Whole-file mode passes no strict flag, modelled as `None`.
- **JSON values.**
  - JSON numbers are integers.
  - Only a parsed object contributes own properties to `Object.assign`: a truthy string or array configuration (whose characters or items JavaScript would copy as indexed keys) contributes nothing.
  - Properties whose value is `undefined` cannot arise from `JSON.parse` and are not modelled.
  - `Object.entries` order of integer-like keys is not modelled: the environment table is an ordered list of entries.
- `JsArrays.Sort` and `HttpYacApi.GetEnvironments`: `sort` compares UTF-16 code units; the model compares Unicode scalar values, which orders the same except across surrogate pairs.
- `FsUtils.ResolveClientCertificates`: rewrites a value-level copy of the configuration instead of updating it in place. Aliasing of certificate entries shared by reference is therefore not captured.
- `FsUtils.ResolvedPath`: only a non-empty string field is resolved. A truthy field of another type, which the source would hand to `toAbsoluteFilename`, is kept.
- `FsUtils.ResolveEntry`: a `null` entry, on which the source throws, is kept unchanged.
- `FileNames.ShortenFileName` and `FileNames.Shortened`: lengths, the budget and the final `slice` count characters (Unicode scalar values), while the source counts UTF-16 code units. Outside the Basic Multilingual Plane the result and the `maxChars` bound differ: a character above U+FFFF counts once here and twice in the source, and the source's slice can cut a surrogate pair.
- `FileNames.ShortenFileName`: the default budget of 50 characters is not modelled; the caller always passes `maxChars`.
- **Path identity.** Paths are strings compared by value. The source compares `PathLike` values with `!==` in `findRootDir` (src/utils/fsUtils.ts:73), which for a non-string `PathLike` (a URI-like object with `fsPath` and `toString`) is a reference test; that identity is not modelled.
- **`dirname`.** The file provider's `dirname` never returns `undefined`. `readdir` never fails: a failing listing would reject the whole search in the source.
- **`depth` and `Valid`.** `depth` and `Valid` exist only so the upward search provably terminates. A provider whose `dirname` cycles without a fixed point is outside the model.
- **`JsonEnvProvider.getVariables`.** It answers `undefined` for a name missing from the table, as the code does; an empty table is not returned.
- **Prototype keys.** Prototype properties of the cache object (`constructor`, `__proto__` and the like) are not looked up.
- **Parser test.** The parser test (`src/test/parser/parser.spec.ts`) exercises the request-file parser, which is not part of this model.
