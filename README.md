# EverybodyCodes camera pipeline, in Dafny

This project models the camera pipeline of EverybodyCodes, a small service that serves the
traffic cameras of Utrecht from a semicolon-separated CSV file.

- **CSV parser.** It drops blank rows and `ERROR` rows. It splits each camera text into a code
  (`UTR-CM-552`) and a name (`Neude rijbaan`), and extracts the camera number (552).
- **Resource reader.** It finds the embedded CSV by the end of its manifest name.
- **Camera store.** It caches the parsed list for a configurable window.
- **Query service.** It hands out the list and searches it by name, ignoring case.
- **Command-line tool.** It scans its arguments for `--name`/`-n`, prints the usage text when no
  name is given, and writes the matches ordered by number with an exit code.
- **Cameras page of the web front end.** It deals the cameras into four FizzBuzz columns.
- **Web API edges.** The controller maps service outcomes to HTTP results, and the global
  exception handler maps exception classes to status codes and messages.

Each source file is one module:

| source | module | form |
|---|---|---|
| `Camera.cs` | `Models` | datatypes |
| `CameraStoreSettings.cs` | `StoreSettings` | datatype and constants |
| `CameraCsvParser.cs` | `CsvParser` | functions and lemmas, plus the `Parse` loop as a method |
| `EmbeddedResourceReader.cs` | `ResourceReader` | functions and lemmas |
| both copies of `EmbeddedCsvCameraStore.cs` | `CameraStore` | a class `EmbeddedCsvCameraStore` whose `GetAll` method updates the two cache fields, proved against the pure step function `CacheStep` |
| `CameraService.cs` | `CameraService` | functions and lemmas |
| `SearchRunner.cs` | `SearchRunner` | the stable sort as functions; `Run` and its output loop as methods |
| `Program.cs` of the CLI | `CliArgs` | functions and lemmas |
| `cameras.ts` | `CamerasColumns` | `classifyColumn` as a function; a class `CamerasComponent` whose `SplitColumns` method refills the four column fields |
| `GlobalExceptionHandlerMiddleware.cs` | `ExceptionMiddleware` | functions and lemmas |
| `CamerasController.cs` | `CamerasController` | functions and lemmas |

Shared pieces live in their own modules:

- `Wrappers`: `Option` for `null`, and `Result` for "returns or throws".
- `Errors`: the exception classes and `ToString`.
- `Text`: ASCII white space, `Trim`, ordinal case-insensitive comparison, and decimal digits.
- `Seqs`: order-preserving `Filter`, `Map` and the first-match search.

Text is ASCII: white space is tab through carriage return plus space, digits are `0`-`9`, and
case folding maps `a`-`z` to `A`-`Z`. The clock is a parameter `now` counted in .NET ticks,
with `DateTime.MinValue` as tick 0. A backing source or service is given by the answer its call
produces, and the calls made are returned alongside the answer.

The fallback split does not trim the name: `ABC  def` gives the name ` def`
(`CsvParser.ExampleFallback`).

## Model

| member | source | states |
|---|---|---|
| CsvParser.Parse | backend/EveryoneCodes/EveryoneCodes.Infrastructure/Parsers/CameraCsvParser.cs:43-60 | the loop builds exactly the list of cameras of the valid rows, in row order (`ParsedCameras`) |
| CsvParser.ParsedCamerasFromRows | backend/EveryoneCodes/EveryoneCodes.Infrastructure/Parsers/CameraCsvParser.cs:43-60 | one camera per valid row, in row order, each built from the row at increasing positions; a row contributes exactly when it is valid; every code is non-empty |
| CsvParser.NoValidRowsNoCameras | backend/EveryoneCodes/EveryoneCodes.Infrastructure/Parsers/CameraCsvParser.cs:43-45 | when no row is valid the result is empty |
| CsvParser.DefaultRowDropped | backend/EveryoneCodes/EveryoneCodes.Core/Models/Camera.cs:12-17 | a row with the default empty fields is invalid and yields no camera |
| CsvParser.ErrorRowDropped | backend/EveryoneCodes/EveryoneCodes.Infrastructure/Parsers/CameraCsvParser.cs:43-67 | a row whose camera text starts with `ERROR` in any letter case is invalid, and adding it to the rows adds no camera |
| CsvParser.ExampleErrorRow | backend/EveryoneCodes/EveryoneCodes.Infrastructure/Parsers/CameraCsvParser.cs:63-67 | one example: `error: offline` starts with `ERROR` ignoring case, so its row is invalid |
| CsvParser.ExampleIndentedError | backend/EveryoneCodes/EveryoneCodes.Infrastructure/Parsers/CameraCsvParser.cs:63-75 | the filter looks at the untrimmed text, so `  ERROR x` survives and parses to number 0, code `ERROR`, name `x` |
| CsvParser.ExampleErrorSplit | backend/EveryoneCodes/EveryoneCodes.Infrastructure/Parsers/CameraCsvParser.cs:109-115 | `ERROR x` takes the fallback split into `ERROR` and `x` |
| CsvParser.ScanCodeCorrect | backend/EveryoneCodes/EveryoneCodes.Infrastructure/Parsers/CameraCsvParser.cs:15-16 | the left-to-right scanner finds a code prefix exactly when the prefix matches `[A-Za-z]+(-[A-Za-z]+)*-\d+` |
| CsvParser.CodePrefixUnique | backend/EveryoneCodes/EveryoneCodes.Infrastructure/Parsers/CameraCsvParser.cs:15-16 | a followed-by-separator code prefix can match in only one way |
| CsvParser.MatchSound | backend/EveryoneCodes/EveryoneCodes.Infrastructure/Parsers/CameraCsvParser.cs:15-16 | a match the scanner reports is a match of the whole pattern, and its name group trims to the trimmed remainder |
| CsvParser.MatchComplete | backend/EveryoneCodes/EveryoneCodes.Infrastructure/Parsers/CameraCsvParser.cs:100-101 | whenever the pattern matches with code length `k`, the scanner reports that match |
| CsvParser.NoDigitNoMatch | backend/EveryoneCodes/EveryoneCodes.Infrastructure/Parsers/CameraCsvParser.cs:15-16 | text without a digit never matches the code pattern |
| CsvParser.ParseCodeAndNameMatched | backend/EveryoneCodes/EveryoneCodes.Infrastructure/Parsers/CameraCsvParser.cs:100-106 | on a pattern match the code is the matched prefix and the name the trimmed remainder |
| CsvParser.ParseCodeAndNameFallback | backend/EveryoneCodes/EveryoneCodes.Infrastructure/Parsers/CameraCsvParser.cs:109-115 | without a match the text is split at its first space |
| CsvParser.ParseCodeAndNameSpec | backend/EveryoneCodes/EveryoneCodes.Infrastructure/Parsers/CameraCsvParser.cs:98-116 | both paths together: matched split when some match exists, first-space split when none does |
| CsvParser.SplitAtFirstSpace | backend/EveryoneCodes/EveryoneCodes.Infrastructure/Parsers/CameraCsvParser.cs:110-112 | the code is the text before the first space and the name everything after it, untrimmed; with no space (or a leading one) the code is the whole text and the name empty |
| CsvParser.ExampleSplit | backend/EveryoneCodes/EveryoneCodes.Infrastructure/Parsers/CameraCsvParser.cs:100-106 | `UTR-CM-552 Neude rijbaan` splits into `UTR-CM-552` and `Neude rijbaan` |
| CsvParser.ExampleHyphen | backend/EveryoneCodes/EveryoneCodes.Infrastructure/Parsers/CameraCsvParser.cs:15-16 | a hyphen separates too: `AB-12-x` splits into `AB-12` and `x` |
| CsvParser.ExampleFallback | backend/EveryoneCodes/EveryoneCodes.Infrastructure/Parsers/CameraCsvParser.cs:109-115 | `ABC  def` falls back and keeps the name ` def` untrimmed |
| CsvParser.ExampleCode | backend/EveryoneCodes/EveryoneCodes.Infrastructure/Parsers/CameraCsvParser.cs:15-16 | `UTR-CM-552` is a code whose digit group starts after position 6 |
| CsvParser.FirstDigitRunUnique | backend/EveryoneCodes/EveryoneCodes.Infrastructure/Parsers/CameraCsvParser.cs:18 | the leftmost maximal digit run is unique and all digits |
| CsvParser.ExtractCameraNumberSpec | backend/EveryoneCodes/EveryoneCodes.Infrastructure/Parsers/CameraCsvParser.cs:118-122 | the number is never negative, is 0 without a digit, and is otherwise the first digit run's value when it fits in an `int`, else 0 |
| CsvParser.NumberOfCode | backend/EveryoneCodes/EveryoneCodes.Infrastructure/Parsers/CameraCsvParser.cs:118-122 | on a pattern code the number is the value of its trailing digit group |
| CsvParser.ExampleNumber | backend/EveryoneCodes/EveryoneCodes.Infrastructure/Parsers/CameraCsvParser.cs:118-122 | `UTR-CM-552` has number 552 |
| CsvParser.ParseCameraFromRow | backend/EveryoneCodes/EveryoneCodes.Infrastructure/Parsers/CameraCsvParser.cs:69-96 | every row yields a camera whose latitude and longitude are the row's, copied as text |
| CsvParser.CameraCodeNotEmpty | backend/EveryoneCodes/EveryoneCodes.Infrastructure/Parsers/CameraCsvParser.cs:73-75 | a row with non-blank camera text yields a non-empty code |
| CsvParser.ExampleCodeAndName | backend/EveryoneCodes/EveryoneCodes.Infrastructure/Parsers/CameraCsvParser.cs:82-89 | the row `UTR-CM-552 Neude rijbaan` yields camera 552 with that code and name and the row's coordinates |
| ResourceReader.FindResourceName | backend/EveryoneCodes/EveryoneCodes.Infrastructure/ResourceReaders/EmbeddedResourceReader.cs:41-45 | `null` exactly when no manifest name ends with the suffix (ignoring case); otherwise the first such name in enumeration order |
| ResourceReader.FirstMatchWins | backend/EveryoneCodes/EveryoneCodes.Infrastructure/ResourceReaders/EmbeddedResourceReader.cs:43-44 | a matching first name is chosen whatever follows |
| ResourceReader.SuffixMatches | backend/EveryoneCodes/EveryoneCodes.Infrastructure/ResourceReaders/EmbeddedResourceReader.cs:44 | a fully qualified name ending in the configured path matches it |
| ResourceReader.ResourceExistsIff | backend/EveryoneCodes/EveryoneCodes.Infrastructure/ResourceReaders/EmbeddedResourceReader.cs:35-39 | a resource exists exactly when some manifest name ends with the given text |
| ResourceReader.ReadResourceOutcome | backend/EveryoneCodes/EveryoneCodes.Infrastructure/ResourceReaders/EmbeddedResourceReader.cs:15-33 | every failure is `FileNotFoundException`; a read succeeds only for an existing resource; a missing one fails with the message naming the requested resource |
| ResourceReader.ReadResourceFound | backend/EveryoneCodes/EveryoneCodes.Infrastructure/ResourceReaders/EmbeddedResourceReader.cs:15-33 | when the first matching name has a stream, the read returns that stream's content |
| CameraStore.EmbeddedCsvCameraStore.constructor | backend/EveryoneCodes/EveryoneCodes.Infrastructure/EmbeddedCsvCameraStore.cs:16-17 | a new store has no cached list and `DateTime.MinValue` as cache time |
| CameraStore.EmbeddedCsvCameraStore.GetAll | backend/EveryoneCodes/EveryoneCodes.Infrastructure/EmbeddedCsvCameraStore.cs:31-61 | the new cache fields and the answer are those of one `CacheStep` over the old fields, with the reader-and-parser outcome as loader |
| CameraStore.HitIff | backend/EveryoneCodes/EveryoneCodes.Infrastructure/EmbeddedCsvCameraStore.cs:63-68 | the cache is served exactly when caching is on, a list is cached and its age is strictly below the window |
| CameraStore.HitIgnoresLoader | backend/EveryoneCodes/EveryoneCodes.Infrastructure/EmbeddedCsvCameraStore.cs:33-37 | a hit returns the cached list and leaves the state alone, whatever the reader and parser would do |
| CameraStore.MissReturnsLoad | backend/EveryoneCodes/EveryoneCodes.Infrastructure/EmbeddedCsvCameraStore.cs:43-54 | a miss returns exactly the loader's outcome: the parser's list in parser order, or its exception |
| CameraStore.SuccessReplacesCache | backend/EveryoneCodes/EveryoneCodes.Infrastructure/EmbeddedCsvCameraStore.cs:47-52 | a successful load with caching on replaces the cached list and stamps the current time |
| CameraStore.TwoCallsInWindow | backend/EveryoneCodes/EveryoneCodes.Infrastructure/EmbeddedCsvCameraStore.cs:33-52 | a second call inside the window returns the first call's list whatever its loader would produce |
| CameraStore.FirstCallLoads | backend/EveryoneCodes/EveryoneCodes.Shared/EmbeddedCsvCameraStore.cs:126-127 | the first call on a new store always loads |
| CameraStore.FailureKeepsCache | backend/EveryoneCodes/EveryoneCodes.Shared/EmbeddedCsvCameraStore.cs:166-170 | a failed load rethrows and leaves both cache fields unchanged |
| CameraStore.DisabledNeverCaches | backend/EveryoneCodes/EveryoneCodes.Shared/EmbeddedCsvCameraStore.cs:157-164 | with caching off every call loads and the fields are never written |
| CameraStore.ExpiredLoads | backend/EveryoneCodes/EveryoneCodes.Shared/EmbeddedCsvCameraStore.cs:173-178 | once the window has passed the next call loads |
| CameraStore.RunInWindowLoadsOnce | backend/EveryoneCodes/EveryoneCodes.Shared/EmbeddedCsvCameraStore.cs:141-171 | a run of calls on a new store that stays inside the first call's window reaches the loader exactly once |
| CameraStore.CachedRunNeverLoads | backend/EveryoneCodes/EveryoneCodes.Shared/EmbeddedCsvCameraStore.cs:143-147 | calls inside the window of a cached list never load and never change the state |
| CameraStore.DefaultWindow | backend/EveryoneCodes/EveryoneCodes.Core/Configuration/CameraStoreSettings.cs:7-9 | with the default settings a cached list is served for 30 minutes (18 000 000 000 ticks) and no longer |
| CameraService.GetAllChoice | backend/EveryoneCodes/EveryoneCodes.Application/CameraService.cs:21-33 | the store's list unchanged when a store is set, else the repository's, else `InvalidOperationException`; at most one read |
| CameraService.SearchReadsOnce | backend/EveryoneCodes/EveryoneCodes.Application/CameraService.cs:35-37 | a search reads the backing list exactly once when a source is set |
| CameraService.SearchIsSubsequence | backend/EveryoneCodes/EveryoneCodes.Application/CameraService.cs:38 | the result is the in-order subsequence of the full list whose names contain the term, ignoring case; a camera is kept exactly when it matches |
| CameraService.SearchPassesFailure | backend/EveryoneCodes/EveryoneCodes.Application/CameraService.cs:37 | a failure to read the full list is the search's failure |
| CameraService.EmptyTermReturnsAll | backend/EveryoneCodes/EveryoneCodes.Application/CameraService.cs:35-39 | blank terms are not rejected: the empty term returns the whole list |
| CameraService.EmptyOccursEverywhere | backend/EveryoneCodes/EveryoneCodes.Application/CameraService.cs:38 | the empty term is contained in every name |
| CameraService.NoMatchIsEmpty | backend/EveryoneCodes/EveryoneCodes.Application/CameraService.cs:38 | when no name contains the term the result is empty |
| CameraService.ExampleContains | backend/EveryoneCodes/EveryoneCodes.Application/CameraService.cs:38 | `neude` is found in `Neude rijbaan` |
| CameraService.ExampleNotContains | backend/EveryoneCodes/EveryoneCodes.Application/CameraService.cs:38 | `neude` is not found in `Utrecht Central` |
| Text.ContainsIgnoreCaseIff | backend/EveryoneCodes/EveryoneCodes.Application/CameraService.cs:38 | `Contains` with `OrdinalIgnoreCase` holds exactly when the term occurs at some position, ignoring case |
| SearchRunner.Run | backend/EveryoneCodes/EveryoneCodes.Cli/SearchRunner.cs:8-22 | one search with the term, or "" for `null`; the outcome is `RunOutcome` of its answer |
| SearchRunner.WriteLines | backend/EveryoneCodes/EveryoneCodes.Cli/SearchRunner.cs:12-19 | the loop writes one line per camera, in order |
| SearchRunner.RunOutcomeSpec | backend/EveryoneCodes/EveryoneCodes.Cli/SearchRunner.cs:12-21 | one line per found camera, the `i`-th for the `i`-th camera of a sorted, stable permutation of the results; exit code 1 exactly when something was found, 0 otherwise |
| SearchRunner.RunOutcomeFailure | backend/EveryoneCodes/EveryoneCodes.Cli/SearchRunner.cs:10 | a failing search is passed on |
| SearchRunner.OrderByNumberSorted | backend/EveryoneCodes/EveryoneCodes.Cli/SearchRunner.cs:12 | `OrderBy(c => c.Number)` yields ascending numbers |
| SearchRunner.OrderByNumberPermutes | backend/EveryoneCodes/EveryoneCodes.Cli/SearchRunner.cs:12 | the ordering keeps exactly the cameras it was given |
| SearchRunner.OrderByNumberStable | backend/EveryoneCodes/EveryoneCodes.Cli/SearchRunner.cs:12 | cameras with equal numbers keep their search order |
| SearchRunner.InsertPermutes | backend/EveryoneCodes/EveryoneCodes.Cli/SearchRunner.cs:12 | one insertion step adds exactly the inserted camera |
| SearchRunner.InsertSorted | backend/EveryoneCodes/EveryoneCodes.Cli/SearchRunner.cs:12 | one insertion step keeps a sorted list sorted |
| SearchRunner.InsertStable | backend/EveryoneCodes/EveryoneCodes.Cli/SearchRunner.cs:12 | one insertion step places the camera after those with the same number |
| SearchRunner.LineNumberRoundTrip | backend/EveryoneCodes/EveryoneCodes.Cli/SearchRunner.cs:14-17 | the line starts with the number: the parser's number extraction reads it back |
| Text.FormatNatRoundTrip | backend/EveryoneCodes/EveryoneCodes.Cli/SearchRunner.cs:15 | the decimal text written for a number reads back as that number |
| CliArgs.GetArgNone | backend/EveryoneCodes/EveryoneCodes.Cli/Program.cs:12-20 | `null` exactly when no argument is a key or starts with `key=`, ignoring case |
| CliArgs.GetArgFirstHit | backend/EveryoneCodes/EveryoneCodes.Cli/Program.cs:12-19 | the earliest hit decides; an exact key gives the next argument whatever it is, or "" at the end, before any `key=` test; otherwise the text after `=` of the first key in key order |
| CliArgs.GetArgFromSkip | backend/EveryoneCodes/EveryoneCodes.Cli/Program.cs:12-19 | arguments before the first hit are passed over |
| CliArgs.PrefixValue | backend/EveryoneCodes/EveryoneCodes.Cli/Program.cs:16-18 | an argument `key=value` has the `key=` prefix and yields `value` |
| CliArgs.DecideSpec | backend/EveryoneCodes/EveryoneCodes.Cli/Program.cs:29-34 | the search runs exactly when `GetArg` found a non-blank name, and with that name; otherwise the usage text is printed |
| CliArgs.ExampleSeparateValue | backend/EveryoneCodes/EveryoneCodes.Cli/Program.cs:14-15 | `--name Neude` searches for `Neude` |
| CliArgs.ExampleInlineValue | backend/EveryoneCodes/EveryoneCodes.Cli/Program.cs:16-18 | `-N=Neude` searches for `Neude` |
| CliArgs.ExampleMissingValue | backend/EveryoneCodes/EveryoneCodes.Cli/Program.cs:14-15 | a trailing `--name` yields "" and so prints the usage text |
| CamerasColumns.JsRemZero | frontend/everybody-codes/src/app/components/cameras/cameras.ts:65-66 | JavaScript's truncating remainder by 3 or 5 is zero exactly for multiples, whatever the sign |
| CamerasColumns.JsRemNeg | frontend/everybody-codes/src/app/components/cameras/cameras.ts:65-66 | JavaScript's remainder takes the dividend's sign |
| CamerasColumns.ClassifyColumnSpec | frontend/everybody-codes/src/app/components/cameras/cameras.ts:64-71 | column 3 exactly for multiples of 15, 1 for other multiples of 3, 2 for other multiples of 5, 4 for the rest |
| CamerasColumns.MultipleOfFifteen | frontend/everybody-codes/src/app/components/cameras/cameras.ts:65-67 | a number is a multiple of 15 exactly when it is a multiple of both 3 and 5, which is what column 3 tests |
| CamerasColumns.ZeroIsColumnThree | frontend/everybody-codes/src/app/components/cameras/cameras.ts:65-67 | number 0 goes to column 3 |
| CamerasColumns.ClassifyColumnPeriodic | frontend/everybody-codes/src/app/components/cameras/cameras.ts:64-71 | the column repeats every 15 numbers and ignores the sign |
| CamerasColumns.DealFilters | frontend/everybody-codes/src/app/components/cameras/cameras.ts:54-60 | each dealt column holds exactly the cameras classified into it, in input order |
| CamerasColumns.DealPermutes | frontend/everybody-codes/src/app/components/cameras/cameras.ts:54-60 | dealing puts every camera in exactly one column |
| CamerasColumns.ColumnsPartition | frontend/everybody-codes/src/app/components/cameras/cameras.ts:54-60 | the four columns together are the input as a multiset, and their sizes sum to the input's length |
| CamerasColumns.CamerasComponent.constructor | frontend/everybody-codes/src/app/components/cameras/cameras.ts:17-20 | the four columns start empty |
| CamerasColumns.CamerasComponent.SplitColumns | frontend/everybody-codes/src/app/components/cameras/cameras.ts:48-61 | after the call column `k` is exactly the in-order list of the cameras classified `k`; nothing from before survives |
| ExceptionMiddleware.StatusCodeFamilies | backend/EveryoneCodes/EveryoneCodes.Api/Middleware/GlobalExceptionHandlerMiddleware.cs:78-88 | 400 exactly for the `ArgumentException` family, 404 for a missing file, 403 for denied access, 408 for a timeout, each including derived classes; 500 for everything else |
| ExceptionMiddleware.MessageAgreesWithStatus | backend/EveryoneCodes/EveryoneCodes.Api/Middleware/GlobalExceptionHandlerMiddleware.cs:57-68 | the generic message exactly for the 500s; the two parameter messages exactly for the 400s, the missing-parameter one only for `ArgumentNullException`; kinds with different codes never share a message |
| ExceptionMiddleware.DetailsOnlyInDevelopment | backend/EveryoneCodes/EveryoneCodes.Api/Middleware/GlobalExceptionHandlerMiddleware.cs:70-76 | details are present exactly when the environment is `Development`, and are then the exception's text |
| ExceptionMiddleware.ExampleLowerCaseEnvironment | backend/EveryoneCodes/EveryoneCodes.Api/Middleware/GlobalExceptionHandlerMiddleware.cs:73 | the environment comparison is case-sensitive |
| Errors.Family | backend/EveryoneCodes/EveryoneCodes.Api/Middleware/GlobalExceptionHandlerMiddleware.cs:59-67 | the named class a type pattern sees: never a class with a named parent, and a named or unrelated class is itself |
| ExceptionMiddleware.DerivedTakesParentArm | backend/EveryoneCodes/EveryoneCodes.Api/Middleware/GlobalExceptionHandlerMiddleware.cs:57-88 | a class derived from a named class gets that class's status code and message |
| ExceptionMiddleware.UnrelatedIsInternal | backend/EveryoneCodes/EveryoneCodes.Api/Middleware/GlobalExceptionHandlerMiddleware.cs:57-88 | a class unrelated to the named ones is a 500 with the generic message |
| ExceptionMiddleware.ExampleRegexTimeout | backend/EveryoneCodes/EveryoneCodes.Api/Middleware/GlobalExceptionHandlerMiddleware.cs:78-88 | a regular expression timeout, a `TimeoutException`, becomes a 408 with the timed-out message |
| ExceptionMiddleware.ExampleDerivedArgument | backend/EveryoneCodes/EveryoneCodes.Api/Middleware/GlobalExceptionHandlerMiddleware.cs:57-88 | a class two levels below `ArgumentException` is a 400 with the invalid-parameter message |
| ExceptionMiddleware.ExampleMissingResource | backend/EveryoneCodes/EveryoneCodes.Api/Middleware/GlobalExceptionHandlerMiddleware.cs:78-88 | a missing-resource exception becomes a 404 with the not-found message |
| CamerasController.GetAllCamerasSpec | backend/EveryoneCodes/EveryoneCodes.Api/Controllers/CamerasController.cs:19-31 | one service call; `Ok` with exactly the service's list, the empty list included, or a 500 problem when it throws |
| CamerasController.SearchBlankRejected | backend/EveryoneCodes/EveryoneCodes.Api/Controllers/CamerasController.cs:36-39 | a missing or blank name is a 400 and the service is not called |
| CamerasController.SearchPassesName | backend/EveryoneCodes/EveryoneCodes.Api/Controllers/CamerasController.cs:41-50 | any other name reaches the service once, unchanged; `Ok` with exactly its list, or a 500 problem when it throws |
| CamerasController.SearchOverService | backend/EveryoneCodes/EveryoneCodes.Api/Controllers/CamerasController.cs:43-44 | over the query service the answer is `Ok` with the in-order name matches of the full list |
| CamerasController.ExampleWhiteSpaceName | backend/EveryoneCodes/EveryoneCodes.Api/Controllers/CamerasController.cs:36-39 | a name of spaces is rejected without a service call |

## Left out

- CSV tokenising by CsvHelper (header mapping, the `;` delimiter, quoting, missing fields) is a
  library. The parser's input is the sequence of rows with their three text fields, never `null`.
- Streams, files and reflection are not modelled. An assembly is its manifest names plus the
  content of each stream that opens.
- `async`/`await` and concurrent calls are not modelled. Every call is sequential, so refresh
  races on the cache fields are not represented.
- Logging has no behavioural effect and is left out.
- Dependency-injection and host wiring are left out, along with the rest of the CLI's
  `Program.cs` after the usage guard (the file-based repository is not part of this model).
- The Angular UI, HTTP calls and the map are left out, as are the `load`/`searchByName`
  subscriptions of the cameras page, its `q` and `cameras` fields, and `PrintUsage`'s console
  writes (its text is the constant `UsageLines`).
- The JSON body, timestamp and trace id of the error response are left out. The environment
  variable is a parameter.
- Interfaces are used only as the shapes of the modelled calls.
- The commented-out legacy parser in the shared store file is dead code and is not modelled.
- `Errors.Describe` gives `Exception.ToString()` without the stack trace.
- `Errors.ExceptionKind`: the .NET class hierarchy is given only as each `Other` class's nearest
  named parent. An `Other` is taken to be none of the named classes; one carrying a named class's
  type name is not excluded.
- Only ASCII text is modelled. .NET's Unicode white space, digits and case folding are not.
- `CamerasColumns.ClassifyColumn` takes integer numbers only. JavaScript non-integers do not
  occur, because camera numbers are C# `int`s.
- `CsvParser.ParseCameraFromRow` cannot fail: its `catch` arm is unreachable for non-null
  rows, so it always yields a camera.
- `CameraStore.EmbeddedCsvCameraStore.GetAll` reads the clock once per call, where the source
  reads `DateTime.UtcNow` twice (in `ShouldUseCache` and when stamping).
- A backing source is given by one fixed answer per call. A store that answers differently on
  each call is covered only through `CameraStore`'s own model.
- `CameraService.Service` allows both dependencies to be set. The two source constructors each
  set one; the model still follows the source's order, store first.
- `SearchRunner.LineNumberRoundTrip` is stated for non-negative numbers only. Parsed numbers are
  never negative.
