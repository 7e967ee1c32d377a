# trojansourcedetector: glob compiler and directory scan, modelled in Dafny

trojansourcedetector scans a directory tree for "Trojan Source" code points.
These are bidirectional control characters and unexpected Unicode characters
that make source text read differently from how it compiles. This project
models two parts of it:

- **The glob compiler** (`glob.go`). A table-driven tokenizer turns an
  include or exclude glob into the text of an anchored regular expression.
  - The rule table has sixteen rules over five states. It is written out
    as `Glob.RuleAt`, in table order.
  - At each step the first rule whose state is current and whose token
    matches a prefix applies. `Glob.FindRule` is the inner loop that finds
    it, and `Glob.Compile` is the outer loop.
  - `GlobReference.Reference` is an independent, character-at-a-time
    translator. `GlobReference.TableAgreesWithReference` proves the table
    and the reference translator agree on every input, in every state.
  - `regexp.QuoteMeta` is modelled in `Quote`, with its inverse.
- **The detector** (`detector.go`).
  - `NewWithError` builds the composite detector: BIDI before Unicode,
    then includes compiled before excludes, stopping at the first failing
    pattern.
  - The walk callback of `Run` does three things: it skips entries by
    mode, trims the walked path to the path it reports, and applies the
    include/exclude filter.
  - `processFile` adds an open-error record, then runs one detector block
    per detector, each preceded by a rewind. `Detector.Errors` is the
    record container, an object whose list the methods append to.

What is not modelled becomes a parameter:
- whether the Go regular-expression engine accepts a text (`compiles`);
- whether a compiled pattern matches a name (`regexMatch`);
- what the filesystem and the detectors do with one file (`FileOutcome`);
- the sequence of calls the walk makes (`WalkEvent`).

`filepath.ToSlash` is the identity.

The model follows the code with one exception: `Glob.Compile`, and through
it `NewWithError`, name the glob in a regex error, where glob.go:54 names the
consumed input (see "## Findings"). The mode switch of `Run` is modelled as
written, with the intended skip beside it.

What the code does that the doc comment of `compile` (glob.go:9-25) does not say:

- `!` and `^` have no rule in the start state, so `!x` or `a!` fails at the
  `!`, where the doc comment's grammar reads them as literal characters.
  After `\` or in the run after a class they are taken like any other
  character (`GlobProperties.NoRuleExactly`).
- `[^...]` negates a class, as the doc comment says: `^` inside a class is
  copied (glob.go:159-166). In addition, every `!` inside a class becomes
  `^` (glob.go:151-158). `[!a]` therefore negates like `[^a]`, and `[a!]`
  becomes `[a^]`, which matches `^` and not `!`.
- The empty class `[]` passes the tokenizer: `[` opens the class and `]`
  closes it (`GlobRules.CharacterClassRule`).
- A glob may end inside a class or after a backslash: the loop stops when
  the input runs out (glob.go:30-32). `\` becomes `^$`, and `[` becomes
  `^[$` (`GlobFindings.LoneBracket`), which only the regex engine can reject.
- The token regexes for `.` and `[^...]` differ in one respect. Go's `.`
  does not match a newline, while `[^/]` and `[^/*?!^]` do. So a newline
  is a syntax error after a backslash or inside a class, and a literal
  elsewhere (`GlobProperties.Reserved`).
- When a file does not open, `processFile` does not return. Every detector
  then tries to rewind the nil handle, which fails with "invalid argument".
  So an unopenable file leaves its open error followed by one seek error
  per detector (`DetectorProperties.OpenFailureRecords`).

## Model

| member | source | states |
|---|---|---|
| Quote.QuoteChar | glob.go:196 | One character as `regexp.QuoteMeta` writes it: the character itself comes last, preceded by a backslash exactly when it is one of the fourteen metacharacters, and unquoting gives the character back |
| Quote.QuoteMeta | glob.go:92 | Quoting never shortens a token and at most doubles it |
| Quote.UnquoteQuoteMeta | glob.go:196 | Quoting loses nothing: removing the escapes gives the token back |
| Quote.QuoteMetaAppend | glob.go:196 | Quoting a run equals quoting its pieces one after another |
| Quote.QuoteMetaLength | glob.go:196 | A quoted token is longer by exactly its number of metacharacters |
| Quote.QuoteMetaIdentity | glob.go:196 | Quoting leaves a token unchanged exactly when it has no metacharacter |
| Glob.RuleTransitions | glob.go:78-207 | The table as a state machine: only a backslash in the start state enters an escape, which goes back to the start state; a class escape goes back to the class; only `]` ends a class; every rule after a class goes back to the start state |
| Glob.StateNamesDistinct | glob.go:61-69 | The five state names of the error message are pairwise distinct |
| Glob.TokenLength | glob.go:78-206 | A token that matches always consumes a non-empty prefix of the remaining input, so each step of the loop progresses |
| Glob.FirstRuleFrom | glob.go:34-46 | The rule the scan finds from a position lies at or after it and applies: its input state is current and its token matches |
| Glob.FindRule | glob.go:33-46 | The inner loop finds a rule exactly when some rule applies; the rule it finds is the first in table order, and it reports that rule's token length |
| Glob.Lex | glob.go:29-50 | Every step consumes at least one character, so there are no more steps than input characters; a stop leaves a non-empty remainder |
| Glob.Translate | glob.go:27-51 | A translation is anchored: it starts with `^` and ends with `$`; a failure is a syntax error with a non-empty remainder no longer than the glob |
| Glob.CompileSpec | glob.go:26-59 | A compiled pattern is an anchored text the engine accepts; a regex error names the glob (see Findings) and a text the engine refuses; a syntax error is the tokenizer's, with its remainder and state |
| Glob.Compile | glob.go:26-59 | The tokenizer loop and the final regexp compilation compute CompileSpec: the translation, the syntax error at the first input no rule takes, or the regex error (naming the glob, see Findings) |
| Glob.EmittedAppend | glob.go:42 | The output is the concatenation of the fragments emitted so far |
| GlobRules.StartRule | glob.go:78-206 | In the start state: `\` escapes, `**` followed by `/` or the end is the segment wildcard, `*`, `?` and `[` are their own rules, `/` is copied, `!` and `^` have no rule, and anything else starts a literal run |
| GlobRules.EscapeRule | glob.go:87-94 | After a backslash any character but a newline is taken, quoted |
| GlobRules.CharacterClassRule | glob.go:127-166 | In a class: `\` escapes, `]` closes, `!` negates, a newline has no rule, anything else is copied |
| GlobRules.CharacterClassEscapeRule | glob.go:135-142 | An escaped class character is copied unless it is a newline |
| GlobRules.CharacterClassEndRule | glob.go:167-190 | After a class, `*` repeats it, `/` is copied, and anything else starts a run up to the next slash |
| GlobReference.TableAgreesWithReference | glob.go:29-50 | For every state and every input, the table-driven tokenizer gives the same regex text, or stops at the same remainder in the same state, as the character-at-a-time reference translator |
| GlobProperties.FirstRuleFromIsFirst | glob.go:34-46 | The scan from position i gives k exactly when rule k applies and no rule between i and k does |
| GlobProperties.FirstRuleIsFirst | glob.go:34-46 | The scan gives k exactly when rule k applies and no earlier rule does |
| GlobProperties.NoRuleExactly | glob.go:47-49 | No rule applies exactly when the next character is reserved in the current state: `!` or `^` at the start, a newline after an escape or inside a class |
| GlobProperties.LexConsumes | glob.go:29-49 | A completed loop consumed the whole glob; a stuck loop consumed a prefix, and the rest is non-empty and starts with a reserved character |
| GlobProperties.SyntaxErrorAtReserved | glob.go:47-49 | A tokenizer failure is always a syntax error whose remainder is a non-empty tail of the glob starting with a reserved character |
| GlobProperties.UnreservedTranslates | glob.go:29-51 | A glob without `!`, `^` or newline always passes the tokenizer |
| GlobProperties.TranslateByReference | glob.go:26-51 | The tokenizer's result is `^` + the reference translation + `$`, or the reference's rejection as a syntax error |
| GlobProperties.PlainGlobTranslates | glob.go:191-198 | A glob with none of `\`, `*`, `?`, `[`, `!` and `^` translates to `^` + its quoted text + `$`, and the quoted text gives the glob back |
| GlobFindings.InputAfterLoop | glob.go:29-41 | When the tokenizer loop exits normally, nothing of `input` is left |
| GlobFindings.CompileAsWritten | glob.go:51-55 | compile as written succeeds exactly when the corrected compile does, but every regex error names the empty pattern |
| GlobFindings.LoneBracket | glob.go:119-126 | The glob `[` passes the tokenizer and becomes `^[$` |
| GlobFindings.AsWrittenLosesPattern | glob.go:54 | When `^[$` is refused, compile as written reports pattern '' where the corrected one reports `[` |
| GlobExamples.EscapedStar | glob.go:79-94 | The glob `\*.txt` becomes `^\*\.txt$`: the escaped star stands for itself and the dot is quoted |
| GlobExamples.AnySegmentsThenStar | glob.go:95-110 | The glob `**/*.txt` becomes `^([^/]+(/\|$))*[^/]*\.txt$`: any number of whole segments, then one segment ending in `.txt` |
| GlobFindings.CompileReportsGlob | glob.go:51-58 | A translated glob compiles exactly when the engine accepts its translation; the pattern is that translation; a regex error names both the translation and the glob |
| Detector.Errors.constructor | detector.go:81 | A new container holds no records |
| Detector.Errors.Add | detector.go:143-149 | Appends exactly one record and changes nothing else |
| Detector.Errors.AddAll | detector.go:187 | Appends the given records in order |
| Detector.Detectors | detector.go:31-36 | The BIDI detector is present exactly when enabled, the Unicode detector likewise, and BIDI comes first |
| Detector.CompileAll | detector.go:38-54 | A success holds one compiled pattern per glob; a failure names one of the globs |
| Detector.NewSpec | detector.go:23-62 | A nil configuration means the defaults; a detector holds that configuration, its detectors and one pattern per glob; an include error names an include, and an exclude error names an exclude after every include compiled |
| Detector.CompilePatterns | detector.go:38-45 | The loop over the globs fills the slice index by index and stops at the first glob that fails, naming it |
| Detector.CompileAllFailureSticks | detector.go:42-44 | Once a prefix of the globs fails, the later globs do not change the error |
| Detector.NewWithError | detector.go:23-62 | A nil configuration means the defaults; includes are compiled before excludes; the result is the detector of the model's NewSpec |
| Detector.RemovePrefix | detector.go:112-115 | The prefix removed is the directory with one trailing slash, added only when it has none |
| Detector.TrimPrefix | detector.go:116 | A path with the prefix loses exactly the prefix; any other path is unchanged |
| Detector.Admit | detector.go:118-136 | The include scan with its flag and break, and the exclude scan with its early return, decide exactly the filter |
| Detector.ProcessFile | detector.go:154-189 | The container gains exactly the file's records: the open error, if any, then per detector either a seek error or the detector's findings |
| Detector.SkippedAsWritten | detector.go:87-110 | The switch as written skips only types made of one mode bit |
| Detector.Skipped | detector.go:87-110 | The skip the comments describe covers every type the switch as written skips |
| Detector.DetectorRecords | detector.go:182-188 | On a file that did not open, every detector leaves exactly one record |
| Detector.FileRecords | detector.go:167-188 | A file that does not open leaves its open error first, then one record per detector |
| Detector.EntryRecords | detector.go:87-138 | An entry adds records only when the mode test keeps it and the filter admits its reported path; a dispatched file that does not open adds its open error and one record per detector |
| Detector.VisitEntry | detector.go:83-139 | One callback, with the mode switch as written: nothing for a type the switch skips or a path the filter refuses, the file's records otherwise |
| Detector.Run | detector.go:78-152 | The records of all dispatched files in walk order, then one directory record without a file when the walk failed, nothing after it; entries are skipped by the switch as written |
| DetectorProperties.CompileAllSucceeds | detector.go:38-54 | On success there is one compiled pattern per glob, each the glob's own compilation, in order |
| DetectorProperties.CompileAllFails | detector.go:38-54 | On failure the error names the first glob that fails, with its own error; every earlier glob compiles |
| DetectorProperties.CompileAllMeaning | detector.go:38-54 | Compiling the list succeeds exactly when every glob compiles |
| DetectorProperties.NewSucceeds | detector.go:23-62 | A detector is built exactly when every include and exclude glob compiles; it then holds the configured detectors and one pattern per glob, in order |
| DetectorProperties.NewFailsAtFirstPattern | detector.go:38-54 | An include error names the first failing include; an exclude error means every include compiled and names the first failing exclude |
| DetectorProperties.ReportedPathUnder | detector.go:111-116 | A path under the directory is reported relative to it, whether or not the directory ends in a slash |
| DetectorProperties.ReportedPathOutside | detector.go:116 | A path not under the directory and its slash is reported unchanged |
| DetectorProperties.ReportedPathIsTail | detector.go:116 | The reported path is always a tail of the walked path |
| DetectorProperties.SkippedAsWrittenSingleBit | detector.go:87-110 | The switch as written skips exactly the types made of one mode bit |
| DetectorProperties.SkipDifference | detector.go:87-110 | Everything the switch skips is not a regular file; it misses exactly the types with two or more bits |
| DetectorProperties.CharDeviceNotSkippedAsWritten | detector.go:104-106 | A character device, type ModeDevice plus ModeCharDevice, passes the switch as written although it is not a regular file |
| DetectorProperties.NonRegularAddsNothing | detector.go:87-110 | In the intended run, an entry that is not a regular file, a character device included, adds no record |
| DetectorProperties.MatchesAnyExists | detector.go:120-126 | The scan over patterns finds a match exactly when some pattern matches |
| DetectorProperties.ShouldScanMeaning | detector.go:118-136 | A path is scanned exactly when the include list is empty or some include matches, and no exclude matches |
| DetectorProperties.ExcludeWins | detector.go:131-136 | A path any exclude pattern matches is never scanned, whatever the includes say |
| DetectorProperties.OpenFailureRecords | detector.go:167-186 | A file that does not open leaves its open error followed by one "invalid argument" seek error per detector, and no detector runs |
| DetectorProperties.CleanFileRecords | detector.go:182-188 | A file that opens and rewinds each time gets exactly its detectors' findings, in detector order |
| DetectorProperties.DetectorRecordsSplit | detector.go:182-188 | Each detector's block sits exactly between the blocks of the detectors before it and the blocks of those after it |
| DetectorProperties.CleanBlocks | detector.go:182-188 | Where every rewind of a range of detectors succeeds, their blocks are their findings in detector order |
| DetectorProperties.SingleSeekFailure | detector.go:183-186 | When only the rewind before detector k fails, the file's records are the findings of the detectors before k, one seek error with the rewind's message, then the findings of the detectors after k |
| DetectorProperties.RunAppend | detector.go:82-140 | A walk without failures contributes its entries' records in order and lets the run go on, for the switch as written and for the intended skip alike |
| DetectorProperties.FailureEndsRun | detector.go:82-150 | A walk failure ends the run: its one directory record follows everything dispatched before, and nothing after it is visited |
| DetectorProperties.UnscannedAddsNothing | detector.go:87-136 | An entry the mode test skips or the filter refuses adds no record |
| DetectorProperties.CharDeviceDispatchedAsWritten | detector.go:87-138 | A character device the filter admits is processed by the run as written, so it adds at least one record per detector when it cannot be opened; the intended run adds nothing for it |
| DetectorProperties.RunsAgreeOnSingleBits | detector.go:87-110 | On a walk whose entries have at most one mode bit, the run as written and the intended run give the same records |
| DetectorProperties.RecordsComeFromFiles | detector.go:137-138 | Without a walk failure every record comes from some dispatched entry |

## Left out

- Glob.Compile: a regex error names the glob, where glob.go:54 names `input`, which the loop has consumed by then. The as-written error is `GlobFindings.CompileAsWritten` (see Findings). The causes of `IncludeError` and `ExcludeError` in `NewWithError` carry the corrected error.
- Glob.CompileSpec: the same corrected regex error as `Glob.Compile`.
- The text of the syntax error (glob.go:48) shows the state by its name; the model's `GlobSyntaxError` carries the `State` itself, and `Glob.StateName` gives the name the message would show.
- Glob.Match: it applies the engine parameter `regexMatch` to the pattern's source text. Nothing further is stated about it, since the engine is not modelled.
- The walk runs sequentially here. Goroutines, the `Parallelism` semaphore and the WaitGroup (detector.go:79-80, 137-141, 161-165) are not modelled. Each dispatched file is processed to completion before the next, which is one possible schedule. Records of different files can interleave differently when the files run concurrently.
- `filepath.Walk` is modelled as its sequence of callback calls. Its lexical order and its `Lstat` are not modelled.
- A callback call with an error is modelled only through the error, as `WalkFailure`. A walk failure stops the walk.
- The Go regexp engine is left out, so acceptance and matching are parameters. The expected match results of glob_test.go:14-111 are therefore not proved, only the translations the table produces.
- Go strings are byte strings, and `.` in a token regex matches one UTF-8 rune. The model works on `char` sequences and takes one character per `.`.
- The error texts of `fmt.Errorf` (glob.go:48, 54; detector.go:43, 52) are structured values instead. `GlobSyntaxError` carries the remainder and the state. `RegexError` carries the regex and the pattern. `IncludeError` and `ExcludeError` wrap the failing glob and its cause.
- `New` (detector.go:14-20) only panics on the error of `NewWithError`. A panic is not modelled.
- `Config.Defaults` is a parameter, `defaults`; config.go is not part of this model.
- The BIDI and Unicode detectors themselves are not modelled. Their findings for a file are the parameter `found`. The Errors container's own implementation is not part of this model; it is an append-only list of records.
- Closing the file (detector.go:178-180) has no effect on the records and is not modelled.
- `patternImpl.string` (glob.go:213-215) is the pattern's field `source`.
- `filepath.ToSlash` (glob.go:218; detector.go:111-112) is the identity, which is correct on systems whose separator is `/`.

## Findings

| source | as written | input that shows it | evidently intended | confidence | as-written member | corrected member |
|---|---|---|---|---|---|---|
| glob.go:54 | The regexp error quotes `input`. The tokenizer loop has consumed all of it by then, so the message always names the pattern '' | `[`: it passes the tokenizer as `^[$`, which Go's regexp refuses, and the message says "from pattern ''" | The message names the glob that was compiled | not executed | GlobFindings.AsWrittenLosesPattern | GlobFindings.CompileReportsGlob |
| detector.go:87-110 | The switch compares `Mode().Type()` with single bits, so a type with two bits matches no case | A character device has type ModeDevice plus ModeCharDevice and is opened and read like a regular file | Every entry that is not a regular file is skipped, as the comments of each case say | not executed | DetectorProperties.CharDeviceDispatchedAsWritten | DetectorProperties.NonRegularAddsNothing |
