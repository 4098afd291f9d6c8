# flags — a verified model of a typed command-line option parser

`flags` is a small C++ header library that reads `argv` into typed program
variables. The repository holds the same parser several times over:

- `src/include/arg_type.hpp` and `src/include/flags.hpp` — the newest
  version. An `OptionParser` holds `Option`s whose values are `Argument`
  objects (`Int`, `IntVec`, `Bool`, `BoolVec`, `String`, `StringVec`,
  `Help`, `Version`). `SetupFlags` sorts the tokens into one bucket per
  option. It then rejects unregistered options and checks the required
  ones. Finally it coerces each bucket with `DataFromStringVector` and runs
  the option's assertor.
- `flags-v2/src/include/flags-v2.hpp` — the same pipeline over `void*`
  variables. It has a stricter marker test (more than three characters),
  checks only that a required option is present, and leaves a vector alone
  on an empty bucket.
- `flags-template/include/flags.hpp` and `flags-macro/include/flags.h` —
  two older, lazier parsers. Each group of values is assigned when the next
  marker arrives. An unregistered marker is an error as soon as the scan
  reaches it.

One Dafny module models each header:

| file | module | models |
|---|---|---|
| `text.dfy` | `Text` | `tolower`/`isspace` in the "C" locale, `std::stoi`, integer rendering, `std::string` order (the order a `std::map` iterates), `std::setw` padding |
| `arg_type.dfy` | `ArgType` | `src/include/arg_type.hpp` |
| `bucketing.dfy` | `Bucketing` | the bucket scan shared by `src/include/flags.hpp` and `flags-v2`, and the cut of a line into segments that the template and macro parsers assign |
| `outcome.dfy` | `Outcomes` | how a parse ends: `Success`, `EarlyExit(message)`, `Failure(message)` |
| `flags.dfy`, `flags_properties.dfy` | `Flags`, `FlagsProperties` | `src/include/flags.hpp` |
| `flags_v2.dfy`, `flags_v2_properties.dfy` | `FlagsV2`, `FlagsV2Properties` | `flags-v2/src/include/flags-v2.hpp` |
| `flags_template.dfy`, `flags_template_properties.dfy` | `FlagsTemplate`, `FlagsTemplateProperties` | `flags-template/include/flags.hpp` |
| `flags_macro.dfy`, `flags_macro_properties.dfy` | `FlagsMacro`, `FlagsMacroProperties` | `flags-macro/include/flags.h` |

The parsers are classes. `Flags.OptionParser`, `FlagsV2.Parser`,
`FlagsTemplate.ArgParser` and `FlagsMacro.Globals` hold the option table in a
`map` field that their methods reassign. Each method that parses the command
line is proved equal to a function of the old state and `argv`:
`Setup`/`Parse` in `Flags` and `FlagsV2`, `Parse` in `FlagsTemplate` and
`FlagsMacro`. The `*Properties` modules then prove what the parser promises
about that function. An exception, `std::exit` or `std::cout` followed by
`exit` becomes an `Outcome`: `EarlyExit` for `--help` and `--version`,
`Failure` for an error. The message texts are modelled character for
character, including the newline the template parser prints after the help
text and after the version line; characters stand for the bytes of the
source's `std::string` (see "Left out").

Behaviour a reader might not expect:

- No version has short options (`-x`): a token is an option marker only when it starts with "--".
- No version checks that an option name starts with a letter.
- Registering a name twice is not an error in `src` or v2: the map's `insert` keeps the first entry. Only the template parser's `add_arg` rejects it.
- A name given twice on the line does not collect both groups: the last mention starts the bucket afresh, and the earlier values are dropped.

## Model

| member | source | states |
|---|---|---|
| ArgType.Tolower | src/include/arg_type.hpp:25-31 | The result has the input's length. Every letter becomes a lower-case a–z, every non-letter is unchanged, lower-case letters stay as they are, and lowering the result again changes nothing. v2's `tolower` (flags-v2/src/include/flags-v2.hpp:556-562) is the same loop. |
| Text.SortedKeys | src/include/flags.hpp:191 | The order a `std::map<std::string, _>` iterates its keys: exactly the set's members, in strictly ascending `std::string` order. |
| Text.SortedListingUnique | src/include/flags.hpp:191 | A set has only one strictly ascending listing, so that iteration order is fully determined. |
| Text.SortKeys | src/include/flags.hpp:256 | Picking the least remaining key each time lists the keys as `SortedKeys` does. |
| Text.Pad | src/include/flags.hpp:346-348 | `std::setw(w) << std::left`: the text comes first and is never cut, and the result is `w` columns wide when the text is shorter. |
| ArgType.IsALetterLowers | src/include/arg_type.hpp:51-53 | `IsALetter(c)` holds exactly for the characters that lower to 'a'..'z', that is, for ASCII letters. |
| ArgType.StrToBoolKeywords | src/include/arg_type.hpp:33-44 | Whatever the letter case: "on", "1", "true" and "" give true, and "off", "0", "false" give false. |
| ArgType.StrToBoolCaseInsensitive | src/include/arg_type.hpp:33-44 | Two tokens that differ only in letter case convert to the same result, including the same `stoi` failure. |
| ArgType.StrToBoolNumber | src/include/arg_type.hpp:33-44 | The decimal text of any integer n converts to `n != 0`, whether it hits the keywords "1"/"0" or goes through `stoi`. |
| ArgType.StrToBoolBoolString | src/include/arg_type.hpp:33-44 | The `boolalpha` rendering of a boolean converts back to that boolean. |
| Text.StoiLower | src/include/arg_type.hpp:33-44 | `std::stoi` ignores letter case, which is why `StrToBool` may lower its token first. |
| Text.StoiIntToString | src/include/arg_type.hpp:124-129 | Reading the decimal text of any integer with `std::stoi` gives back that integer. |
| Text.SignedDigitsOfDigits | src/include/arg_type.hpp:124-129 | A non-empty run of digits reads as its value with `std::stoi`, and as the negated value after a '-'. |
| ArgType.TypeNameIdentifiesKind | src/include/arg_type.hpp:99-101 | Two values have equal type names exactly when they hold the same variant. |
| ArgType.WriteVec | src/include/arg_type.hpp:55-66 | Writes `RenderVec(elems)`: "[]" for no elements, "[x]" for one, and otherwise the elements separated by ", " inside brackets. v2's `printVec` (flags-v2/src/include/flags-v2.hpp:177-189) is the same loop. |
| ArgType.RenderVecMentions | src/include/arg_type.hpp:55-66 | The text of every element occurs in the rendered vector. |
| ArgType.RenderVecOdds | src/include/arg_type.hpp:55-66 | The ints 1, 3, 5 render as "[1, 3, 5]". |
| ArgType.Resize | src/include/arg_type.hpp:138 | `resize(n)` yields length n and keeps the old elements below both lengths; every new slot holds the value-initialised element (0 or false). |
| ArgType.TransformSpec | src/include/arg_type.hpp:137-143 | `std::transform` from position i: the length is kept, the elements before i are untouched, it throws exactly when some token from i on fails to convert, and without a throw every element from i on is its token's conversion. |
| ArgType.TransformInto | src/include/arg_type.hpp:139-141 | The element-by-element loop over the resized vector computes `Transform` from index 0. |
| ArgType.PushAllSpec | flags-v2/src/include/flags-v2.hpp:380-384 | `clear` then `push_back` per token: the pushed elements are the conversions of a prefix of the tokens. It throws exactly when some token fails, and then it stops at the first failing token. Otherwise there is one element per token. |
| ArgType.PushTokens | flags-v2/src/include/flags-v2.hpp:380-384 | The push loop computes `PushAll`. |
| ArgType.AssignKeepsKind | src/include/arg_type.hpp:122-276 | No `DataFromStringVector` changes the variant of its data. |
| ArgType.AssignScalar | src/include/arg_type.hpp:124-276 | For `Int`, `String`, `Help` and `Version`, an empty token list leaves the data unchanged, and otherwise only the first token counts. An `Int` takes `stoi` of it or throws when `stoi` fails. The others take the token's text and never throw. |
| ArgType.AssignBool | src/include/arg_type.hpp:151-158 | An empty token list sets true. Otherwise the data becomes `StrToBool` of the first token, and the coercion throws when that fails. |
| ArgType.AssignIntVec | src/include/arg_type.hpp:137-143 | The vector gets one element per token. It throws exactly when some token fails `stoi`, and otherwise element k is `stoi` of token k. An empty list gives an empty vector. |
| ArgType.AssignIntVecParsed | src/include/arg_type.hpp:137-143 | When every token parses, the vector is exactly the parsed values and nothing throws. |
| ArgType.AssignBoolVec | src/include/arg_type.hpp:166-172 | The same as `AssignIntVec`, with `StrToBool` as the conversion. |
| ArgType.AssignBoolVecParsed | src/include/arg_type.hpp:166-172 | When every token converts, the vector is exactly the converted values. |
| ArgType.AssignStringVec | src/include/arg_type.hpp:247-250 | A `StringVec` becomes the token list exactly. |
| ArgType.AssignTokens | src/include/arg_type.hpp:103-107 | Round trip: coercing the tokens a value renders to, into any data of the same variant, gives back that value without a throw. |
| ArgType.IntStringsRoundTrip | src/include/arg_type.hpp:103-107 | Every rendered int element reads back with `stoi`. |
| ArgType.BoolStringsRoundTrip | src/include/arg_type.hpp:103-107 | Every rendered bool element reads back with `StrToBool`. |
| ArgType.CoerceAgeExample | src/include/arg_type.hpp:124-129 | ["18"] coerced into an `Int` gives 18. |
| ArgType.CoerceBareFlagExample | src/include/arg_type.hpp:151-158 | An empty token list coerced into a `Bool` gives true. |
| ArgType.CoerceOddsExample | src/include/arg_type.hpp:137-143 | ["1", "3", "5"] coerced into an `IntVec` gives [1, 3, 5], and [] gives []. |
| ArgType.Argument.constructor | src/include/arg_type.hpp:95 | The new argument holds the given data. |
| ArgType.Argument.DataFromStringVector | src/include/arg_type.hpp:122-276 | Returns no error message. The new data and whether `stoi` threw are `Assign` of the old data and the tokens. |
| Bucketing.MarkerName | src/include/flags.hpp:197-198 | The option name is the marker with its two leading dashes removed. |
| Bucketing.FirstStop | src/include/flags.hpp:201-209 | `None` means no token is `--help` or `--version`. Otherwise the result is the name of the first such token. |
| Bucketing.FirstStopAt | src/include/flags.hpp:201-209 | The first `--help`/`--version` on the line decides which one stops the scan. |
| Bucketing.LastMention | src/include/flags.hpp:199 | The index of the last marker naming the option, or -1; no later token names it. |
| Bucketing.ScanBuckets | src/include/flags.hpp:193-213 | After the scan, a bucket exists exactly for the mentioned options (plus the default bucket when values lead). The recorded names are exactly the mentioned ones. Each bucket is the run of values after the option's last mention. |
| Bucketing.BucketIsLastRun | src/include/flags.hpp:199 | Mentioning an option again resets its bucket: the bucket is exactly the tokens from just after the last mention (or from the start, for the default bucket) up to the next marker. |
| Bucketing.BucketsDisjoint | src/include/flags.hpp:193-213 | The ranges of two different buckets do not overlap, so no token lands in two buckets. |
| Bucketing.DefaultBucket | src/include/flags.hpp:193-213 | When the default name is never mentioned, its bucket exists exactly when values lead the line, and it holds those values. |
| Bucketing.ScanArgv | src/include/flags.hpp:195-213 | The scan loop reports the first `--help`/`--version`. When there is none, its state is `Scan` of the tokens. |
| Bucketing.FirstUnknownSpec | src/include/flags.hpp:224-228 | The check finds nothing exactly when every recorded name is registered. What it finds is a recorded, unregistered name. |
| Bucketing.Segments | flags-template/include/flags.hpp:358-399 | The line cut at every marker, as the template and macro loops read it: there is always a first segment, named "", which holds the values before any marker. |
| Bucketing.Groups | flags-macro/include/flags.h:279-324 | The groups an option receives, in order. Every one of them is non-empty. |
| Bucketing.KeptBucketsKnown | src/include/flags.hpp:217-228 | Once the unknown-name check passes, every kept bucket names a registered option. |
| Flags.CreateVariable | src/include/flags.hpp:50-52 | A new variable's default and current value are both the given value. |
| Flags.AssertorMessageNames | src/include/flags.hpp:99-108 | The assertion message contains `'--name'` and the assertor's text in quotes. |
| Flags.AssertOptionValueSpec | src/include/flags.hpp:99-108 | There is a message exactly when an assertor exists and rejects the current value. The message is built from the assertor's text and names the option. |
| Flags.WriteOptionRows | src/include/flags.hpp:342-366 | The loop of `AutoGenHelpDocs` writes exactly `OptionRows` of the keys. |
| Flags.HelpRowMentions | src/include/flags.hpp:342-366 | An option's row contains `--name`. |
| Flags.OptionRowsMention | src/include/flags.hpp:342-366 | Every listed key's `--name` occurs in the option rows. |
| Flags.HelpDocsMentions | src/include/flags.hpp:317-369 | The generated help text contains `--name` for every registered option, help and version included. |
| Flags.SetDefaultText | src/include/flags.hpp:163-174 | Storing a text in `help` or `version` keeps the registry well formed and its keys. Only that entry's default changes, and every other entry is untouched. |
| Flags.Prepare | src/include/flags.hpp:183-189 | The auto-generation steps keep the registry well formed and its keys. |
| Flags.RequiredCheckPasses | src/include/flags.hpp:231-253 | The required check passes exactly when every option is satisfied: optional, or required with a non-empty bucket. |
| Flags.RequiredCheckNames | src/include/flags.hpp:231-253 | A failed required check reports the message for an unsatisfied option. |
| Flags.AssignAll | src/include/flags.hpp:256-260 | The assign-and-assert loop keeps the registry's keys. |
| Flags.AssignAllStops | src/include/flags.hpp:256-260 | After the first failure, the remaining names change nothing. |
| Flags.AssignAllStep | src/include/flags.hpp:256-260 | One more turn of the loop assigns and asserts the next name's bucket. |
| Flags.AssignedWellFormed | src/include/flags.hpp:258 | Assigning a bucket keeps the registry well formed. |
| Flags.OptionParser.constructor | src/include/flags.hpp:143-158 | Registers `version` and `help` as optional entries with empty texts and turns both auto-generation flags on. |
| Flags.OptionParser.SetVersion | src/include/flags.hpp:163-166 | Stores the version text and turns version auto-generation off, leaving help auto-generation as it was. |
| Flags.OptionParser.SetHelp | src/include/flags.hpp:171-174 | Stores the help text and turns help auto-generation off, leaving version auto-generation as it was. |
| Flags.OptionParser.AutoGenVersion | src/include/flags.hpp:371-373 | The version text becomes "1.0.0". |
| Flags.OptionParser.AutoGenHelpDocs | src/include/flags.hpp:317-369 | The help text becomes `HelpDocs` of the registry and program name. |
| Flags.OptionParser.AddOption | src/include/flags.hpp:275-291 | A new name is inserted with its default as both default and value. An existing name is left alone, as `insert` does. Returns the entry's current value. |
| Flags.OptionParser.AddDefaultOption | src/include/flags.hpp:304-310 | `AddOption` under the name "def-opt". |
| Flags.OptionParser.CheckOptionNames | src/include/flags.hpp:224-228 | The loop finds the first recorded name that is not registered. |
| Flags.OptionParser.CheckRequired | src/include/flags.hpp:231-253 | The loop returns `RequiredCheck` over the registry in sorted order. |
| Flags.OptionParser.AssignAndAssert | src/include/flags.hpp:256-260 | Assigns and asserts the buckets in sorted key order, as `AssignAll` does, stopping at the first failure. |
| Flags.OptionParser.SetupFlags | src/include/flags.hpp:182-261 | The outcome and the new registry are `Setup` of the old registry, the flags and `argv`. |
| Flags.OptionParser.ReadArguments | src/include/flags.hpp:191-260 | The part after auto-generation computes `Parse` of the registry and `argv`. |
| FlagsProperties.MarkerNameLength | src/include/flags.hpp:383-385 | A token is a marker exactly when it starts with "--" and names at least one character, so "--" is a value and "--a" a marker. |
| FlagsProperties.EmptyNameNeverBucketed | src/include/flags.hpp:383-385 | No bucket is ever filed under the empty name. |
| FlagsProperties.IsStopText | src/include/flags.hpp:201-209 | The tokens that stop the scan are exactly "--help" and "--version". |
| FlagsProperties.MarkersKnownSpec | src/include/flags.hpp:224-228 | Every marker on the line is registered exactly when the unknown-name check finds nothing. |
| FlagsProperties.BucketsSpec | src/include/flags.hpp:193-221 | A registered option's bucket exists exactly when the scan gives it one, and then it is the run after its last mention. |
| FlagsProperties.EntryOutcomeSpec | src/include/flags.hpp:256-260 | One entry fails with "stoi" when coercion throws. It succeeds exactly when coercion does not throw and no assertor objects. An assertor's failure names the option. |
| FlagsProperties.EntryFailureKinds | src/include/flags.hpp:256-260 | One entry either succeeds, fails with "stoi", or fails with an assertor message. |
| FlagsProperties.AssignAllUntouched | src/include/flags.hpp:256-260 | Entries the loop is not given are never changed. |
| FlagsProperties.AssignAllSuccess | src/include/flags.hpp:256-260 | Over distinct names, the loop succeeds exactly when every entry's own assignment succeeds. |
| FlagsProperties.AssignAllValues | src/include/flags.hpp:256-260 | After a successful loop, each named entry holds its assigned bucket. |
| FlagsProperties.AssignAllFailure | src/include/flags.hpp:256-260 | A failed loop reports the failure of one of its entries. |
| FlagsProperties.ParseStops | src/include/flags.hpp:201-209 | The first `--help` ends the parse with the help text, and the first `--version` with `argv[0] + ": ['version': '" + version + "']"`. Nothing is assigned. |
| FlagsProperties.SetupHelp | src/include/flags.hpp:182-209 | With auto-generation on, `--help` shows the generated docs, otherwise the text `SetHelp` stored. |
| FlagsProperties.SetupVersion | src/include/flags.hpp:182-209 | With auto-generation on, `--version` reports "1.0.0", otherwise the text `SetVersion` stored. |
| FlagsProperties.SetupHelpListsOptions | src/include/flags.hpp:182-209 | The auto-generated help shown for `--help` contains `--name` for every registered option. |
| FlagsProperties.ParseUnknown | src/include/flags.hpp:224-228 | A marker naming no registered option fails with a message naming such a marker, and nothing is assigned. |
| FlagsProperties.ParseRequired | src/include/flags.hpp:231-253 | A required option that is missing, or given with no values, fails the parse with the message of an unsatisfied option, and nothing is assigned. |
| FlagsProperties.RequiredMessageNames | src/include/flags.hpp:231-253 | The required-option message contains `--name`, except for an absent default option, whose message is generic. |
| FlagsProperties.RequiredAll | src/include/flags.hpp:231-253 | The check over the sorted keys is the check over every option. |
| FlagsProperties.OutcomesAll | src/include/flags.hpp:256-260 | Assigning the buckets in sorted order succeeds exactly when every bucket's assignment succeeds. |
| FlagsProperties.ParseSucceeds | src/include/flags.hpp:182-261 | The parse succeeds exactly when there is no `--help`/`--version`, every marker is registered, every required option is satisfied, and every bucket assigns and passes its assertor. |
| FlagsProperties.FirstStopFrom | src/include/flags.hpp:195-213 | Any `--help` or `--version` on the line makes the parse end early. |
| FlagsProperties.ParseAssigns | src/include/flags.hpp:256-260 | After a successful parse, each option with a bucket holds that bucket's coercion, and every other option is unchanged. |
| FlagsProperties.ParseKeepsUnmentioned | src/include/flags.hpp:256-260 | Whatever the outcome, an option without a bucket keeps its entry, so its value stays its default. |
| FlagsProperties.ParseFailures | src/include/flags.hpp:182-261 | A failure is one of: an unknown option, a missing required option, "stoi", or an assertor message. |
| FlagsV2.WriteOptionRows | flags-v2/src/include/flags-v2.hpp:494-502 | The loop of `autoGenHelpDocs` writes exactly `OptionRows` of the keys. |
| FlagsV2.HelpRowMentions | flags-v2/src/include/flags-v2.hpp:498-501 | An option's row contains `--name`. |
| FlagsV2.OptionRowsMention | flags-v2/src/include/flags-v2.hpp:494-502 | Every listed key's `--name` occurs in the rows. |
| FlagsV2.TailMentionsBuiltins | flags-v2/src/include/flags-v2.hpp:505-514 | The closing rows contain `--help` and `--version`. |
| FlagsV2.HelpDocsMentions | flags-v2/src/include/flags-v2.hpp:469-522 | The generated help contains `--name` for every registered option other than `__NOPT__`. |
| FlagsV2.HelpDocsMentionsNoOpt | flags-v2/src/include/flags-v2.hpp:486-492 | A registered `__NOPT__` option is shown as `--no-opt`. |
| FlagsV2.SetText | flags-v2/src/include/flags-v2.hpp:292-303 | Storing a help or version text keeps the table well formed and its keys. That entry's default becomes the text, and the other entries are unchanged. |
| FlagsV2.Prepare | flags-v2/src/include/flags-v2.hpp:312-318 | The auto-generation steps keep the table well formed and its keys. |
| FlagsV2.MissingRequiredSpec | flags-v2/src/include/flags-v2.hpp:356-363 | No complaint exactly when every required option has a bucket, even an empty one. A complaint names a required option without one. |
| FlagsV2.AssignV2KeepsKind | flags-v2/src/include/flags-v2.hpp:366-464 | Assignment never changes an option's variant. |
| FlagsV2.AssignedWellFormed | flags-v2/src/include/flags-v2.hpp:366-464 | Assigning a bucket keeps the table well formed. |
| FlagsV2.AssignAll | flags-v2/src/include/flags-v2.hpp:366-464 | The assignment loop keeps the table's keys. |
| FlagsV2.AssignAllStops | flags-v2/src/include/flags-v2.hpp:366-464 | After a `stoi` failure, the remaining names change nothing. |
| FlagsV2.AssignAllStep | flags-v2/src/include/flags-v2.hpp:366-464 | One more turn of the loop assigns the next name's bucket. |
| FlagsV2.AssignValue | flags-v2/src/include/flags-v2.hpp:368-463 | One case of the `switch` computes `AssignV2`. |
| FlagsV2.Parser.constructor | flags-v2/src/include/flags-v2.hpp:281-287 | Registers `help` and `version` with empty texts and turns both auto-generation flags on. |
| FlagsV2.Parser.SetVersion | flags-v2/src/include/flags-v2.hpp:292-295 | Stores the version text and turns version auto-generation off. |
| FlagsV2.Parser.SetHelpDocs | flags-v2/src/include/flags-v2.hpp:300-303 | Stores the help text and turns help auto-generation off. |
| FlagsV2.Parser.AutoGenVersion | flags-v2/src/include/flags-v2.hpp:524-526 | The version text becomes "1.0.0". |
| FlagsV2.Parser.AutoGenHelpDocs | flags-v2/src/include/flags-v2.hpp:469-522 | The help text becomes `HelpDocs` of the table and program name. |
| FlagsV2.Parser.Insert | flags-v2/src/include/flags-v2.hpp:596-604 | `FLAGS_DEF`: a new name gets an entry whose default and value are the initial value, and a taken name is left alone. Returns the initial value. |
| FlagsV2.Parser.CheckOptionNames | flags-v2/src/include/flags-v2.hpp:349-353 | The loop finds the first recorded name that is not registered. |
| FlagsV2.Parser.CheckRequired | flags-v2/src/include/flags-v2.hpp:356-363 | The loop returns `MissingRequired` over the table in sorted order. |
| FlagsV2.Parser.AssignBuckets | flags-v2/src/include/flags-v2.hpp:366-464 | Assigns the buckets in sorted key order, as `AssignAll` does. |
| FlagsV2.Parser.SetupFlags | flags-v2/src/include/flags-v2.hpp:311-466 | The outcome and the new table are `Setup` of the old table, the flags and `argv`. |
| FlagsV2.Parser.ReadArguments | flags-v2/src/include/flags-v2.hpp:320-465 | The part after auto-generation computes `Parse`. |
| FlagsV2Properties.ToBoolAgrees | flags-v2/src/include/flags-v2.hpp:569-582 | `toBool` converts every token exactly as `StrToBool` of the first parser does. |
| FlagsV2Properties.IsStopText | flags-v2/src/include/flags-v2.hpp:331-336 | The tokens that stop the scan are exactly "--help" and "--version". |
| FlagsV2Properties.MarkerNameLength | flags-v2/src/include/flags-v2.hpp:535-537 | A marker starts with "--" and names two characters or more, so "--a" is a value and "--ab" a marker. |
| FlagsV2Properties.ShortNameNeverBucketed | flags-v2/src/include/flags-v2.hpp:535-537 | An option whose name is shorter than two characters can never get a bucket. |
| FlagsV2Properties.MarkersKnownSpec | flags-v2/src/include/flags-v2.hpp:349-353 | Every marker is registered exactly when the unknown-name check finds nothing. |
| FlagsV2Properties.BucketsSpec | flags-v2/src/include/flags-v2.hpp:320-346 | A registered option has a bucket exactly when the scan gives it one, and then it is its last run of values. |
| FlagsV2Properties.AssignV2Empty | flags-v2/src/include/flags-v2.hpp:369-454 | An empty bucket leaves every variable unchanged, except that a `bool` becomes true. |
| FlagsV2Properties.AssignV2Scalars | flags-v2/src/include/flags-v2.hpp:369-375 | On `int`, `bool` and `string` this version assigns exactly as the first parser's `DataFromStringVector`. |
| FlagsV2Properties.VectorsKeptOnEmpty | flags-v2/src/include/flags-v2.hpp:376-386 | An empty bucket keeps a vector's elements here, where the first parser empties it. |
| FlagsV2Properties.AssignV2Vectors | flags-v2/src/include/flags-v2.hpp:376-454 | A non-empty bucket replaces a vector. It throws exactly when some token fails to convert, and otherwise there is one converted element per token, in order. |
| FlagsV2Properties.AssignAllUntouched | flags-v2/src/include/flags-v2.hpp:366-464 | Entries the loop is not given are never changed. |
| FlagsV2Properties.AssignAllSuccess | flags-v2/src/include/flags-v2.hpp:366-464 | Over distinct names, the loop succeeds exactly when no entry's assignment throws. |
| FlagsV2Properties.AssignAllValues | flags-v2/src/include/flags-v2.hpp:366-464 | After a successful loop, each named entry holds its bucket's assignment. |
| FlagsV2Properties.AssignAllFailure | flags-v2/src/include/flags-v2.hpp:366-464 | The loop can only fail with the `stoi` error. |
| FlagsV2Properties.ParseStops | flags-v2/src/include/flags-v2.hpp:331-336 | The first `--help` ends the parse with the help text, and the first `--version` with `argv[0] + ": ['version': '" + version + "']"`. Nothing is assigned. |
| FlagsV2Properties.SetupHelp | flags-v2/src/include/flags-v2.hpp:311-336 | With auto-generation on, `--help` shows the generated docs, otherwise the stored text. |
| FlagsV2Properties.SetupVersion | flags-v2/src/include/flags-v2.hpp:311-336 | With auto-generation on, `--version` reports "1.0.0", otherwise the stored text. |
| FlagsV2Properties.SetupHelpListsOptions | flags-v2/src/include/flags-v2.hpp:469-522 | The generated help shown for `--help` contains `--name` for every registered option but `__NOPT__`. |
| FlagsV2Properties.SetupHelpListsNoOpt | flags-v2/src/include/flags-v2.hpp:486-492 | The generated help shows a registered `__NOPT__` as `--no-opt`. |
| FlagsV2Properties.ParseUnknown | flags-v2/src/include/flags-v2.hpp:349-353 | An unregistered marker fails the parse naming such a marker, and nothing is assigned. |
| FlagsV2Properties.RequiredAll | flags-v2/src/include/flags-v2.hpp:356-363 | The required check over the sorted names tests every option, and only for presence. |
| FlagsV2Properties.ParseMissing | flags-v2/src/include/flags-v2.hpp:356-363 | A required option that never appears fails the parse with a message naming a missing required option, and nothing is assigned. |
| FlagsV2Properties.RequiredPresenceOnly | flags-v2/src/include/flags-v2.hpp:356-363 | A required option given with no values passes the check. |
| FlagsV2Properties.OutcomesAll | flags-v2/src/include/flags-v2.hpp:366-464 | Assigning in sorted order is free of throws exactly when every bucket's assignment is. |
| FlagsV2Properties.ParseSucceeds | flags-v2/src/include/flags-v2.hpp:311-466 | The parse succeeds exactly when there is no `--help`/`--version`, every marker is registered, every required option appears, and no conversion throws. |
| FlagsV2Properties.FirstStopFrom | flags-v2/src/include/flags-v2.hpp:324-340 | Any `--help` or `--version` on the line ends the parse early. |
| FlagsV2Properties.ParseAssigns | flags-v2/src/include/flags-v2.hpp:366-464 | After a successful parse, each option with a bucket holds what that bucket assigned, and every other option is unchanged. |
| FlagsV2Properties.ParseKeepsUnmentioned | flags-v2/src/include/flags-v2.hpp:366-464 | Whatever the outcome, an option without a bucket keeps its entry. |
| FlagsV2Properties.ParseFailures | flags-v2/src/include/flags-v2.hpp:311-466 | A failure is an unknown option, a missing required option, or the `stoi` error. |
| FlagsTemplate.Zero | flags-template/include/flags.hpp:301 | `Type()` is a value of the same variant. |
| FlagsTemplate.AsignGroupKeepsKind | flags-template/include/flags.hpp:383-389 | Assigning a group never changes an argument's variant. |
| FlagsTemplate.AnyAsignVector | flags-template/include/flags.hpp:114-153 | The vector overload computes `AsignVector`: clear, then push one converted element per token, stopping where `stoi` throws. |
| FlagsTemplate.AnyAsign | flags-template/include/flags.hpp:164-193 | Tries the scalar overload on the group's first value and falls back to the vector overload, as `AsignGroup` does. |
| FlagsTemplate.FormatVector | flags-template/include/flags.hpp:213-224 | Writes `FormatVec`: "[(empty)]" for no elements, else the bracketed ", "-separated list. |
| FlagsTemplate.ToString | flags-template/include/flags.hpp:70-103 | Computes `ToStringAny`, with the vectors written by `FormatVector`. |
| FlagsTemplate.ToLower | flags-template/include/flags.hpp:202-207 | The result is the lowered input. |
| FlagsTemplate.HelpRowMentions | flags-template/include/flags.hpp:511-513 | An argument's row contains `--name`. |
| FlagsTemplate.HelpRowsMention | flags-template/include/flags.hpp:511-513 | Every key's `--name` occurs in the rows. |
| FlagsTemplate.HelpDocsMentions | flags-template/include/flags.hpp:500-517 | The generated help contains `--name` for every registered argument. |
| FlagsTemplate.RunStops | flags-template/include/flags.hpp:358-399 | Once the scan has stopped, later tokens change nothing. |
| FlagsTemplate.ArgParser.constructor | flags-template/include/flags.hpp:283-288 | Registers `version` (a string defaulting to "1.0") and `help` (a bool defaulting to false). Help auto-generation is on, the help text is empty and the version is "1.0". |
| FlagsTemplate.ArgParser.AddArg | flags-template/include/flags.hpp:298-309 | A taken name is an error naming it, and the table is unchanged. A new name gets the default as its default value and `Type()` as its current value. |
| FlagsTemplate.ArgParser.SetHelp | flags-template/include/flags.hpp:419-423 | Stores the help text and turns auto-generation off. |
| FlagsTemplate.ArgParser.SetVersion | flags-template/include/flags.hpp:430-433 | Stores the version text and leaves help auto-generation alone. |
| FlagsTemplate.ArgParser.GenArgsHelp | flags-template/include/flags.hpp:500-517 | The help text becomes `HelpDocs` when auto-generation is on, and is unchanged otherwise. |
| FlagsTemplate.ArgParser.FlushGroup | flags-template/include/flags.hpp:380-392 | Assigning a group to the previous argument computes `Flush`. |
| FlagsTemplate.ArgParser.SetupParser | flags-template/include/flags.hpp:350-412 | Regenerates the help text when due. The outcome and the new table are then `Parse` of the old table, the texts, `argv` and the library conversions. |
| FlagsTemplate.ArgParser.ReadArguments | flags-template/include/flags.hpp:354-411 | The scan and the final flush compute `Parse`. |
| FlagsTemplate.ArgParser.GetArgValue | flags-template/include/flags.hpp:442-453 | The current value of a registered argument of the asked type, else `None` (the exception). |
| FlagsTemplate.ArgParser.GetArgDefaultValue | flags-template/include/flags.hpp:462-474 | The default value of a registered argument of the asked type, else `None`. |
| FlagsTemplateProperties.MarkerRule | flags-template/include/flags.hpp:360 | A token is a marker exactly when it starts with "--". The bare "--" names the empty option. |
| FlagsTemplateProperties.BoolTokenAgrees | flags-template/include/flags.hpp:117-127 | A `bool` vector element converts as `StrToBool` does, except that the empty token throws here. |
| FlagsTemplateProperties.FormatVecSpec | flags-template/include/flags.hpp:213-224 | No elements give "[(empty)]". Otherwise the text is bracketed and every element's text occurs in it. |
| FlagsTemplateProperties.FormatVecAmbiguous | flags-template/include/flags.hpp:213-224 | The one-element vector ["(empty)"] renders exactly like an empty one. |
| FlagsTemplateProperties.ToStringScalars | flags-template/include/flags.hpp:82-92 | The text of an int reads back with `stoi`, that of a bool with the `bool` element conversion, and a string is its own text. |
| FlagsTemplateProperties.ScalarTakesFront | flags-template/include/flags.hpp:164-193 | A scalar argument takes only the group's first value and never fails. |
| FlagsTemplateProperties.VectorOnePerValue | flags-template/include/flags.hpp:114-144 | A string vector becomes the group. An int or bool vector gets the conversions of a prefix of the group, fails exactly when some value does not convert, and otherwise has one element per value. |
| FlagsTemplateProperties.ValuesExtendGroup | flags-template/include/flags.hpp:395-398 | Values only extend the pending group. |
| FlagsTemplateProperties.StoppedStaysStopped | flags-template/include/flags.hpp:364-378 | After an early exit or error, no later token changes anything. |
| FlagsTemplateProperties.LeadingValues | flags-template/include/flags.hpp:380-382 | Values before any marker form a group with no owner. |
| FlagsTemplateProperties.ParseTokens | flags-template/include/flags.hpp:350-412 | The parse is the scan of `argv[1..]` followed by the final flush. |
| FlagsTemplateProperties.OnlyValuesIgnored | flags-template/include/flags.hpp:400 | A line of values with no marker succeeds and changes nothing. |
| FlagsTemplateProperties.FirstMarker | flags-template/include/flags.hpp:360-392 | The first marker fails at once when unregistered, and exits with the help text or the version line for `help`/`version`, each followed by the newline it is printed with. A registered marker after leading values fails looking up the empty name, unless "" is registered. Nothing is assigned in any of these cases. |
| FlagsTemplateProperties.BareFlag | flags-template/include/flags.hpp:380-393 | An option given with no values is not assigned at all. |
| FlagsTemplateProperties.OneOption | flags-template/include/flags.hpp:380-410 | One option followed by values gets that group assigned at the end of the line, or fails with the `any-asign` error. |
| FlagsTemplateProperties.LastGroupWins | flags-template/include/flags.hpp:380-393 | An int option given twice ends with the first value of its last group. |
| FlagsTemplateProperties.FlushKeeps | flags-template/include/flags.hpp:380-392 | A flush keeps the table's shape and touches only the owner of the group. An error it reports is one the parser can report. |
| FlagsTemplateProperties.StepKeeps | flags-template/include/flags.hpp:358-399 | Each token keeps the scan invariant: keys and variants unchanged, unmentioned arguments untouched, stops and errors as expected. |
| FlagsTemplateProperties.RunKeeps | flags-template/include/flags.hpp:358-399 | The whole scan keeps that invariant. |
| FlagsTemplateProperties.ParseKeeps | flags-template/include/flags.hpp:350-412 | A parse keeps the table's keys and variants and never touches an argument the line does not mention. Its outcome is success, the help text, the version line, an invalid-option error, a failed lookup or the `any-asign` error. |
| FlagsTemplateProperties.Assigns | flags-template/include/flags.hpp:380-392 | Assigning a sequence of groups one after another keeps the option's variant. |
| FlagsTemplateProperties.AssignsLast | flags-template/include/flags.hpp:383-384 | For every supported variant except `std::string`, assigning several groups in turn gives what assigning the last group alone gives. |
| FlagsTemplateProperties.GroupsAssigned | flags-template/include/flags.hpp:358-412 | After a successful parse, every registered option other than "" holds the result of assigning, in order, each non-empty group that follows one of its markers. An option with no such group keeps its entry. For every variant except `std::string`, the last group alone decides the value. |
| FlagsTemplateProperties.FreshParserBuiltins | flags-template/include/flags.hpp:283-288 | On a fresh parser, `--version` prints `prog + " version: 1.0"` and a newline, and `--help` the help text and a newline. |
| FlagsMacro.ReadWords | flags-macro/include/flags.h:200-212 | One word per token. |
| FlagsMacro.CastVector | flags-macro/include/flags.h:200-212 | The `PARAM_CAST_VEC` loop computes `VectorCast`: clear, then one pushed element per token. |
| FlagsMacro.FirstMarker | flags-macro/include/flags.h:281 | The index of the first marker, or the length when there is none: every token before it is a value and the token at it is a marker. |
| FlagsMacro.HelpRowMentions | flags-macro/include/flags.h:270-271 | A parameter's row contains `--name`. |
| FlagsMacro.HelpRowsMention | flags-macro/include/flags.h:270-271 | Every key's `--name` occurs in the rows. |
| FlagsMacro.HelpDocsMentions | flags-macro/include/flags.h:266-273 | The generated help contains `--name` for every defined parameter. |
| FlagsMacro.Run | flags-macro/include/flags.h:279-324 | The scan keeps the parameter names. |
| FlagsMacro.RunStops | flags-macro/include/flags.h:285-298 | Once the scan has stopped, later tokens change nothing. |
| FlagsMacro.Globals.constructor | flags-macro/include/flags.h:220-222 | Defines `version` ("1.0") and `help` (false) with their descriptions. The setup map and help text are empty, and auto-generation is on. |
| FlagsMacro.Globals.Define | flags-macro/include/flags.h:154-171 | `DEFINE`/`DEFINE_VEC`: registers the variable's initial value and its description under the name. |
| FlagsMacro.Globals.SetupHelp | flags-macro/include/flags.h:231-235 | Stores the help text and turns auto-generation off. |
| FlagsMacro.Globals.SetupVersion | flags-macro/include/flags.h:242-245 | Overwrites the `version` variable, which is then the version text. |
| FlagsMacro.Globals.GenHelpDocs | flags-macro/include/flags.h:266-273 | The help text becomes `HelpDocs` when auto-generation is on, and is unchanged otherwise. |
| FlagsMacro.Globals.FlushGroup | flags-macro/include/flags.h:300-317 | Casts the group into the previous parameter and records the group in the setup map unless the name is already there, as `Flush` does. |
| FlagsMacro.Globals.Visit | flags-macro/include/flags.h:280-323 | One token of the loop computes `Step`. |
| FlagsMacro.Globals.Scan | flags-macro/include/flags.h:279-324 | The loop over the tokens computes `Run`. |
| FlagsMacro.Globals.SetupFlags | flags-macro/include/flags.h:263-344 | Regenerates the help text when due. The outcome, the variables and the setup map are then `Parse` of the old state and `argv`. |
| FlagsMacro.Globals.ReadArguments | flags-macro/include/flags.h:275-343 | The scan and the final flush compute `Parse`. |
| FlagsMacroProperties.CastDefined | flags-macro/include/flags.h:189-212 | Casting a group into any supported variable succeeds and keeps its variant. |
| FlagsMacroProperties.ScalarTakesFront | flags-macro/include/flags.h:306 | A scalar parameter takes only the group's first value. |
| FlagsMacroProperties.ReadWordsSpec | flags-macro/include/flags.h:200-212 | Each word is read from its token, given the previous word still held by the reused `temp`. |
| FlagsMacroProperties.VectorOnePerValue | flags-macro/include/flags.h:200-212 | A vector parameter is cleared and gets exactly one element per value, each read from its token. |
| FlagsMacroProperties.ValuesExtendGroup | flags-macro/include/flags.h:320-323 | Values only extend the pending group. |
| FlagsMacroProperties.StoppedStaysStopped | flags-macro/include/flags.h:285-298 | After an early exit or error, no later token changes anything. |
| FlagsMacroProperties.LeadingValues | flags-macro/include/flags.h:322 | Values before any marker form a group with no owner. |
| FlagsMacroProperties.ParseTokens | flags-macro/include/flags.h:263-344 | The parse is the scan of `argv[1..]` followed by the final flush. |
| FlagsMacroProperties.OnlyValuesIgnored | flags-macro/include/flags.h:325 | A line of values with no marker succeeds and changes nothing. |
| FlagsMacroProperties.FirstMarkerStops | flags-macro/include/flags.h:281-298 | An unregistered first marker fails naming `--name`. `--help` gives the help text plus "\nProgram Help Docs", and `--version` gives `argv[0] + " version: " + version`. Nothing changes. |
| FlagsMacroProperties.BareFlag | flags-macro/include/flags.h:300 | A parameter given with no values is not cast at all. |
| FlagsMacroProperties.OneOption | flags-macro/include/flags.h:325-342 | One parameter followed by values is cast from them, and the values are recorded in the setup map unless it already has the name. |
| FlagsMacroProperties.SetupMapKeepsFirstGroup | flags-macro/include/flags.h:314 | An int parameter given twice takes the last group's first value, but the setup map keeps the first group. |
| FlagsMacroProperties.FlushKeeps | flags-macro/include/flags.h:300-317 | A flush keeps the variables' shape, touches only the group's owner, and adds no foreign entry to the setup map. |
| FlagsMacroProperties.StepKeeps | flags-macro/include/flags.h:279-324 | Each token keeps the scan invariant. |
| FlagsMacroProperties.RunKeeps | flags-macro/include/flags.h:279-324 | The whole scan keeps that invariant. |
| FlagsMacroProperties.ParseKeeps | flags-macro/include/flags.h:263-344 | A parse keeps the variables' names and variants, never changes an unmentioned parameter, and records in the setup map only mentioned names. Its outcome is success, the help text, the version line or an invalid-option error. |
| FlagsMacroProperties.Casts | flags-macro/include/flags.h:300-313 | Casting a sequence of groups one after another into a supported variable always succeeds and keeps its type. |
| FlagsMacroProperties.CastsLast | flags-macro/include/flags.h:303-310 | For every supported type except `std::string`, casting several groups in turn gives what casting the last group alone gives. |
| FlagsMacroProperties.GroupsCast | flags-macro/include/flags.h:279-343 | After a successful parse, every variable holds the result of casting, in order, each non-empty group that follows one of its markers. A variable with no such group keeps its value, and for every type except `std::string` the last group alone decides it. The setup map keeps an entry it already had; otherwise it holds the first such group, and has no entry when there is none. |

## Left out

- Float and double variants (`stof`, `stod`, `Float`, `Double`, `FLAGS_DEF_FLOAT*`, `FLAGS_DEF_DOUBLE*`, `DEFINE_DOUBLE*`, the `DOUBLE` branches of `any_asign`): floating-point parsing and printing are not modelled.
- `std::stoi` range errors: integers are unbounded, so `std::out_of_range` is not modelled. An `std::invalid_argument` becomes a "stoi" failure, after the `what()` text most libraries give it.
- `std::unordered_map` iteration order is unspecified. The model iterates in ascending key order wherever the code walks such a map: the required check of `OptionParser`, the required check in v2, and the help-text listings.
- The `std::stringstream >>` reads of the template and macro versions are library behaviour. They are parameters of the model (`Streams`: `readInt`, `readBool`, and `readWord` with the previous word, because the macro reuses one `temp` across tokens). The `stringstream` buffer state itself is not modelled.
- FlagsMacro.Globals.SetupFlags and FlagsMacro.Globals.ReadArguments: when values precede a registered marker other than `help`/`version`, `setup_flags` dereferences a missing map entry, which is undefined behaviour. The model requires `LeadingValuesDefined` instead.
- `std::cout`, `std::exit` and exceptions become `Outcome` values. The `what()` text of `std::unordered_map::at` is a parameter (`atWhat`) of the template model.
- `shared_ptr`/`void*` aliasing and the references the getters return: a registry is a map of values. `AddOption`, `FLAGS_DEF` and `get_arg_value` return the current value, not a handle that later writes through. The `std::any` casts have no counterpart.
- Pre-`main` registration (`PRE_MAIN`, static globals, the global `parser`): registration is an explicit method call on the parser object.
- The `operator<<` printers for options, parsers and arguments (debug output). The help-text layout is modelled, but only the property that it mentions every option is proved.
- The getters `get_argc`, `get_arg_info`, `get_all_args` and `get_arg_desc` (template) and `get_param_setup_value` and `get_param_desc` (macro) are not separate members: they read the `args`, `setupMap` and `descs` fields directly.
- FlagsTemplate.ArgParser.GetArgValue and FlagsTemplate.ArgParser.GetArgDefaultValue: the type argument is a sample value of the wanted variant, and a failed cast or lookup is `None`, not the exception text.
- Flags.AssignAll and FlagsV2.AssignAll: their own contracts only keep the keys. Success, values and failures are stated by the `AssignAll*` lemmas in the `*Properties` modules.
- FlagsMacro.Run: its own contract only keeps the names. What the scan does is stated by `RunKeeps`, `OneOption` and the other `FlagsMacroProperties` lemmas.
- Flags.OptionParser.AddOption and Flags.OptionParser.AddDefaultOption: both require that a name already taken keep the kind of its default value. When the kinds differ, the source's `insert` keeps the old entry and `Boost<ArgumentType>()` (a `dynamic_pointer_cast`) yields a null pointer whose `GetData()` is then called (src/include/flags.hpp:290), which is undefined behaviour.
- Strings are sequences of characters, while `std::string` counts bytes. The length tests (`IsAnOption` in `src`, `isAnOption`'s `str.size() > 3` in v2 at flags-v2/src/include/flags-v2.hpp:536) and the `std::setw` padding of the help tables (src/include/flags.hpp:328-361, flags-v2/src/include/flags-v2.hpp:480-511) count bytes, and `Text.Pad` counts characters. The two agree on ASCII text only; on "--é", for instance, the byte count is 4 and the character count 3.
- `Boost` (`dynamic_cast`) and `GetData` of `Argument`: value access is direct on the `Data` datatype.
