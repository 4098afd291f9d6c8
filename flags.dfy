/**
 * The option parser of `src/include/flags.hpp`: a registry of named options,
 * each holding a default and a current value, a description, a property
 * (optional or required) and an optional assertor; and `SetupFlags`, which
 * reads the command line into the current values.
 *
 * `SetupFlags` is proved against `Setup`, a function of the registry and the
 * command line, and the properties the parser promises are proved about
 * `Setup`.
 */
module Flags {
  import opened Text
  import opened ArgType
  import opened Bucketing
  import opened Outcomes

  datatype OptionProp = Optional | Required

  /** `operator<<` of `OptionProp`. */
  function PropName(p: OptionProp): string
  {
    match p
    case Optional => "Optional"
    case Required => "Required"
  }

  /** The bucket of command-line values that precede every option marker. */
  const DefaultOptionName := "def-opt"

  /** Markers must be longer than this: `IsAnOption` demands more than two characters. */
  const MarkerMinLen := 2

  /** `IsAnOption`: longer than two characters and starting with "--". */
  predicate IsAnOption(str: string)
  {
    IsMarker(str, MarkerMinLen)
  }

  /** What `std::invalid_argument` from `std::stoi` reports. */
  const StoiError := "stoi"

  /** The `FLAGS_THROW_EXCEPTION` message. */
  function LibError(where: string, msg: string): string
  {
    "[ error from 'lib-flags':'" + where + "' ] " + msg + ". (use option '--help' to get more info)"
  }

  /** A check of an option's value after it is assigned: a message when the value is rejected. */
  type Assertor = Data -> Option<string>

  /** The message `AssertOptionValue` throws when the assertor rejects the value. */
  function AssertorMessage(optionName: string, text: string): string
  {
    LibError("AssertOptionValue", "the value(s) for option '--" + optionName + "' is(are) invalid: \"" + text + "\"")
  }

  /** The thrown message names the option and quotes the assertor's text. */
  lemma AssertorMessageNames(optionName: string, text: string)
    ensures Infix("'--" + optionName + "'", AssertorMessage(optionName, text))
    ensures Infix("\"" + text + "\"", AssertorMessage(optionName, text))
  {
    var head := "[ error from 'lib-flags':'" + "AssertOptionValue" + "' ] " + "the value(s) for option ";
    var tail := ". (use option '--help' to get more info)";
    var msg := AssertorMessage(optionName, text);
    var name, quoted := "'--" + optionName + "'", "\"" + text + "\"";
    assert msg == head + name + (" is(are) invalid: " + quoted + tail);
    InfixOf(head, name, " is(are) invalid: " + quoted + tail);
    assert msg == (head + name + " is(are) invalid: ") + quoted + tail;
    InfixOf(head + name + " is(are) invalid: ", quoted, tail);
  }


  // ---------------------------------------------------------------------------
  // Registry entries

  /** `Variable`: the default value and the current value. */
  datatype Variable = Variable(defaultValue: Data, value: Data)

  /** `Variable::Create`: both values start as the given one. */
  function CreateVariable(d: Data): (v: Variable)
    ensures v.defaultValue == d && v.value == d
  {
    Variable(d, d)
  }

  /** `ns_priv::Option`. */
  datatype OptionEntry = OptionEntry(
    optionName: string,
    variable: Variable,
    description: string,
    property: OptionProp,
    assertor: Option<Assertor>)

  /** `Option::AssertOptionValue`: the message it throws, if any. */
  function AssertOptionValue(e: OptionEntry): Option<string>
  {
    match e.assertor
    case None => None
    case Some(f) =>
      match f(e.variable.value)
      case None => None
      case Some(msg) => Some(AssertorMessage(e.optionName, msg))
  }

  /** Only an assertor that rejects the current value makes a message, and the message names the option. */
  lemma AssertOptionValueSpec(e: OptionEntry)
    ensures AssertOptionValue(e).Some? <==> e.assertor.Some? && e.assertor.value(e.variable.value).Some?
    ensures AssertOptionValue(e).Some? ==>
      && AssertOptionValue(e).value == AssertorMessage(e.optionName, e.assertor.value(e.variable.value).value)
      && Infix("'--" + e.optionName + "'", AssertOptionValue(e).value)
  {
    if AssertOptionValue(e).Some? {
      AssertorMessageNames(e.optionName, e.assertor.value(e.variable.value).value);
    }
  }

  /** The registry: `OptionParser` is an `unordered_map` from option names to entries. */
  type Registry = map<string, OptionEntry>

  /** The built-in options are present and hold their own variants. */
  predicate Builtins(m: Registry)
  {
    && "help" in m && "version" in m
    && m["help"].variable.defaultValue.Help? && m["version"].variable.defaultValue.Version?
  }

  /** Holds of every registry the parser can reach: entries filed under their own names, both values of one variant. */
  predicate WellFormed(m: Registry)
  {
    && Builtins(m)
    && forall n | n in m :: m[n].optionName == n && SameKind(m[n].variable.defaultValue, m[n].variable.value)
  }

  // ---------------------------------------------------------------------------
  // Help docs (`AutoGenHelpDocs`), with the option rows in ascending name order

  /** One row: `--name`, property, type name and description in 15-column fields. */
  function HelpRow(name: string, e: OptionEntry): string
  {
    "  --" + Pad(name, 15) + Pad(PropName(e.property), 15) + Pad(TypeNameString(e.variable.defaultValue), 15) + e.description
  }

  /** Whether the loop over the registry writes a row for this key. */
  predicate Listed(key: string)
  {
    key != "help" && key != "version" && key != DefaultOptionName
  }

  /** The rows of the options other than help, version and the default option. */
  function OptionRows(keys: seq<string>, m: Registry): string
    requires forall k | 0 <= k < |keys| :: keys[k] in m
  {
    if |keys| == 0 then ""
    else
      var key := keys[|keys| - 1];
      OptionRows(keys[..|keys| - 1], m) + if Listed(key) then HelpRow(m[key].optionName, m[key]) + "\n" else ""
  }

  /** The loop of `AutoGenHelpDocs` that writes the option rows, one key at a time. */
  method WriteOptionRows(keys: seq<string>, m: Registry) returns (rows: string)
    requires forall k | 0 <= k < |keys| :: keys[k] in m
    ensures rows == OptionRows(keys, m)
  {
    rows := "";
    for i := 0 to |keys|
      invariant rows == OptionRows(keys[..i], m)
    {
      assert keys[..i + 1][..i] == keys[..i];
      var key := keys[i];
      if Listed(key) {
        rows := rows + HelpRow(m[key].optionName, m[key]) + "\n";
      }
    }
    assert keys[..|keys|] == keys;
  }

  /** The usage line and the column headings. */
  function HelpUsage(m: Registry, programName: string): string
  {
    "Usage: " + programName + (if DefaultOptionName in m then " [def-opt argv(s)]" else "") + " [--optName argv(s)] ...\n\n"
      + "    " + Pad("Options", 15) + Pad("Property", 15) + Pad("Type", 15) + "Describes\n"
      + Dashes(62) + "\n"
  }

  /** The default option's row, when there is a default option. */
  function DefaultRow(m: Registry): string
  {
    if DefaultOptionName in m then HelpRow(DefaultOptionName, m[DefaultOptionName]) + "\n\n" else ""
  }

  /** The rows of `help` and `version`, then the closing line. */
  function HelpTail(m: Registry, programName: string): string
    requires Builtins(m)
  {
    "\n" + HelpRow(m["help"].optionName, m["help"]) + "\n" + HelpRow(m["version"].optionName, m["version"])
      + "\n\nhelp docs for program \"" + programName + "\""
  }

  /** The generated help text. */
  ghost function HelpDocs(m: Registry, programName: string): string
    requires Builtins(m)
  {
    HelpUsage(m, programName) + DefaultRow(m) + OptionRows(SortedKeys(m.Keys), m) + HelpTail(m, programName)
  }

  lemma HelpRowMentions(name: string, e: OptionEntry)
    ensures Infix("--" + name, HelpRow(name, e))
  {
    var cell := "  --" + Pad(name, 15);
    assert cell[2..2 + |"--" + name|] == "--" + name;
    assert InfixAt("--" + name, cell, 2);
    InfixLeft("--" + name, cell, Pad(PropName(e.property), 15));
    InfixLeft("--" + name, cell + Pad(PropName(e.property), 15), Pad(TypeNameString(e.variable.defaultValue), 15));
    InfixLeft("--" + name, cell + Pad(PropName(e.property), 15) + Pad(TypeNameString(e.variable.defaultValue), 15), e.description);
  }

  lemma {:induction false} OptionRowsMention(keys: seq<string>, m: Registry, k: nat)
    requires forall j | 0 <= j < |keys| :: keys[j] in m && m[keys[j]].optionName == keys[j]
    requires k < |keys| && Listed(keys[k])
    ensures Infix("--" + keys[k], OptionRows(keys, m))
  {
    var n := |keys| - 1;
    var p := keys[..n];
    var last := if Listed(keys[n]) then HelpRow(m[keys[n]].optionName, m[keys[n]]) + "\n" else "";
    assert OptionRows(keys, m) == OptionRows(p, m) + last;
    if k == n {
      RowLineMentions(keys[k], m[keys[k]]);
      InfixRight("--" + keys[k], OptionRows(p, m), last);
    } else {
      assert p[k] == keys[k];
      OptionRowsMention(p, m, k);
      InfixLeft("--" + keys[k], OptionRows(p, m), last);
    }
  }

  /** A help row with its line break still mentions `--name`. */
  lemma RowLineMentions(name: string, e: OptionEntry)
    ensures Infix("--" + name, HelpRow(name, e) + "\n")
  {
    HelpRowMentions(name, e);
    InfixLeft("--" + name, HelpRow(name, e), "\n");
  }

  lemma TailMentionsBuiltins(m: Registry, programName: string, name: string)
    requires WellFormed(m) && (name == "help" || name == "version")
    ensures Infix("--" + name, HelpTail(m, programName))
  {
    var help, version := HelpRow(m["help"].optionName, m["help"]), HelpRow(m["version"].optionName, m["version"]);
    HelpRowMentions(m[name].optionName, m[name]);
    if name == "help" {
      InfixRight("--" + name, "\n", help);
      InfixLeft("--" + name, "\n" + help, "\n");
      InfixLeft("--" + name, "\n" + help + "\n", version);
    } else {
      InfixRight("--" + name, "\n" + help + "\n", version);
    }
    var rows := "\n" + help + "\n" + version;
    InfixLeft("--" + name, rows, "\n\nhelp docs for program \"");
    InfixLeft("--" + name, rows + "\n\nhelp docs for program \"", programName);
    InfixLeft("--" + name, rows + "\n\nhelp docs for program \"" + programName, "\"");
  }

  /** The generated help text mentions `--name` for every registered option. */
  lemma HelpDocsMentions(m: Registry, programName: string, name: string)
    requires WellFormed(m) && name in m
    ensures Infix("--" + name, HelpDocs(m, programName))
  {
    var usage, def, tail := HelpUsage(m, programName), DefaultRow(m), HelpTail(m, programName);
    var keys := SortedKeys(m.Keys);
    var rows := OptionRows(keys, m);
    if name == DefaultOptionName {
      HelpRowMentions(name, m[name]);
      InfixLeft("--" + name, HelpRow(name, m[name]), "\n\n");
      InfixRight("--" + name, usage, def);
      InfixLeft("--" + name, usage + def, rows);
    } else if name == "help" || name == "version" {
      TailMentionsBuiltins(m, programName, name);
      InfixRight("--" + name, usage + def + rows, tail);
      return;
    } else {
      var k :| 0 <= k < |keys| && keys[k] == name;
      OptionRowsMention(keys, m, k);
      InfixRight("--" + name, usage + def, rows);
    }
    InfixLeft("--" + name, usage + def + rows, tail);
  }

  // ---------------------------------------------------------------------------
  // `SetupFlags` as a function of the registry

  /** `DataFromStringVector({text})` on an entry's default value. */
  function SetDefault(m: Registry, name: string, text: string): Registry
    requires name in m
  {
    var e := m[name];
    m[name := e.(variable := e.variable.(defaultValue := Assign(e.variable.defaultValue, [text]).data))]
  }

  /** Storing a text in a built-in option replaces that option's text and nothing else. */
  lemma SetDefaultText(m: Registry, name: string, text: string)
    requires WellFormed(m) && (name == "help" || name == "version")
    ensures WellFormed(SetDefault(m, name, text)) && SetDefault(m, name, text).Keys == m.Keys
    ensures SetDefault(m, name, text)[name].variable.defaultValue == if name == "help" then Help(text) else Version(text)
    ensures SetDefault(m, name, text)[name] == m[name].(variable := m[name].variable.(defaultValue := SetDefault(m, name, text)[name].variable.defaultValue))
    ensures forall n | n in m && n != name :: SetDefault(m, name, text)[n] == m[n]
  {
    AssignKeepsKind(m[name].variable.defaultValue, [text]);
  }

  /** The registry after `AutoGenVersion`, when it is due. */
  function AutoVersioned(m: Registry, autoVersion: bool): Registry
    requires "version" in m
  {
    if autoVersion then SetDefault(m, "version", "1.0.0") else m
  }

  /** The registry after the auto-generation steps `SetupFlags` starts with. */
  ghost function Prepare(m: Registry, autoHelp: bool, autoVersion: bool, programName: string): (r: Registry)
    requires WellFormed(m)
    ensures WellFormed(r) && r.Keys == m.Keys
  {
    SetDefaultText(m, "version", "1.0.0");
    var m1 := AutoVersioned(m, autoVersion);
    SetDefaultText(m1, "help", HelpDocs(m1, programName));
    if autoHelp then SetDefault(m1, "help", HelpDocs(m1, programName)) else m1
  }

  /** The buckets after the scan, the default bucket dropped when no default option is registered. */
  function Buckets(m: Registry, toks: seq<string>): map<string, seq<string>>
  {
    KeptBuckets(toks, MarkerMinLen, DefaultOptionName, m.Keys)
  }

  /** A required option must have a bucket holding at least one value. */
  predicate Satisfied(e: OptionEntry, bucket: Option<seq<string>>)
  {
    e.property == Optional || (bucket.Some? && bucket.value != [])
  }

  function BucketAt(b: map<string, seq<string>>, name: string): Option<seq<string>>
  {
    if name in b then Some(b[name]) else None
  }

  function RequiredMessage(name: string, bucket: Option<seq<string>>): string
  {
    if bucket.None? then
      if name == DefaultOptionName then
        LibError("SetupFlags", "the default option is 'OptionProp::REQUIRED', but you didn't pass it")
      else
        LibError("SetupFlags", "the option named '--" + name + "' is 'OptionProp::REQUIRED', but you didn't use it")
    else
      LibError("SetupFlags", "the option named '--" + name + "' is 'OptionProp::REQUIRED', you should pass some arguments to it")
  }

  /** The required check, over the options in `keys` order: the first complaint. */
  function RequiredCheck(keys: seq<string>, m: Registry, b: map<string, seq<string>>): Option<string>
    requires forall k | 0 <= k < |keys| :: keys[k] in m
  {
    if |keys| == 0 then None
    else if !Satisfied(m[keys[0]], BucketAt(b, keys[0])) then Some(RequiredMessage(keys[0], BucketAt(b, keys[0])))
    else RequiredCheck(keys[1..], m, b)
  }

  /** The check passes exactly when every option in `keys` is satisfied. */
  lemma {:induction false} RequiredCheckPasses(keys: seq<string>, m: Registry, b: map<string, seq<string>>)
    requires forall k | 0 <= k < |keys| :: keys[k] in m
    ensures RequiredCheck(keys, m, b).None? <==> forall k | 0 <= k < |keys| :: Satisfied(m[keys[k]], BucketAt(b, keys[k]))
  {
    if |keys| > 0 {
      RequiredCheckPasses(keys[1..], m, b);
      assert forall k | 1 <= k < |keys| :: keys[k] == keys[1..][k - 1];
    }
  }

  /** A complaint is the message for some option in `keys` that is not satisfied. */
  lemma {:induction false} RequiredCheckNames(keys: seq<string>, m: Registry, b: map<string, seq<string>>)
    requires forall k | 0 <= k < |keys| :: keys[k] in m
    requires RequiredCheck(keys, m, b).Some?
    ensures exists k | 0 <= k < |keys| ::
      !Satisfied(m[keys[k]], BucketAt(b, keys[k])) && RequiredCheck(keys, m, b).value == RequiredMessage(keys[k], BucketAt(b, keys[k]))
  {
    if Satisfied(m[keys[0]], BucketAt(b, keys[0])) {
      RequiredCheckNames(keys[1..], m, b);
      var k :| 0 <= k < |keys[1..]| && !Satisfied(m[keys[1..][k]], BucketAt(b, keys[1..][k]))
        && RequiredCheck(keys[1..], m, b).value == RequiredMessage(keys[1..][k], BucketAt(b, keys[1..][k]));
      assert keys[1..][k] == keys[k + 1];
    }
  }

  /** `DataFromStringVector(bucket)` on an entry's current value. */
  function AssignedEntry(e: OptionEntry, bucket: seq<string>): OptionEntry
  {
    e.(variable := e.variable.(value := Assign(e.variable.value, bucket).data))
  }

  /** How assigning a bucket to an entry and then asserting its value ends. */
  function EntryOutcome(e: OptionEntry, bucket: seq<string>): Outcome
  {
    if Assign(e.variable.value, bucket).threw then Failure(StoiError)
    else match AssertOptionValue(AssignedEntry(e, bucket))
      case Some(msg) => Failure(msg)
      case None => Success
  }

  /** The assign-then-assert loop over `names`, stopping at the first failure. */
  function AssignAll(names: seq<string>, b: map<string, seq<string>>, m: Registry): (r: (Outcome, Registry))
    requires forall k | 0 <= k < |names| :: names[k] in b && names[k] in m
    ensures r.1.Keys == m.Keys
  {
    if |names| == 0 then (Success, m)
    else
      var p := AssignAll(names[..|names| - 1], b, m);
      var name := names[|names| - 1];
      if !p.0.Success? then p
      else (EntryOutcome(p.1[name], b[name]), p.1[name := AssignedEntry(p.1[name], b[name])])
  }

  /** Once the loop has failed, the later names change nothing. */
  lemma {:induction false} AssignAllStops(names: seq<string>, j: nat, b: map<string, seq<string>>, m: Registry)
    requires forall k | 0 <= k < |names| :: names[k] in b && names[k] in m
    requires j <= |names| && !AssignAll(names[..j], b, m).0.Success?
    ensures AssignAll(names, b, m) == AssignAll(names[..j], b, m)
    decreases |names|
  {
    if j < |names| {
      var n := |names| - 1;
      assert names[..n][..j] == names[..j];
      AssignAllStops(names[..n], j, b, m);
    } else {
      assert names[..j] == names;
    }
  }

  /** One more turn of the loop, while it has not failed. */
  lemma AssignAllStep(names: seq<string>, i: nat, b: map<string, seq<string>>, m: Registry)
    requires forall k | 0 <= k < |names| :: names[k] in b && names[k] in m
    requires i < |names| && AssignAll(names[..i], b, m).0.Success?
    ensures var p := AssignAll(names[..i], b, m);
      AssignAll(names[..i + 1], b, m) == (EntryOutcome(p.1[names[i]], b[names[i]]), p.1[names[i] := AssignedEntry(p.1[names[i]], b[names[i]])])
  {
    assert names[..i + 1][..i] == names[..i];
  }

  /** Assigning a bucket keeps the registry well formed. */
  lemma AssignedWellFormed(m: Registry, name: string, bucket: seq<string>)
    requires WellFormed(m) && name in m
    ensures WellFormed(m[name := AssignedEntry(m[name], bucket)])
  {
    var e := m[name];
    var e' := AssignedEntry(e, bucket);
    AssignKeepsKind(e.variable.value, bucket);
    SameKindShared(e.variable.defaultValue, e.variable.value, e'.variable.value);
    var m' := m[name := e'];
    assert Builtins(m');
  }

  /** The message `SetupFlags` throws for `--version`. */
  function VersionMessage(programName: string, m: Registry): string
    requires "version" in m
  {
    programName + ": ['version': '" + ValueString(m["version"].variable.defaultValue) + "']"
  }

  /** The message for a marker that names no registered option. */
  function UnknownMessage(name: string): string
  {
    LibError("SetupFlags", "there isn't option named '--" + name + "'")
  }

  /** Everything after the auto-generation steps. */
  ghost function Parse(m: Registry, argv: seq<string>): (r: (Outcome, Registry))
    requires Builtins(m) && |argv| >= 1
  {
    var toks := argv[1..];
    match FirstStop(toks, MarkerMinLen)
    case Some(name) =>
      if name == "help" then (EarlyExit(ValueString(m["help"].variable.defaultValue)), m)
      else (EarlyExit(VersionMessage(argv[0], m)), m)
    case None =>
      var st := Scan(toks, MarkerMinLen, DefaultOptionName);
      match FirstUnknown(st.optNames, m.Keys)
      case Some(name) => (Failure(UnknownMessage(name)), m)
      case None =>
        var b := Buckets(m, toks);
        KeptBucketsKnown(toks, MarkerMinLen, DefaultOptionName, m.Keys);
        match RequiredCheck(SortedKeys(m.Keys), m, b)
        case Some(msg) => (Failure(msg), m)
        case None => AssignAll(SortedKeys(b.Keys), b, m)
  }

  /** `SetupFlags`: the outcome and the registry afterwards. */
  ghost function Setup(m: Registry, autoHelp: bool, autoVersion: bool, argv: seq<string>): (Outcome, Registry)
    requires WellFormed(m) && |argv| >= 1
  {
    Parse(Prepare(m, autoHelp, autoVersion, argv[0]), argv)
  }

  // ---------------------------------------------------------------------------
  // The parser object

  /** `OptionParser`: the registry and the two auto-generation flags. */
  class OptionParser {
    var options: Registry
    var autoGenHelpDocs: bool
    var autoGenVersion: bool

    ghost predicate Valid()
      reads this
    {
      WellFormed(options)
    }

    /** Registers `version` and `help`, both optional and without an assertor; auto-generation on. */
    constructor ()
      ensures Valid()
      ensures autoGenHelpDocs && autoGenVersion
      ensures options == map[
        "version" := OptionEntry("version", Variable(Version(""), Version("")), "display the version of this program", Optional, None),
        "help" := OptionEntry("help", Variable(Help(""), Help("")), "display the help docs", Optional, None)]
    {
      autoGenHelpDocs, autoGenVersion := true, true;
      var versionOption := OptionEntry("version", CreateVariable(Version("")), "display the version of this program", Optional, None);
      var helpOption := OptionEntry("help", CreateVariable(Help("")), "display the help docs", Optional, None);
      options := map[versionOption.optionName := versionOption][helpOption.optionName := helpOption];
    }

    /** Stores the version text and turns version auto-generation off for good. */
    method SetVersion(version: string)
      requires Valid()
      modifies this
      ensures Valid() && options == SetDefault(old(options), "version", version)
      ensures options["version"].variable.defaultValue == Version(version)
      ensures !autoGenVersion && autoGenHelpDocs == old(autoGenHelpDocs)
    {
      SetDefaultText(options, "version", version);
      options := SetDefault(options, "version", version);
      autoGenVersion := false;
    }

    /** Stores the help text and turns help auto-generation off for good. */
    method SetHelp(help: string)
      requires Valid()
      modifies this
      ensures Valid() && options == SetDefault(old(options), "help", help)
      ensures options["help"].variable.defaultValue == Help(help)
      ensures !autoGenHelpDocs && autoGenVersion == old(autoGenVersion)
    {
      SetDefaultText(options, "help", help);
      options := SetDefault(options, "help", help);
      autoGenHelpDocs := false;
    }

    /** `AutoGenVersion`: the version text becomes "1.0.0". */
    method AutoGenVersion()
      requires Valid()
      modifies this`options
      ensures Valid() && options == SetDefault(old(options), "version", "1.0.0")
      ensures options["version"].variable.defaultValue == Version("1.0.0")
    {
      SetDefaultText(options, "version", "1.0.0");
      options := SetDefault(options, "version", "1.0.0");
    }

    /** `AutoGenHelpDocs`: writes the help docs for `programName` and stores them as the help text. */
    method AutoGenHelpDocs(programName: string)
      requires Valid()
      modifies this`options
      ensures Valid() && options == SetDefault(old(options), "help", HelpDocs(old(options), programName))
      ensures options["help"].variable.defaultValue == Help(HelpDocs(old(options), programName))
    {
      var keys := SortKeys(options.Keys);
      var rows := WriteOptionRows(keys, options);
      var docs := HelpUsage(options, programName) + DefaultRow(options) + rows + HelpTail(options, programName);
      SetDefaultText(options, "help", docs);
      options := SetDefault(options, "help", docs);
    }

    /** `IsValidOption`: the name is registered. */
    predicate IsValidOption(str: string)
      reads this
    {
      str in options
    }

    /**
     * `AddOption`: inserts a new entry unless the name is taken (the map's
     * `insert` keeps the old entry), and returns the option's current value.
     */
    method AddOption(optionName: string, defaultValue: Data, description: string, property: OptionProp,
                     assertor: Option<Assertor>) returns (value: Data)
      requires Valid()
      requires optionName in options ==> SameKind(options[optionName].variable.value, defaultValue)
      modifies this`options
      ensures Valid()
      ensures options == if optionName in old(options) then old(options)
        else old(options)[optionName := OptionEntry(optionName, Variable(defaultValue, defaultValue), description, property, assertor)]
      ensures value == options[optionName].variable.value && SameKind(value, defaultValue)
    {
      var option := OptionEntry(optionName, CreateVariable(defaultValue), description, property, assertor);
      if optionName !in options {
        options := options[optionName := option];
      }
      value := options[optionName].variable.value;
    }

    /** `AddDefaultOption`: `AddOption` under the default option's name. */
    method AddDefaultOption(defaultValue: Data, description: string, property: OptionProp,
                            assertor: Option<Assertor>) returns (value: Data)
      requires Valid()
      requires DefaultOptionName in options ==> SameKind(options[DefaultOptionName].variable.value, defaultValue)
      modifies this`options
      ensures Valid()
      ensures options == if DefaultOptionName in old(options) then old(options)
        else old(options)[DefaultOptionName := OptionEntry(DefaultOptionName, Variable(defaultValue, defaultValue), description, property, assertor)]
      ensures value == options[DefaultOptionName].variable.value && SameKind(value, defaultValue)
    {
      value := AddOption(DefaultOptionName, defaultValue, description, property, assertor);
    }

    /** The loop of `SetupFlags` that rejects the first marker naming no registered option. */
    method CheckOptionNames(optNames: seq<string>) returns (unknown: Option<string>)
      ensures unknown == FirstUnknown(optNames, options.Keys)
    {
      for i := 0 to |optNames|
        invariant FirstUnknown(optNames[i..], options.Keys) == FirstUnknown(optNames, options.Keys)
      {
        assert optNames[i..][1..] == optNames[i + 1..];
        if !IsValidOption(optNames[i]) {
          return Some(optNames[i]);
        }
      }
      return None;
    }

    /** The loop of `SetupFlags` over the registry that checks the required options. */
    method CheckRequired(inputArgs: map<string, seq<string>>) returns (message: Option<string>)
      ensures message == RequiredCheck(SortedKeys(options.Keys), options, inputArgs)
    {
      var keys := SortKeys(options.Keys);
      for i := 0 to |keys|
        invariant RequiredCheck(keys[i..], options, inputArgs) == RequiredCheck(keys, options, inputArgs)
      {
        assert keys[i..][1..] == keys[i + 1..];
        var optName := keys[i];
        if options[optName].property == Optional {
          continue;
        }
        if optName !in inputArgs || inputArgs[optName] == [] {
          return Some(RequiredMessage(optName, BucketAt(inputArgs, optName)));
        }
      }
      return None;
    }

    /** The last loop of `SetupFlags`: assign each bucket, then run the option's assertor. */
    method AssignAndAssert(inputArgs: map<string, seq<string>>) returns (outcome: Outcome)
      requires Valid()
      requires forall name | name in inputArgs :: name in options
      modifies this`options
      ensures Valid()
      ensures (outcome, options) == AssignAll(SortedKeys(inputArgs.Keys), inputArgs, old(options))
    {
      ghost var m0 := options;
      var names := SortKeys(inputArgs.Keys);
      for i := 0 to |names|
        invariant Valid()
        invariant AssignAll(names[..i], inputArgs, m0) == (Success, options)
      {
        var optName := names[i];
        AssignAllStep(names, i, inputArgs, m0);
        AssignedWellFormed(options, optName, inputArgs[optName]);
        var result := Assign(options[optName].variable.value, inputArgs[optName]);
        options := options[optName := AssignedEntry(options[optName], inputArgs[optName])];
        if result.threw {
          AssignAllStops(names, i + 1, inputArgs, m0);
          return Failure(StoiError);
        }
        var msg := AssertOptionValue(options[optName]);
        if msg.Some? {
          AssignAllStops(names, i + 1, inputArgs, m0);
          return Failure(msg.value);
        }
      }
      assert names[..|names|] == names;
      return Success;
    }

    /**
     * `SetupFlags`: generates the version and help texts if still due, then
     * reads the command line.
     */
    method SetupFlags(argv: seq<string>) returns (outcome: Outcome)
      requires Valid() && |argv| >= 1
      modifies this`options
      ensures Valid()
      ensures (outcome, options) == Setup(old(options), autoGenHelpDocs, autoGenVersion, argv)
    {
      if autoGenVersion {
        AutoGenVersion();
      }
      if autoGenHelpDocs {
        AutoGenHelpDocs(argv[0]);
      }
      assert options == Prepare(old(options), autoGenHelpDocs, autoGenVersion, argv[0]);
      outcome := ReadArguments(argv);
    }

    /**
     * The rest of `SetupFlags`: scans `argv`, checks the option names and
     * the required options, and assigns and asserts the current values.
     */
    method ReadArguments(argv: seq<string>) returns (outcome: Outcome)
      requires Valid() && |argv| >= 1
      modifies this`options
      ensures Valid()
      ensures (outcome, options) == Parse(old(options), argv)
    {
      var toks := argv[1..];
      var stopped, st := ScanArgv(toks, MarkerMinLen, DefaultOptionName);
      if stopped.Some? {
        if stopped.value == "help" {
          return EarlyExit(ValueString(options["help"].variable.defaultValue));
        }
        return EarlyExit(VersionMessage(argv[0], options));
      }
      var inputArgs := st.buckets;
      if DefaultOptionName !in options && DefaultOptionName in inputArgs {
        inputArgs := inputArgs - {DefaultOptionName};
      }
      var unknown := CheckOptionNames(st.optNames);
      if unknown.Some? {
        return Failure(UnknownMessage(unknown.value));
      }
      KeptBucketsKnown(toks, MarkerMinLen, DefaultOptionName, options.Keys);
      var message := CheckRequired(inputArgs);
      if message.Some? {
        return Failure(message.value);
      }
      outcome := AssignAndAssert(inputArgs);
    }
  }
}
