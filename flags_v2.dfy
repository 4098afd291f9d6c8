/**
 * `flags-v2/src/include/flags-v2.hpp`: one table of options keyed by name.
 * Each entry keeps a copy of the default and writes the parsed value into
 * the program's variable. A marker is longer than three characters, values
 * before the first marker go to the `__NOPT__` bucket, and a required
 * option only has to appear on the line.
 *
 * `Parser.SetupFlags` is proved against `Setup`, a function of the table
 * and the command line. Its properties are proved in `FlagsV2Properties`.
 */
module FlagsV2 {
  import opened Text
  import opened ArgType
  import opened Bucketing
  import opened Outcomes
  import Flags

  /** The name of the option that takes the values before the first marker. */
  const NoOptName := "__NOPT__"

  /** A marker is a token longer than this that starts with "--". */
  const MarkerMinLen := 3

  /** The text of `THROW_EXCEPTION`. */
  function LibError(where: string, msg: string): string
  {
    "[ error from 'libflags'-'" + where + "' ] " + msg
  }

  /** `operator<<` of `ArgType`, for the variants this model keeps. */
  function KindName(d: Data): string
  {
    match d
    case Int(_) => "INT"
    case IntVec(_) => "INT_VEC"
    case Bool(_) => "BOOL"
    case BoolVec(_) => "BOOL_VEC"
    case String(_) => "STRING"
    case StringVec(_) => "STRING_VEC"
    case Help(_) => "HELP"
    case Version(_) => "VERSION"
  }

  /**
   * `toBool`: "on", "1" and "true" in any case are true; "off", "0" and
   * "false" are false; the empty string is true; anything else is
   * `std::stoi(str) != 0`, and `None` where `std::stoi` throws.
   */
  function ToBool(str: string): Option<bool>
  {
    var val := Lower(str);
    if val == "on" || val == "1" || val == "true" then Some(true)
    else if val == "off" || val == "0" || val == "false" then Some(false)
    else if val == "" then Some(true)
    else match Stoi(str)
      case Some(n) => Some(n != 0)
      case None => None
  }

  /** `isAnOption`: longer than three characters and starting with "--". */
  predicate IsAnOption(str: string)
  {
    IsMarker(str, MarkerMinLen)
  }

  // ---------------------------------------------------------------------------
  // The option table

  /**
   * `Option`: `_varDefault` is `defaultValue` and `*_var` is `value`.
   * `help` and `version` have no variable, so the model keeps their text
   * in both fields and never assigns them.
   */
  datatype OptionV2 = OptionV2(
    optName: string,
    varName: string,
    defaultValue: Data,
    value: Data,
    desc: string,
    prop: Flags.OptionProp)

  type Table = map<string, OptionV2>

  /** `help` and `version` are present and hold their own variants. */
  predicate Builtins(t: Table)
  {
    && "help" in t && "version" in t
    && t["help"].defaultValue.Help? && t["version"].defaultValue.Version?
  }

  /** Every entry is filed under its own name, and its value has the default's variant. */
  predicate WellFormed(t: Table)
  {
    && Builtins(t)
    && forall n | n in t :: t[n].optName == n && SameKind(t[n].defaultValue, t[n].value)
  }

  // ---------------------------------------------------------------------------
  // Help docs (`autoGenHelpDocs`), with the option rows in ascending name order

  /** One row: `--name`, property, type name and description in 15-column fields. */
  function HelpRow(name: string, o: OptionV2): string
  {
    "  --" + Pad(name, 15) + Pad(Flags.PropName(o.prop), 15) + Pad(KindName(o.defaultValue), 15) + o.desc
  }

  /** Whether the loop over the table writes a row for this key. */
  predicate Listed(key: string)
  {
    key != "help" && key != "version" && key != NoOptName
  }

  /** The rows of the options other than help, version and `__NOPT__`. */
  function OptionRows(keys: seq<string>, t: Table): string
    requires forall k | 0 <= k < |keys| :: keys[k] in t
  {
    if |keys| == 0 then ""
    else
      var key := keys[|keys| - 1];
      OptionRows(keys[..|keys| - 1], t) + if Listed(key) then HelpRow(t[key].optName, t[key]) + "\n" else ""
  }

  /** The loop of `autoGenHelpDocs` that writes the option rows, one key at a time. */
  method WriteOptionRows(keys: seq<string>, t: Table) returns (rows: string)
    requires forall k | 0 <= k < |keys| :: keys[k] in t
    ensures rows == OptionRows(keys, t)
  {
    rows := "";
    for i := 0 to |keys|
      invariant rows == OptionRows(keys[..i], t)
    {
      assert keys[..i + 1][..i] == keys[..i];
      var key := keys[i];
      if Listed(key) {
        rows := rows + HelpRow(t[key].optName, t[key]) + "\n";
      }
    }
    assert keys[..|keys|] == keys;
  }

  /** The usage line and the column headings. */
  function HelpUsage(t: Table, programName: string): string
  {
    "Usage: " + programName + (if NoOptName in t then " [no-opt argv(s)]" else "") + " [--optName argv(s)] ...\n\n"
      + "    " + Pad("Options", 15) + Pad("Property", 15) + Pad("Type", 15) + "Describes\n"
      + Dashes(62) + "\n"
  }

  /** The row of the `__NOPT__` option, shown as `--no-opt`. */
  function NoOptRow(t: Table): string
  {
    if NoOptName in t then HelpRow("no-opt", t[NoOptName]) + "\n\n" else ""
  }

  /** The rows of `help` and `version`, then the closing line. */
  function HelpTail(t: Table, programName: string): string
    requires Builtins(t)
  {
    "\n" + HelpRow(t["help"].optName, t["help"]) + "\n" + HelpRow(t["version"].optName, t["version"])
      + "\n\nhelp docs for program \"" + programName + "\""
  }

  /** The generated help text. */
  ghost function HelpDocs(t: Table, programName: string): string
    requires Builtins(t)
  {
    HelpUsage(t, programName) + NoOptRow(t) + OptionRows(SortedKeys(t.Keys), t) + HelpTail(t, programName)
  }

  lemma HelpRowMentions(name: string, o: OptionV2)
    ensures Infix("--" + name, HelpRow(name, o))
  {
    var cell := "  --" + Pad(name, 15);
    assert cell[2..2 + |"--" + name|] == "--" + name;
    assert InfixAt("--" + name, cell, 2);
    InfixLeft("--" + name, cell, Pad(Flags.PropName(o.prop), 15));
    InfixLeft("--" + name, cell + Pad(Flags.PropName(o.prop), 15), Pad(KindName(o.defaultValue), 15));
    InfixLeft("--" + name, cell + Pad(Flags.PropName(o.prop), 15) + Pad(KindName(o.defaultValue), 15), o.desc);
  }

  lemma {:induction false} OptionRowsMention(keys: seq<string>, t: Table, k: nat)
    requires forall j | 0 <= j < |keys| :: keys[j] in t && t[keys[j]].optName == keys[j]
    requires k < |keys| && Listed(keys[k])
    ensures Infix("--" + keys[k], OptionRows(keys, t))
  {
    var n := |keys| - 1;
    var p := keys[..n];
    var last := if Listed(keys[n]) then HelpRow(t[keys[n]].optName, t[keys[n]]) + "\n" else "";
    assert OptionRows(keys, t) == OptionRows(p, t) + last;
    if k == n {
      HelpRowMentions(keys[k], t[keys[k]]);
      InfixLeft("--" + keys[k], HelpRow(keys[k], t[keys[k]]), "\n");
      InfixRight("--" + keys[k], OptionRows(p, t), last);
    } else {
      assert p[k] == keys[k];
      OptionRowsMention(p, t, k);
      InfixLeft("--" + keys[k], OptionRows(p, t), last);
    }
  }

  lemma TailMentionsBuiltins(t: Table, programName: string, name: string)
    requires WellFormed(t) && (name == "help" || name == "version")
    ensures Infix("--" + name, HelpTail(t, programName))
  {
    var help, version := HelpRow(t["help"].optName, t["help"]), HelpRow(t["version"].optName, t["version"]);
    HelpRowMentions(t[name].optName, t[name]);
    if name == "help" {
      InfixRight("--" + name, "\n", help);
      InfixLeft("--" + name, "\n" + help, "\n");
      InfixLeft("--" + name, "\n" + help + "\n", version);
    } else {
      InfixRight("--" + name, "\n" + help + "\n", version);
    }
    var rows := "\n" + help + "\n" + version;
    InfixLeft("--" + name, rows, "\n\nhelp docs for program \"");
    InfixLeft("--" + name, rows + "\n\nhelp docs for program \"", programName);
    InfixLeft("--" + name, rows + "\n\nhelp docs for program \"" + programName, "\"");
  }

  /** The generated help text mentions `--name` for every registered option but `__NOPT__`. */
  lemma HelpDocsMentions(t: Table, programName: string, name: string)
    requires WellFormed(t) && name in t && name != NoOptName
    ensures Infix("--" + name, HelpDocs(t, programName))
  {
    var usage, nopt, tail := HelpUsage(t, programName), NoOptRow(t), HelpTail(t, programName);
    var keys := SortedKeys(t.Keys);
    var rows := OptionRows(keys, t);
    if name == "help" || name == "version" {
      TailMentionsBuiltins(t, programName, name);
      InfixRight("--" + name, usage + nopt + rows, tail);
    } else {
      var k :| 0 <= k < |keys| && keys[k] == name;
      OptionRowsMention(keys, t, k);
      InfixRight("--" + name, usage + nopt, rows);
      InfixLeft("--" + name, usage + nopt + rows, tail);
    }
  }

  /** The `__NOPT__` option, when registered, is shown as `--no-opt`. */
  lemma HelpDocsMentionsNoOpt(t: Table, programName: string)
    requires WellFormed(t) && NoOptName in t
    ensures Infix("--no-opt", HelpDocs(t, programName))
  {
    var usage, nopt := HelpUsage(t, programName), NoOptRow(t);
    var rows := OptionRows(SortedKeys(t.Keys), t);
    var row := HelpRow("no-opt", t[NoOptName]);
    var sub := "--" + "no-opt";
    assert sub == "--no-opt";
    HelpRowMentions("no-opt", t[NoOptName]);
    assert nopt == row + "\n\n";
    InfixLeft(sub, row, "\n\n");
    InfixRight(sub, usage, nopt);
    InfixLeft(sub, usage + nopt, rows);
    InfixLeft(sub, usage + nopt + rows, HelpTail(t, programName));
  }

  // ---------------------------------------------------------------------------
  // `setupFlags` as a function of the table

  /** Stores `text` as the default of `help` or `version`. */
  function SetText(t: Table, name: string, text: string): (r: Table)
    requires WellFormed(t) && (name == "help" || name == "version")
    ensures WellFormed(r) && r.Keys == t.Keys
    ensures r[name].defaultValue == if name == "help" then Help(text) else Version(text)
    ensures forall n | n in t && n != name :: r[n] == t[n]
  {
    t[name := t[name].(defaultValue := if name == "help" then Help(text) else Version(text))]
  }

  /** The table after the auto-generation steps `setupFlags` starts with. */
  ghost function Prepare(t: Table, autoHelp: bool, autoVersion: bool, programName: string): (r: Table)
    requires WellFormed(t)
    ensures WellFormed(r) && r.Keys == t.Keys
  {
    var t1 := if autoVersion then SetText(t, "version", "1.0.0") else t;
    if autoHelp then SetText(t1, "help", HelpDocs(t1, programName)) else t1
  }

  /** The buckets after the scan, the `__NOPT__` bucket dropped when no such option is registered. */
  function Buckets(t: Table, toks: seq<string>): map<string, seq<string>>
  {
    KeptBuckets(toks, MarkerMinLen, NoOptName, t.Keys)
  }

  /** The first option in `keys` order that is required but has no bucket at all. */
  function MissingRequired(keys: seq<string>, t: Table, b: map<string, seq<string>>): Option<string>
    requires forall k | 0 <= k < |keys| :: keys[k] in t
  {
    if |keys| == 0 then None
    else if t[keys[0]].prop == Flags.Required && keys[0] !in b then Some(keys[0])
    else MissingRequired(keys[1..], t, b)
  }

  /**
   * No complaint exactly when every required option in `keys` has a bucket,
   * even an empty one; a complaint names a required option without one.
   */
  lemma {:induction false} MissingRequiredSpec(keys: seq<string>, t: Table, b: map<string, seq<string>>)
    requires forall k | 0 <= k < |keys| :: keys[k] in t
    ensures MissingRequired(keys, t, b).None? <==>
      forall k | 0 <= k < |keys| :: t[keys[k]].prop == Flags.Required ==> keys[k] in b
    ensures MissingRequired(keys, t, b).Some? ==>
      var n := MissingRequired(keys, t, b).value;
      n in keys && t[n].prop == Flags.Required && n !in b
  {
    if |keys| > 0 {
      MissingRequiredSpec(keys[1..], t, b);
      assert forall k | 1 <= k < |keys| :: keys[k] == keys[1..][k - 1];
      if MissingRequired(keys[1..], t, b).Some? {
        assert MissingRequired(keys[1..], t, b).value in keys[1..];
      }
    }
  }

  function MissingMessage(name: string): string
  {
    LibError("setupFlags", "the option named '--" + name + "' is 'OptionProp::REQUIRED', but you didn't use it")
  }

  function UnknownMessage(name: string): string
  {
    LibError("setupFlags", "there isn't option named '--" + name + "'")
  }

  /** The message `setupFlags` throws for `--version`. */
  function VersionMessage(programName: string, t: Table): string
    requires Builtins(t)
  {
    programName + ": ['version': '" + t["version"].defaultValue.text + "']"
  }

  /**
   * One case of the assignment `switch`: the variable afterwards, and
   * whether `std::stoi` threw. An empty bucket leaves the variable alone,
   * except that a `bool` becomes true. A scalar takes the first token. A
   * vector is cleared and then gets one element per token. `help` and
   * `version` are skipped.
   */
  function AssignV2(d: Data, bucket: seq<string>): Assigned
  {
    match d
    case Int(_) =>
      if bucket == [] then Assigned(d, false)
      else (match Stoi(bucket[0])
        case Some(n) => Assigned(Int(n), false)
        case None => Assigned(d, true))
    case IntVec(_) =>
      if bucket == [] then Assigned(d, false)
      else var r := PushAll(bucket, Stoi); Assigned(IntVec(r.elems), r.threw)
    case Bool(_) =>
      if bucket == [] then Assigned(Bool(true), false)
      else (match ToBool(bucket[0])
        case Some(b) => Assigned(Bool(b), false)
        case None => Assigned(d, true))
    case BoolVec(_) =>
      if bucket == [] then Assigned(d, false)
      else var r := PushAll(bucket, ToBool); Assigned(BoolVec(r.elems), r.threw)
    case String(_) =>
      if bucket == [] then Assigned(d, false) else Assigned(String(bucket[0]), false)
    case StringVec(_) =>
      if bucket == [] then Assigned(d, false) else Assigned(StringVec(bucket), false)
    case Help(_) => Assigned(d, false)
    case Version(_) => Assigned(d, false)
  }

  /** Assignment keeps the variant. */
  lemma AssignV2KeepsKind(d: Data, bucket: seq<string>)
    ensures SameKind(AssignV2(d, bucket).data, d)
  {
  }

  /** The entry after its bucket has been assigned. */
  function AssignedOption(o: OptionV2, bucket: seq<string>): OptionV2
  {
    o.(value := AssignV2(o.value, bucket).data)
  }

  /** Assigning a bucket keeps the table well formed. */
  lemma AssignedWellFormed(t: Table, name: string, bucket: seq<string>)
    requires WellFormed(t) && name in t
    ensures WellFormed(t[name := AssignedOption(t[name], bucket)])
  {
    var o := t[name];
    var o' := AssignedOption(o, bucket);
    AssignV2KeepsKind(o.value, bucket);
    SameKindShared(o.defaultValue, o.value, o'.value);
    var t' := t[name := o'];
    assert Builtins(t');
  }

  /** The assignment loop over `names`, stopping where `std::stoi` throws. */
  function AssignAll(names: seq<string>, b: map<string, seq<string>>, t: Table): (r: (Outcome, Table))
    requires forall k | 0 <= k < |names| :: names[k] in b && names[k] in t
    ensures r.1.Keys == t.Keys
  {
    if |names| == 0 then (Success, t)
    else
      var p := AssignAll(names[..|names| - 1], b, t);
      var name := names[|names| - 1];
      if !p.0.Success? then p
      else
        var outcome := if AssignV2(p.1[name].value, b[name]).threw then Failure(Flags.StoiError) else Success;
        (outcome, p.1[name := AssignedOption(p.1[name], b[name])])
  }

  /** Once the loop has failed, the later names change nothing. */
  lemma {:induction false} AssignAllStops(names: seq<string>, j: nat, b: map<string, seq<string>>, t: Table)
    requires forall k | 0 <= k < |names| :: names[k] in b && names[k] in t
    requires j <= |names| && !AssignAll(names[..j], b, t).0.Success?
    ensures AssignAll(names, b, t) == AssignAll(names[..j], b, t)
    decreases |names|
  {
    if j < |names| {
      var n := |names| - 1;
      assert names[..n][..j] == names[..j];
      AssignAllStops(names[..n], j, b, t);
    } else {
      assert names[..j] == names;
    }
  }

  /** One more turn of the loop, while it has not failed. */
  lemma AssignAllStep(names: seq<string>, i: nat, b: map<string, seq<string>>, t: Table)
    requires forall k | 0 <= k < |names| :: names[k] in b && names[k] in t
    requires i < |names| && AssignAll(names[..i], b, t).0.Success?
    ensures var p := AssignAll(names[..i], b, t);
      var name := names[i];
      AssignAll(names[..i + 1], b, t) == (
        if AssignV2(p.1[name].value, b[name]).threw then Failure(Flags.StoiError) else Success,
        p.1[name := AssignedOption(p.1[name], b[name])])
  {
    assert names[..i + 1][..i] == names[..i];
  }

  /** Everything after the auto-generation steps. */
  ghost function Parse(t: Table, argv: seq<string>): (r: (Outcome, Table))
    requires Builtins(t) && |argv| >= 1
  {
    var toks := argv[1..];
    match FirstStop(toks, MarkerMinLen)
    case Some(name) =>
      if name == "help" then (EarlyExit(t["help"].defaultValue.text), t)
      else (EarlyExit(VersionMessage(argv[0], t)), t)
    case None =>
      var st := Scan(toks, MarkerMinLen, NoOptName);
      match FirstUnknown(st.optNames, t.Keys)
      case Some(name) => (Failure(UnknownMessage(name)), t)
      case None =>
        var b := Buckets(t, toks);
        KeptBucketsKnown(toks, MarkerMinLen, NoOptName, t.Keys);
        match MissingRequired(SortedKeys(t.Keys), t, b)
        case Some(name) => (Failure(MissingMessage(name)), t)
        case None => AssignAll(SortedKeys(b.Keys), b, t)
  }

  /** `setupFlags`: the outcome and the table afterwards. */
  ghost function Setup(t: Table, autoHelp: bool, autoVersion: bool, argv: seq<string>): (Outcome, Table)
    requires WellFormed(t) && |argv| >= 1
  {
    Parse(Prepare(t, autoHelp, autoVersion, argv[0]), argv)
  }

  // ---------------------------------------------------------------------------
  // The parser object

  /** `OptionParser`: the option table and the two auto-generation flags. */
  class Parser {
    var options: Table
    var autoGenHelpDocs: bool
    var autoGenVersion: bool

    ghost predicate Valid()
      reads this
    {
      WellFormed(options)
    }

    /** Registers `help` and `version` with empty texts; auto-generation on. */
    constructor ()
      ensures Valid()
      ensures autoGenHelpDocs && autoGenVersion
      ensures options == map[
        "help" := OptionV2("help", "null", Help(""), Help(""), "display the help docs", Flags.Optional),
        "version" := OptionV2("version", "null", Version(""), Version(""), "display the version of this program", Flags.Optional)]
    {
      autoGenHelpDocs, autoGenVersion := true, true;
      var help := OptionV2("help", "null", Help(""), Help(""), "display the help docs", Flags.Optional);
      var version := OptionV2("version", "null", Version(""), Version(""), "display the version of this program", Flags.Optional);
      options := map["help" := help]["version" := version];
    }

    /** Stores the version text and turns version auto-generation off. */
    method SetVersion(version: string)
      requires Valid()
      modifies this
      ensures Valid() && options == SetText(old(options), "version", version)
      ensures !autoGenVersion && autoGenHelpDocs == old(autoGenHelpDocs)
    {
      options := SetText(options, "version", version);
      autoGenVersion := false;
    }

    /** Stores the help text and turns help auto-generation off. */
    method SetHelpDocs(help: string)
      requires Valid()
      modifies this
      ensures Valid() && options == SetText(old(options), "help", help)
      ensures !autoGenHelpDocs && autoGenVersion == old(autoGenVersion)
    {
      options := SetText(options, "help", help);
      autoGenHelpDocs := false;
    }

    /** `autoGenVersion`: the version text becomes "1.0.0". */
    method AutoGenVersion()
      requires Valid()
      modifies this`options
      ensures Valid() && options == SetText(old(options), "version", "1.0.0")
    {
      options := SetText(options, "version", "1.0.0");
    }

    /** `autoGenHelpDocs`: writes the help docs for `programName` and stores them as the help text. */
    method AutoGenHelpDocs(programName: string)
      requires Valid()
      modifies this`options
      ensures Valid() && options == SetText(old(options), "help", HelpDocs(old(options), programName))
    {
      var keys := SortKeys(options.Keys);
      var rows := WriteOptionRows(keys, options);
      var docs := HelpUsage(options, programName) + NoOptRow(options) + rows + HelpTail(options, programName);
      assert docs == HelpDocs(options, programName);
      options := SetText(options, "help", docs);
    }

    /** `isAValidOption`: the name is registered. */
    predicate IsAValidOption(str: string)
      reads this
    {
      str in options
    }

    /**
     * `FLAGS_DEF`: defines the variable `flags_<varName>` holding `initial`
     * and inserts an entry for it, with a copy of `initial` as the default,
     * unless the name is taken (the map's `insert` keeps the old entry).
     * Returns the new variable's value.
     */
    method Insert(optName: string, varName: string, initial: Data, desc: string, prop: Flags.OptionProp)
      returns (variable: Data)
      requires Valid()
      modifies this`options
      ensures Valid()
      ensures options == if optName in old(options) then old(options)
        else old(options)[optName := OptionV2(optName, "flags_" + varName, initial, initial, desc, prop)]
      ensures variable == initial
    {
      variable := initial;
      if optName !in options {
        options := options[optName := OptionV2(optName, "flags_" + varName, initial, variable, desc, prop)];
      }
    }

    /** The loop of `setupFlags` that rejects the first marker naming no registered option. */
    method CheckOptionNames(optNames: seq<string>) returns (unknown: Option<string>)
      ensures unknown == FirstUnknown(optNames, options.Keys)
    {
      for i := 0 to |optNames|
        invariant FirstUnknown(optNames[i..], options.Keys) == FirstUnknown(optNames, options.Keys)
      {
        assert optNames[i..][1..] == optNames[i + 1..];
        if !IsAValidOption(optNames[i]) {
          return Some(optNames[i]);
        }
      }
      return None;
    }

    /** The loop of `setupFlags` over the table that checks the required options are present. */
    method CheckRequired(inputArgs: map<string, seq<string>>) returns (missing: Option<string>)
      ensures missing == MissingRequired(SortedKeys(options.Keys), options, inputArgs)
    {
      var keys := SortKeys(options.Keys);
      for i := 0 to |keys|
        invariant MissingRequired(keys[i..], options, inputArgs) == MissingRequired(keys, options, inputArgs)
      {
        assert keys[i..][1..] == keys[i + 1..];
        var optName := keys[i];
        if options[optName].prop == Flags.Optional {
          continue;
        }
        if optName !in inputArgs {
          return Some(optName);
        }
      }
      return None;
    }

    /** The last loop of `setupFlags`: assign each bucket to its option's variable. */
    method AssignBuckets(inputArgs: map<string, seq<string>>) returns (outcome: Outcome)
      requires Valid()
      requires forall name | name in inputArgs :: name in options
      modifies this`options
      ensures Valid()
      ensures (outcome, options) == AssignAll(SortedKeys(inputArgs.Keys), inputArgs, old(options))
    {
      ghost var t0 := options;
      var names := SortKeys(inputArgs.Keys);
      for i := 0 to |names|
        invariant Valid()
        invariant AssignAll(names[..i], inputArgs, t0) == (Success, options)
      {
        var optName := names[i];
        AssignAllStep(names, i, inputArgs, t0);
        AssignedWellFormed(options, optName, inputArgs[optName]);
        var result := AssignValue(options[optName].value, inputArgs[optName]);
        options := options[optName := AssignedOption(options[optName], inputArgs[optName])];
        if result.threw {
          AssignAllStops(names, i + 1, inputArgs, t0);
          return Failure(Flags.StoiError);
        }
      }
      assert names[..|names|] == names;
      return Success;
    }

    /**
     * `setupFlags`: generates the version and help texts if still due, then
     * reads the command line.
     */
    method SetupFlags(argv: seq<string>) returns (outcome: Outcome)
      requires Valid() && |argv| >= 1
      modifies this`options
      ensures Valid()
      ensures (outcome, options) == Setup(old(options), autoGenHelpDocs, autoGenVersion, argv)
    {
      if autoGenVersion {
        AutoGenVersion();
      }
      if autoGenHelpDocs {
        AutoGenHelpDocs(argv[0]);
      }
      assert options == Prepare(old(options), autoGenHelpDocs, autoGenVersion, argv[0]);
      outcome := ReadArguments(argv);
    }

    /**
     * The rest of `setupFlags`: scans `argv`, checks the option names and
     * the required options, and assigns the buckets.
     */
    method ReadArguments(argv: seq<string>) returns (outcome: Outcome)
      requires Valid() && |argv| >= 1
      modifies this`options
      ensures Valid()
      ensures (outcome, options) == Parse(old(options), argv)
    {
      var toks := argv[1..];
      var stopped, st := ScanArgv(toks, MarkerMinLen, NoOptName);
      if stopped.Some? {
        if stopped.value == "help" {
          return EarlyExit(options["help"].defaultValue.text);
        }
        return EarlyExit(VersionMessage(argv[0], options));
      }
      var inputArgs := st.buckets;
      if NoOptName !in options && NoOptName in inputArgs {
        inputArgs := inputArgs - {NoOptName};
      }
      var unknown := CheckOptionNames(st.optNames);
      if unknown.Some? {
        return Failure(UnknownMessage(unknown.value));
      }
      KeptBucketsKnown(toks, MarkerMinLen, NoOptName, options.Keys);
      var missing := CheckRequired(inputArgs);
      if missing.Some? {
        return Failure(MissingMessage(missing.value));
      }
      outcome := AssignBuckets(inputArgs);
    }
  }

  // ---------------------------------------------------------------------------
  // The assignment `switch`

  /** One case of the assignment `switch` of `setupFlags`. */
  method AssignValue(d: Data, bucket: seq<string>) returns (r: Assigned)
    ensures r == AssignV2(d, bucket)
  {
    match d
    case Int(_) =>
      if bucket == [] {
        return Assigned(d, false);
      }
      var n := Stoi(bucket[0]);
      r := if n.None? then Assigned(d, true) else Assigned(Int(n.value), false);
    case IntVec(_) =>
      if bucket == [] {
        return Assigned(d, false);
      }
      var v := PushTokens(bucket, Stoi);
      r := Assigned(IntVec(v.elems), v.threw);
    case Bool(_) =>
      if bucket == [] {
        return Assigned(Bool(true), false);
      }
      var b := ToBool(bucket[0]);
      r := if b.None? then Assigned(d, true) else Assigned(Bool(b.value), false);
    case BoolVec(_) =>
      if bucket == [] {
        return Assigned(d, false);
      }
      var v := PushTokens(bucket, ToBool);
      r := Assigned(BoolVec(v.elems), v.threw);
    case String(_) =>
      r := if bucket == [] then Assigned(d, false) else Assigned(String(bucket[0]), false);
    case StringVec(_) =>
      r := if bucket == [] then Assigned(d, false) else Assigned(StringVec(bucket), false);
    case Help(_) =>
      r := Assigned(d, false);
    case Version(_) =>
      r := Assigned(d, false);
  }
}
