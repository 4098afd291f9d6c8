/**
 * `flags-template/include/flags.hpp`: `ArgParser`, a table of typed
 * arguments. A group of values is assigned to the previous option only
 * when the next marker (a token starting with "--") arrives, or at the end
 * of the line. An unregistered marker is an error as soon as the scan
 * reaches it.
 *
 * The conversions `std::stringstream >>` makes into an `int`, a `bool` or a
 * `std::string` are library behaviour, so the model takes them as the
 * parameter `lib`. `ArgParser.SetupParser` is proved against `Setup`, a
 * function of the parser's state, the command line and `lib`.
 */
module FlagsTemplate {
  import opened Text
  import opened ArgType
  import Bucketing
  import opened Outcomes

  // ---------------------------------------------------------------------------
  // `ArgType`: the library conversions, `any_asign`, `to_string`

  /**
   * What the model takes as given: the stream reads, and the `what()` text
   * of the exception `std::unordered_map::at` throws.
   */
  datatype Library = Library(streams: Streams, atWhat: string)

  /** The variants the template parser handles (every one but help and version texts). */
  predicate Supported(d: Data)
  {
    !d.Help? && !d.Version?
  }

  /** `Type()`: the value-initialised value of the same type. */
  function Zero(d: Data): (z: Data)
    ensures SameKind(z, d) && SameKind(d, z)
  {
    match d
    case Int(_) => Int(0)
    case IntVec(_) => IntVec([])
    case Bool(_) => Bool(false)
    case BoolVec(_) => BoolVec([])
    case String(_) => String("")
    case StringVec(_) => StringVec([])
    case Help(_) => Help("")
    case Version(_) => Version("")
  }

  /**
   * One element of a `bool` vector: "true" and "on" in any case are true,
   * "false" and "off" are false, anything else is `std::stoi(elem) != 0`;
   * `None` where `std::stoi` throws.
   */
  function BoolToken(elem: string): Option<bool>
  {
    match OnOff(Lower(elem))
    case Some(b) => Some(b)
    case None =>
      match Stoi(elem)
      case Some(n) => Some(n != 0)
      case None => None
  }

  /** The words `any_asign` and `any_asign_vector` know for a `bool`, on the lower-cased token. */
  function OnOff(tempStr: string): Option<bool>
  {
    if tempStr == "true" || tempStr == "on" then Some(true)
    else if tempStr == "false" || tempStr == "off" then Some(false)
    else None
  }

  /**
   * `any_asign(any, str_val)`: an `int`, `std::string` or `bool` takes the
   * token through the stream, a `bool` with "true"/"on" and "false"/"off"
   * in any case overriding the stream's reading; `None` (the overload
   * returns false) for every other type.
   */
  function AsignScalar(d: Data, strVal: string, lib: Library): Option<Data>
  {
    match d
    case Int(_) => Some(Int(lib.streams.readInt(strVal)))
    case String(prev) => Some(String(lib.streams.readWord(prev, strVal)))
    case Bool(_) =>
      (match OnOff(Lower(strVal))
       case Some(b) => Some(Bool(b))
       case None => Some(Bool(lib.streams.readBool(strVal))))
    case _ => None
  }

  /**
   * `any_asign(any, str_vec)`: a vector is cleared and gets one element per
   * token; `threw` is the overload returning false, which happens when a
   * `bool` or `int` token does not convert (the vector then keeps the
   * elements pushed before it) and for every non-vector type.
   */
  function AsignVector(d: Data, strVec: seq<string>): Assigned
  {
    match d
    case BoolVec(_) => var r := PushAll(strVec, BoolToken); Assigned(BoolVec(r.elems), r.threw)
    case IntVec(_) => var r := PushAll(strVec, Stoi); Assigned(IntVec(r.elems), r.threw)
    case StringVec(_) => Assigned(StringVec(strVec), false)
    case _ => Assigned(d, true)
  }

  /**
   * How `setup_parser` assigns a non-empty group: the scalar overload with
   * the first token, and the vector overload with the whole group when the
   * scalar one fails. `threw` is both failing.
   */
  function AsignGroup(d: Data, group: seq<string>, lib: Library): Assigned
    requires group != []
  {
    match AsignScalar(d, group[0], lib)
    case Some(x) => Assigned(x, false)
    case None => AsignVector(d, group)
  }

  /** Assignment keeps the variant. */
  lemma AsignGroupKeepsKind(d: Data, group: seq<string>, lib: Library)
    requires group != []
    ensures SameKind(AsignGroup(d, group, lib).data, d)
  {
  }

  /** `format_vector` of the elements' texts: "[(empty)]" for none, else ", "-separated in brackets. */
  function FormatVec(elems: seq<string>): string
  {
    if elems == [] then "[(empty)]" else RenderVec(elems)
  }

  /** `ArgType::to_string`, with `std::boolalpha` for `bool`s. */
  function ToStringAny(d: Data): string
  {
    match d
    case Int(n) => IntToString(n)
    case IntVec(v) => FormatVec(IntStrings(v))
    case Bool(b) => BoolString(b)
    case BoolVec(v) => FormatVec(BoolStrings(v))
    case String(s) => s
    case StringVec(v) => FormatVec(v)
    case Help(s) => s
    case Version(s) => s
  }

  /** `format_vector`: "[(empty)]" for no elements, else the elements as `WriteVec` writes them. */
  method FormatVector(c: seq<string>) returns (s: string)
    ensures s == FormatVec(c)
  {
    if c == [] {
      return "[(empty)]";
    }
    s := WriteVec(c);
  }

  /** `ArgType::to_string`, with the vectors written by `FormatVector`. */
  method ToString(d: Data) returns (s: string)
    ensures s == ToStringAny(d)
  {
    match d
    case IntVec(v) =>
      s := FormatVector(IntStrings(v));
    case BoolVec(v) =>
      s := FormatVector(BoolStrings(v));
    case StringVec(v) =>
      s := FormatVector(v);
    case _ =>
      s := ToStringAny(d);
  }

  /** `ArgType::tolower`: a copy of the string, lowered one position at a time. */
  method ToLower(str: string) returns (tempStr: string)
    ensures tempStr == Lower(str)
  {
    tempStr := seq(|str|, _ => ' ');
    for i := 0 to |str|
      invariant |tempStr| == |str|
      invariant forall k | 0 <= k < i :: tempStr[k] == LowerChar(str[k])
    {
      tempStr := tempStr[i := LowerChar(str[i])];
    }
  }

  // ---------------------------------------------------------------------------
  // The argument table

  /** `ArgInfo`: the name, the current value, the default value and the description. */
  datatype ArgInfo = ArgInfo(name: string, value: Data, defaultValue: Data, desc: string)

  type ArgTable = map<string, ArgInfo>

  /** Every entry is filed under its own name and holds two values of one supported type. */
  predicate WellFormed(args: ArgTable)
  {
    forall n | n in args :: args[n].name == n && SameKind(args[n].value, args[n].defaultValue) && Supported(args[n].defaultValue)
  }

  /** `get_arg_value<Type>`: the value, if `name` is registered with the type of `sample`. */
  function ArgValue(args: ArgTable, name: string, sample: Data): Option<Data>
  {
    if name in args && SameKind(args[name].value, sample) then Some(args[name].value) else None
  }

  /** `get_arg_default_value<Type>`: the default, if `name` is registered with the type of `sample`. */
  function ArgDefaultValue(args: ArgTable, name: string, sample: Data): Option<Data>
  {
    if name in args && SameKind(args[name].defaultValue, sample) then Some(args[name].defaultValue) else None
  }

  function DuplicateMessage(name: string): string
  {
    "[ error from lib-flags ] can't add arguement named '" + name + "' again"
  }

  // ---------------------------------------------------------------------------
  // Help docs (`gen_args_help`), with the rows in ascending name order

  /** One row: `--name` and the default value in 15- and 20-column fields, then the description. */
  function HelpRow(name: string, info: ArgInfo): string
  {
    "  --" + Pad(name, 15) + Pad(ToStringAny(info.defaultValue), 20) + info.desc + "\n"
  }

  function HelpRows(keys: seq<string>, args: ArgTable): string
    requires forall k | 0 <= k < |keys| :: keys[k] in args
  {
    if |keys| == 0 then ""
    else HelpRows(keys[..|keys| - 1], args) + HelpRow(keys[|keys| - 1], args[keys[|keys| - 1]])
  }

  function HelpHead(programName: string): string
  {
    "Usage: " + programName + " [options] [target] ...\n\n    " + Pad("Options", 15) + Pad("Default Value", 20)
      + "Describes\n" + Dashes(52) + "\n"
  }

  /** The generated help text. */
  ghost function HelpDocs(args: ArgTable, programName: string): string
  {
    HelpHead(programName) + HelpRows(SortedKeys(args.Keys), args) + "\nprogram help docs"
  }

  lemma HelpRowMentions(name: string, info: ArgInfo)
    ensures Infix("--" + name, HelpRow(name, info))
  {
    var cell := "  --" + Pad(name, 15);
    assert cell[2..2 + |"--" + name|] == "--" + name;
    assert InfixAt("--" + name, cell, 2);
    InfixLeft("--" + name, cell, Pad(ToStringAny(info.defaultValue), 20));
    InfixLeft("--" + name, cell + Pad(ToStringAny(info.defaultValue), 20), info.desc);
    InfixLeft("--" + name, cell + Pad(ToStringAny(info.defaultValue), 20) + info.desc, "\n");
  }

  lemma {:induction false} HelpRowsMention(keys: seq<string>, args: ArgTable, k: nat)
    requires forall j | 0 <= j < |keys| :: keys[j] in args
    requires k < |keys|
    ensures Infix("--" + keys[k], HelpRows(keys, args))
  {
    var n := |keys| - 1;
    var p := keys[..n];
    var last := HelpRow(keys[n], args[keys[n]]);
    assert HelpRows(keys, args) == HelpRows(p, args) + last;
    if k == n {
      HelpRowMentions(keys[k], args[keys[k]]);
      InfixRight("--" + keys[k], HelpRows(p, args), last);
    } else {
      assert p[k] == keys[k];
      HelpRowsMention(p, args, k);
      InfixLeft("--" + keys[k], HelpRows(p, args), last);
    }
  }

  /** The generated help text mentions `--name` for every registered argument. */
  lemma HelpDocsMentions(args: ArgTable, programName: string, name: string)
    requires name in args
    ensures Infix("--" + name, HelpDocs(args, programName))
  {
    var keys := SortedKeys(args.Keys);
    var k :| 0 <= k < |keys| && keys[k] == name;
    HelpRowsMention(keys, args, k);
    InfixRight("--" + name, HelpHead(programName), HelpRows(keys, args));
    InfixLeft("--" + name, HelpHead(programName) + HelpRows(keys, args), "\nprogram help docs");
  }

  // ---------------------------------------------------------------------------
  // `setup_parser` as a function of the table and the command line

  /** A marker is a token whose first two characters are "--". */
  const MarkerMinLen := 1

  function InvalidMessage(name: string): string
  {
    "some error(s) happened in the command line:\n" + "[ error from lib-flags ] the option named '--" + name
      + "' is invalid, use '--help' option for help."
  }

  /** `get_arg_info` of a name that is not registered. */
  function ArgInfoMessage(name: string, what: string): string
  {
    "[ error from lib-flags ] can't get the 'arg-info' of the arguement named '" + name + "', exception: \"" + what + "\""
  }

  const AsignError := "[ error from lib-flags ] unknow werror happened in 'ArgType::any-asign'"

  /** The loop state: the table, `last_arg_name`, `argv_vec`, and how the parse ended if it has. */
  datatype Pass = Pass(args: ArgTable, last: string, group: seq<string>, stop: Option<Outcome>)

  /** Assigns a non-empty group to the option `last`: the table afterwards and the error, if any. */
  function Flush(args: ArgTable, last: string, group: seq<string>, lib: Library): (ArgTable, Option<Outcome>)
    requires group != []
  {
    if last !in args then (args, Some(Failure(ArgInfoMessage(last, lib.atWhat))))
    else
      var r := AsignGroup(args[last].value, group, lib);
      (args[last := args[last].(value := r.data)], if r.threw then Some(Failure(AsignError)) else None)
  }

  /** One turn of the loop of `setup_parser`. */
  function Step(p: Pass, t: string, helpStr: string, versionLine: string, lib: Library): Pass
  {
    if p.stop.Some? then p
    else if !Bucketing.IsMarker(t, MarkerMinLen) then p.(group := p.group + [t])
    else
      var cur := Bucketing.MarkerName(t);
      if cur !in p.args then p.(stop := Some(Failure(InvalidMessage(cur))))
      else if cur == "help" then p.(stop := Some(EarlyExit(helpStr + "\n")))
      else if cur == "version" then p.(stop := Some(EarlyExit(versionLine)))
      else if p.group == [] then p.(last := cur)
      else
        var (args, err) := Flush(p.args, p.last, p.group, lib);
        if err.Some? then Pass(args, p.last, p.group, err) else Pass(args, cur, [], None)
  }

  /** The loop over `toks`, from a table and no option yet. */
  function Run(toks: seq<string>, args: ArgTable, helpStr: string, versionLine: string, lib: Library): Pass
  {
    if |toks| == 0 then Pass(args, "", [], None)
    else Step(Run(toks[..|toks| - 1], args, helpStr, versionLine, lib), toks[|toks| - 1], helpStr, versionLine, lib)
  }

  /** After the loop: the last group is assigned if there is one and an option to take it. */
  function Finish(p: Pass, lib: Library): (Outcome, ArgTable)
  {
    if p.stop.Some? then (p.stop.value, p.args)
    else if p.group != [] && p.last != "" then
      var (args, err) := Flush(p.args, p.last, p.group, lib);
      (if err.Some? then err.value else Success, args)
    else (Success, p.args)
  }

  /** The version line `setup_parser` prints for `--version`, with its newline. */
  function VersionLine(programName: string, versionStr: string): string
  {
    programName + " version: " + versionStr + "\n"
  }

  /** Everything `setup_parser` does after generating the help docs. */
  function Parse(args: ArgTable, helpStr: string, versionStr: string, argv: seq<string>, lib: Library): (Outcome, ArgTable)
    requires |argv| >= 1
  {
    Finish(Run(argv[1..], args, helpStr, VersionLine(argv[0], versionStr), lib), lib)
  }

  /** Once the loop has stopped, the later tokens change nothing. */
  lemma {:induction false} RunStops(toks: seq<string>, j: nat, args: ArgTable, helpStr: string, versionLine: string, lib: Library)
    requires j <= |toks| && Run(toks[..j], args, helpStr, versionLine, lib).stop.Some?
    ensures Run(toks, args, helpStr, versionLine, lib) == Run(toks[..j], args, helpStr, versionLine, lib)
    decreases |toks|
  {
    if j < |toks| {
      var n := |toks| - 1;
      assert toks[..n][..j] == toks[..j];
      RunStops(toks[..n], j, args, helpStr, versionLine, lib);
    } else {
      assert toks[..j] == toks;
    }
  }

  // ---------------------------------------------------------------------------
  // The parser object

  /** `ArgParser`: the table, the auto-generation flag, and the help and version texts. */
  class ArgParser {
    var args: ArgTable
    var autoGenHelp: bool
    var helpStr: string
    var versionStr: string

    ghost predicate Valid()
      reads this
    {
      WellFormed(args)
    }

    /** Registers `version` (a string, default "1.0") and `help` (a bool, default false). */
    constructor ()
      ensures Valid()
      ensures autoGenHelp && helpStr == "" && versionStr == "1.0"
      ensures args == map[
        "version" := ArgInfo("version", String(""), String("1.0"), "the version of this program"),
        "help" := ArgInfo("help", Bool(false), Bool(false), "get help docs of this program")]
    {
      args := map[];
      autoGenHelp, helpStr, versionStr := true, "", "1.0";
      new;
      var err := AddArg("version", String("1.0"), "the version of this program");
      err := AddArg("help", Bool(false), "get help docs of this program");
    }

    /**
     * `add_arg`: registers `name` with `defaultValue` as its default and the
     * type's `Type()` as its current value; a name already taken is an error
     * and changes nothing.
     */
    method AddArg(name: string, defaultValue: Data, desc: string) returns (err: Option<string>)
      requires Valid() && Supported(defaultValue)
      modifies this`args
      ensures Valid()
      ensures name in old(args) ==> err == Some(DuplicateMessage(name)) && args == old(args)
      ensures name !in old(args) ==>
        err == None && args == old(args)[name := ArgInfo(name, Zero(defaultValue), defaultValue, desc)]
    {
      var argInfo := ArgInfo(name, Zero(defaultValue), defaultValue, desc);
      if name in args {
        return Some(DuplicateMessage(name));
      }
      args := args[name := argInfo];
      return None;
    }

    /** `set_help`: stores the help text and turns auto-generation off. */
    method SetHelp(str: string)
      modifies this`helpStr, this`autoGenHelp
      ensures helpStr == str && !autoGenHelp
    {
      helpStr := str;
      autoGenHelp := false;
    }

    /** `set_version`: stores the version text; auto-generation of help is untouched. */
    method SetVersion(str: string)
      modifies this`versionStr
      ensures versionStr == str
    {
      versionStr := str;
    }

    /** `gen_args_help`: with auto-generation on, writes the help docs for `programName`. */
    method GenArgsHelp(programName: string)
      modifies this`helpStr
      ensures helpStr == if autoGenHelp then HelpDocs(args, programName) else old(helpStr)
    {
      if !autoGenHelp {
        return;
      }
      var keys := SortKeys(args.Keys);
      var rows := "";
      for i := 0 to |keys|
        invariant rows == HelpRows(keys[..i], args)
      {
        assert keys[..i + 1][..i] == keys[..i];
        var info := args[keys[i]];
        var text := ToString(info.defaultValue);
        var row := "  --" + Pad(keys[i], 15) + Pad(text, 20) + info.desc + "\n";
        assert row == HelpRow(keys[i], info);
        rows := rows + row;
      }
      assert keys[..|keys|] == keys;
      helpStr := HelpHead(programName) + rows + "\nprogram help docs";
    }

    /** The assignment of a non-empty group to `lastArgName`, as the loop and its end both do it. */
    method FlushGroup(lastArgName: string, argvVec: seq<string>, lib: Library) returns (err: Option<Outcome>)
      requires Valid() && argvVec != []
      modifies this`args
      ensures Valid()
      ensures (args, err) == Flush(old(args), lastArgName, argvVec, lib)
    {
      if lastArgName !in args {
        return Some(Failure(ArgInfoMessage(lastArgName, lib.atWhat)));
      }
      var argValue := args[lastArgName].value;
      AsignGroupKeepsKind(argValue, argvVec, lib);
      var r := AnyAsign(argValue, argvVec, lib);
      args := args[lastArgName := args[lastArgName].(value := r.data)];
      err := if r.threw then Some(Failure(AsignError)) else None;
    }

    /**
     * `setup_parser`: generates the help docs if due, then reads the command
     * line; the help text it uses is the one it has just generated.
     */
    method SetupParser(argv: seq<string>, lib: Library) returns (outcome: Outcome)
      requires Valid() && |argv| >= 1
      modifies this`args, this`helpStr
      ensures Valid()
      ensures helpStr == if autoGenHelp then HelpDocs(old(args), argv[0]) else old(helpStr)
      ensures (outcome, args) == Parse(old(args), helpStr, versionStr, argv, lib)
    {
      GenArgsHelp(argv[0]);
      outcome := ReadArguments(argv, lib);
    }

    /** The loop of `setup_parser` and the assignment of the last group. */
    method ReadArguments(argv: seq<string>, lib: Library) returns (outcome: Outcome)
      requires Valid() && |argv| >= 1
      modifies this`args
      ensures Valid()
      ensures (outcome, args) == Parse(old(args), helpStr, versionStr, argv, lib)
    {
      ghost var args0 := args;
      var toks := argv[1..];
      var versionLine := VersionLine(argv[0], versionStr);
      var lastArgName := "";
      var argvVec: seq<string> := [];
      for i := 0 to |toks|
        invariant Valid()
        invariant Run(toks[..i], args0, helpStr, versionLine, lib) == Pass(args, lastArgName, argvVec, None)
      {
        assert toks[..i + 1][..i] == toks[..i];
        var tempStr := toks[i];
        if !Bucketing.IsMarker(tempStr, MarkerMinLen) {
          argvVec := argvVec + [tempStr];
          continue;
        }
        var curArgName := tempStr[2..];
        if curArgName !in args {
          RunStops(toks, i + 1, args0, helpStr, versionLine, lib);
          return Failure(InvalidMessage(curArgName));
        }
        if curArgName == "help" {
          RunStops(toks, i + 1, args0, helpStr, versionLine, lib);
          return EarlyExit(helpStr + "\n");
        } else if curArgName == "version" {
          RunStops(toks, i + 1, args0, helpStr, versionLine, lib);
          return EarlyExit(versionLine);
        }
        if argvVec != [] {
          var err := FlushGroup(lastArgName, argvVec, lib);
          if err.Some? {
            RunStops(toks, i + 1, args0, helpStr, versionLine, lib);
            return err.value;
          }
          argvVec := [];
        }
        lastArgName := curArgName;
      }
      assert toks[..|toks|] == toks;
      outcome := Success;
      if argvVec != [] && lastArgName != "" {
        var err := FlushGroup(lastArgName, argvVec, lib);
        if err.Some? {
          outcome := err.value;
        }
      }
    }

    /** `get_arg_value<Type>`; `None` stands for the error it throws. */
    method GetArgValue(name: string, sample: Data) returns (value: Option<Data>)
      ensures value == ArgValue(args, name, sample)
      ensures value.Some? ==> name in args && value.value == args[name].value && SameKind(value.value, sample)
    {
      if name !in args || !SameKind(args[name].value, sample) {
        return None;
      }
      return Some(args[name].value);
    }

    /** `get_arg_default_value<Type>`; `None` stands for the error it throws. */
    method GetArgDefaultValue(name: string, sample: Data) returns (value: Option<Data>)
      ensures value == ArgDefaultValue(args, name, sample)
      ensures value.Some? ==> name in args && value.value == args[name].defaultValue && SameKind(value.value, sample)
    {
      if name !in args || !SameKind(args[name].defaultValue, sample) {
        return None;
      }
      return Some(args[name].defaultValue);
    }
  }

  // ---------------------------------------------------------------------------
  // `any_asign`

  /** `any_asign(any, str_vec)` for a vector: `clear()` and `push_back` per token. */
  method AnyAsignVector(d: Data, strVec: seq<string>) returns (r: Assigned)
    ensures r == AsignVector(d, strVec)
  {
    match d
    case BoolVec(_) =>
      var v := PushTokens(strVec, BoolToken);
      r := Assigned(BoolVec(v.elems), v.threw);
    case IntVec(_) =>
      var v := PushTokens(strVec, Stoi);
      r := Assigned(IntVec(v.elems), v.threw);
    case StringVec(_) =>
      var v := PushTokens(strVec, s => Some(s));
      PushAllSpec(strVec, s => Some(s));
      assert v.elems == strVec;
      r := Assigned(StringVec(v.elems), false);
    case _ =>
      r := Assigned(d, true);
  }

  /** The scalar overload with the first token, then the vector overload with the group. */
  method AnyAsign(d: Data, group: seq<string>, lib: Library) returns (r: Assigned)
    requires group != []
    ensures r == AsignGroup(d, group, lib)
  {
    var x := AsignScalar(d, group[0], lib);
    if x.Some? {
      return Assigned(x.value, false);
    }
    r := AnyAsignVector(d, group);
  }
}
