/**
 * `flags-macro/include/flags.h`: options are global variables that the
 * `DEFINE_*` macros declare and register, before `main`, in maps from the
 * option's name to its variable, its cast function and its description.
 * `setup_flags` reads the command line much as `flags-template` does: a
 * group of values goes to the previous option when the next marker comes or
 * the line ends, and an unregistered marker fails at once.
 *
 * The namespace-level statics become the fields of one `Globals` object, the
 * pre-`main` registration becomes calls of `Globals.Define`, and the
 * `std::stringstream` reads inside `PARAM_CAST` and `PARAM_CAST_VEC` are the
 * parameter `io`. `Globals.SetupFlags` is proved against `Parse`.
 */
module FlagsMacro {
  import opened Text
  import opened ArgType
  import Bucketing
  import opened Outcomes

  /** A marker is a token whose first two characters are "--". */
  const MarkerMinLen := 1

  /** The types `DEFINE` and `DEFINE_VEC` declare (doubles aside). */
  predicate Supported(d: Data)
  {
    !d.Help? && !d.Version?
  }

  /** The registered variables: every name is a non-empty identifier, and `help` and `version` are defined. */
  predicate WellFormed(values: map<string, Data>)
  {
    && "" !in values
    && (forall n | n in values :: Supported(values[n]))
    && "help" in values && values["help"].Bool?
    && "version" in values && values["version"].String?
  }

  /** The version text: the string variable `version`. */
  function VersionText(values: map<string, Data>): string
    requires WellFormed(values)
  {
    values["version"].s
  }

  // ---------------------------------------------------------------------------
  // `PARAM_CAST` and `PARAM_CAST_VEC`

  /** `PARAM_CAST(tarType)`: reads `strVal` into the variable holding `d`. */
  function ScalarCast(d: Data, strVal: string, io: Streams): Data
  {
    match d
    case Int(_) => Int(io.readInt(strVal))
    case Bool(_) => Bool(io.readBool(strVal))
    case String(prev) => String(io.readWord(prev, strVal))
    case _ => d
  }

  /**
   * The strings `PARAM_CAST_VEC` pushes for a string vector: each token is
   * read into the one `temp`, which starts empty and keeps the previous
   * element when a token holds no word.
   */
  function ReadWords(strVec: seq<string>, io: Streams): (r: seq<string>)
    ensures |r| == |strVec|
  {
    if |strVec| == 0 then []
    else
      var p := ReadWords(strVec[..|strVec| - 1], io);
      p + [io.readWord(PrevWord(p, |p|), strVec[|strVec| - 1])]
  }

  /** The string the stream read left behind before element `k`: "" at the start. */
  function PrevWord(v: seq<string>, k: nat): string
    requires k <= |v|
  {
    if k == 0 then "" else v[k - 1]
  }

  /** `PARAM_CAST_VEC(vecType)`: the vector is cleared and gets one element per token. */
  function VectorCast(d: Data, strVec: seq<string>, io: Streams): Data
  {
    match d
    case IntVec(_) => IntVec(seq(|strVec|, k requires 0 <= k < |strVec| => io.readInt(strVec[k])))
    case BoolVec(_) => BoolVec(seq(|strVec|, k requires 0 <= k < |strVec| => io.readBool(strVec[k])))
    case StringVec(_) => StringVec(ReadWords(strVec, io))
    case _ => d
  }

  /**
   * What `setup_flags` does with a group for an option holding `d`: the
   * scalar cast of the first token, or the vector cast of the whole group;
   * `None` when neither cast map has the option ("unknow error happend").
   */
  function Cast(d: Data, group: seq<string>, io: Streams): Option<Data>
    requires group != []
  {
    if d.Int? || d.Bool? || d.String? then Some(ScalarCast(d, group[0], io))
    else if d.IntVec? || d.BoolVec? || d.StringVec? then Some(VectorCast(d, group, io))
    else None
  }

  /** The `PARAM_CAST_VEC` loop: `clear()`, then a read into `temp` and a `push_back` per token. */
  method CastVector(d: Data, strVec: seq<string>, io: Streams) returns (r: Data)
    requires d.IntVec? || d.BoolVec? || d.StringVec?
    ensures r == VectorCast(d, strVec, io)
  {
    match d
    case IntVec(_) =>
      var v: seq<int> := [];
      for i := 0 to |strVec|
        invariant |v| == i && forall k | 0 <= k < i :: v[k] == io.readInt(strVec[k])
      {
        v := v + [io.readInt(strVec[i])];
      }
      r := IntVec(v);
    case BoolVec(_) =>
      var v: seq<bool> := [];
      for i := 0 to |strVec|
        invariant |v| == i && forall k | 0 <= k < i :: v[k] == io.readBool(strVec[k])
      {
        v := v + [io.readBool(strVec[i])];
      }
      r := BoolVec(v);
    case StringVec(_) =>
      var v: seq<string> := [];
      var temp := "";
      for i := 0 to |strVec|
        invariant v == ReadWords(strVec[..i], io)
        invariant temp == PrevWord(v, i)
      {
        assert strVec[..i + 1][..i] == strVec[..i];
        temp := io.readWord(temp, strVec[i]);
        v := v + [temp];
      }
      assert strVec[..|strVec|] == strVec;
      r := StringVec(v);
  }

  // ---------------------------------------------------------------------------
  // Help docs, with the rows in ascending name order

  function HelpRow(param: string, desc: string): string
  {
    "  --" + Pad(param, 20) + desc + "\n"
  }

  function HelpRows(keys: seq<string>, descs: map<string, string>): string
    requires forall k | 0 <= k < |keys| :: keys[k] in descs
  {
    if |keys| == 0 then ""
    else HelpRows(keys[..|keys| - 1], descs) + HelpRow(keys[|keys| - 1], descs[keys[|keys| - 1]])
  }

  function HelpHead(programName: string): string
  {
    "Usage: " + programName + " [options] [target] ...\n\nOptions:\n"
  }

  /** The help text `setup_flags` generates. */
  ghost function HelpDocs(descs: map<string, string>, programName: string): string
  {
    HelpHead(programName) + HelpRows(SortedKeys(descs.Keys), descs)
  }

  lemma HelpRowMentions(param: string, desc: string)
    ensures Infix("--" + param, HelpRow(param, desc))
  {
    var cell := "  --" + Pad(param, 20);
    assert cell[2..2 + |"--" + param|] == "--" + param;
    assert InfixAt("--" + param, cell, 2);
    InfixLeft("--" + param, cell, desc);
    InfixLeft("--" + param, cell + desc, "\n");
  }

  lemma {:induction false} HelpRowsMention(keys: seq<string>, descs: map<string, string>, k: nat)
    requires forall j | 0 <= j < |keys| :: keys[j] in descs
    requires k < |keys|
    ensures Infix("--" + keys[k], HelpRows(keys, descs))
  {
    var n := |keys| - 1;
    var p := keys[..n];
    var last := HelpRow(keys[n], descs[keys[n]]);
    assert HelpRows(keys, descs) == HelpRows(p, descs) + last;
    if k == n {
      HelpRowMentions(keys[k], descs[keys[k]]);
      InfixRight("--" + keys[k], HelpRows(p, descs), last);
    } else {
      assert p[k] == keys[k];
      HelpRowsMention(p, descs, k);
      InfixLeft("--" + keys[k], HelpRows(p, descs), last);
    }
  }

  /** The generated help text mentions `--name` for every described option. */
  lemma HelpDocsMentions(descs: map<string, string>, programName: string, name: string)
    requires name in descs
    ensures Infix("--" + name, HelpDocs(descs, programName))
  {
    var keys := SortedKeys(descs.Keys);
    var k :| 0 <= k < |keys| && keys[k] == name;
    HelpRowsMention(keys, descs, k);
    InfixRight("--" + name, HelpHead(programName), HelpRows(keys, descs));
  }

  // ---------------------------------------------------------------------------
  // `setup_flags` as a function of the globals and the command line

  function InvalidMessage(name: string): string
  {
    "some error(s) happened in the command line:\n" + "[ error ] the option named '--" + name
      + "' is invalid, use '--help' option for help."
  }

  /** What `--help` throws. */
  function HelpExit(helpStr: string): string
  {
    helpStr + "\nProgram Help Docs"
  }

  /** What `--version` throws. */
  function VersionLine(programName: string, version: string): string
  {
    programName + " version: " + version
  }

  const UnknownError := "unknow error happend"

  /** The index of the first marker in `toks`, or `|toks|` when there is none. */
  function FirstMarker(toks: seq<string>): (r: nat)
    ensures r <= |toks|
    ensures forall k | 0 <= k < r :: !Bucketing.IsMarker(toks[k], MarkerMinLen)
    ensures r < |toks| ==> Bucketing.IsMarker(toks[r], MarkerMinLen)
  {
    if |toks| == 0 || Bucketing.IsMarker(toks[0], MarkerMinLen) then 0
    else 1 + FirstMarker(toks[1..])
  }

  /**
   * `setup_flags` dereferences the entry of `lastParam` when a registered
   * marker other than `help` and `version` follows a non-empty group. Before
   * the first such marker `lastParam` is empty and has no entry, so values
   * before the first marker are defined behaviour only when that marker is
   * unregistered, `help` or `version`.
   */
  predicate LeadingValuesDefined(toks: seq<string>, names: set<string>)
  {
    var j := FirstMarker(toks);
    j == 0 || j == |toks| || Bucketing.MarkerName(toks[j]) !in names
      || Bucketing.MarkerName(toks[j]) == "help" || Bucketing.MarkerName(toks[j]) == "version"
  }

  /** The loop state: the variables, `parSetupMap`, `lastParam`, `argvVec` and how the parse ended if it has. */
  datatype Pass = Pass(
    values: map<string, Data>,
    setup: map<string, seq<string>>,
    last: string,
    group: seq<string>,
    stop: Option<Outcome>)

  /**
   * Casts a non-empty group into `last` and records it in `parSetupMap`,
   * whose `insert` keeps an entry already there.
   */
  function Flush(p: Pass, io: Streams): Pass
    requires p.last in p.values && p.group != []
  {
    match Cast(p.values[p.last], p.group, io)
    case None => p.(stop := Some(Failure(UnknownError)))
    case Some(d) =>
      var setup := if p.last in p.setup then p.setup else p.setup[p.last := p.group];
      p.(values := p.values[p.last := d], setup := setup)
  }

  /**
   * One turn of the loop of `setup_flags`. A group met with no entry for
   * `lastParam` is the case `LeadingValuesDefined` rules out; the model
   * drops that group.
   */
  function Step(p: Pass, t: string, helpStr: string, versionLine: string, io: Streams): Pass
  {
    if p.stop.Some? then p
    else if !Bucketing.IsMarker(t, MarkerMinLen) then p.(group := p.group + [t])
    else
      var cur := Bucketing.MarkerName(t);
      if cur !in p.values then p.(stop := Some(Failure(InvalidMessage(cur))))
      else if cur == "help" then p.(stop := Some(EarlyExit(HelpExit(helpStr))))
      else if cur == "version" then p.(stop := Some(EarlyExit(versionLine)))
      else if p.group == [] then p.(last := cur)
      else if p.last !in p.values then p.(last := cur, group := [])
      else
        var q := Flush(p, io);
        if q.stop.Some? then q else q.(last := cur, group := [])
  }

  /** The loop over `toks`, from the globals and no option yet. */
  function Run(toks: seq<string>, values: map<string, Data>, setup: map<string, seq<string>>,
               helpStr: string, versionLine: string, io: Streams): (r: Pass)
    ensures r.values.Keys == values.Keys && (r.last == "" || r.last in r.values)
  {
    if |toks| == 0 then Pass(values, setup, "", [], None)
    else Step(Run(toks[..|toks| - 1], values, setup, helpStr, versionLine, io), toks[|toks| - 1], helpStr, versionLine, io)
  }

  /** After the loop: the last group is cast if there is one and an option to take it. */
  function Finish(p: Pass, io: Streams): (Outcome, map<string, Data>, map<string, seq<string>>)
    requires p.last == "" || p.last in p.values
  {
    if p.stop.Some? then (p.stop.value, p.values, p.setup)
    else if p.group != [] && p.last != "" then
      var q := Flush(p, io);
      (if q.stop.Some? then q.stop.value else Success, q.values, q.setup)
    else (Success, p.values, p.setup)
  }

  /** Everything `setup_flags` does after generating the help docs. */
  function Parse(values: map<string, Data>, setup: map<string, seq<string>>, helpStr: string,
                 argv: seq<string>, io: Streams): (Outcome, map<string, Data>, map<string, seq<string>>)
    requires WellFormed(values) && |argv| >= 1
  {
    Finish(Run(argv[1..], values, setup, helpStr, VersionLine(argv[0], VersionText(values)), io), io)
  }

  /** The loop after the token at `i`. */
  lemma RunAt(toks: seq<string>, i: nat, values: map<string, Data>, setup: map<string, seq<string>>,
              helpStr: string, versionLine: string, io: Streams)
    requires i < |toks|
    ensures Run(toks[..i + 1], values, setup, helpStr, versionLine, io)
      == Step(Run(toks[..i], values, setup, helpStr, versionLine, io), toks[i], helpStr, versionLine, io)
  {
    assert toks[..i + 1][..i] == toks[..i];
  }

  /** Before the first marker every token is a value; the token at the first marker is one. */
  lemma FirstMarkerAt(toks: seq<string>, i: nat)
    requires i < |toks| && i <= FirstMarker(toks)
    ensures !Bucketing.IsMarker(toks[i], MarkerMinLen) ==> i + 1 <= FirstMarker(toks)
    ensures Bucketing.IsMarker(toks[i], MarkerMinLen) ==> i == FirstMarker(toks)
  {
  }

  /** Once the loop has stopped, the later tokens change nothing. */
  lemma {:induction false} RunStops(toks: seq<string>, j: nat, values: map<string, Data>, setup: map<string, seq<string>>,
                                    helpStr: string, versionLine: string, io: Streams)
    requires j <= |toks| && Run(toks[..j], values, setup, helpStr, versionLine, io).stop.Some?
    ensures Run(toks, values, setup, helpStr, versionLine, io) == Run(toks[..j], values, setup, helpStr, versionLine, io)
    decreases |toks|
  {
    if j < |toks| {
      var n := |toks| - 1;
      assert toks[..n][..j] == toks[..j];
      RunStops(toks[..n], j, values, setup, helpStr, versionLine, io);
    } else {
      assert toks[..j] == toks;
    }
  }

  // ---------------------------------------------------------------------------
  // The globals

  /** The statics of `ns_flags` and `ns_flags::ns_priv`. */
  class Globals {
    /** The option variables, by name (`parFindMap` and what it points to). */
    var values: map<string, Data>
    /** `parDescMap`. */
    var descs: map<string, string>
    /** `parSetupMap`: the group each option received first. */
    var setupMap: map<string, seq<string>>
    var helpStr: string
    var autoGenHelpDocs: bool

    ghost predicate Valid()
      reads this
    {
      WellFormed(values) && descs.Keys == values.Keys
    }

    /** The state before `main`: the header's own `version` ("1.0") and `help` (false). */
    constructor ()
      ensures Valid()
      ensures values == map["version" := String("1.0"), "help" := Bool(false)]
      ensures descs == map[
        "version" := "the version of this program [default: 1.0]",
        "help" := "display the help docs [default: 0]"]
      ensures setupMap == map[] && helpStr == "" && autoGenHelpDocs
    {
      values := map[];
      descs := map[];
      setupMap := map[];
      helpStr := "";
      autoGenHelpDocs := true;
      new;
      Define("version", "the version of this program [default: 1.0]", String("1.0"));
      Define("help", "display the help docs [default: 0]", Bool(false));
    }

    /**
     * `DEFINE` / `DEFINE_VEC`: a variable holding `default`, registered with
     * its description. The names are C++ identifiers, so they are non-empty,
     * and a second definition of one is refused by the compiler.
     */
    method Define(name: string, desc: string, default: Data)
      requires name != "" && name !in values && Supported(default)
      requires name == "help" ==> default.Bool?
      requires name == "version" ==> default.String?
      requires descs.Keys == values.Keys
      requires "help" in values ==> values["help"].Bool?
      requires "version" in values ==> values["version"].String?
      requires forall n | n in values :: n != "" && Supported(values[n])
      modifies this`values, this`descs
      ensures values == old(values)[name := default] && descs == old(descs)[name := desc]
    {
      values := values[name := default];
      descs := descs[name := desc];
    }

    /** `setup_help`: stores the help text and turns auto-generation off. */
    method SetupHelp(str: string)
      modifies this`helpStr, this`autoGenHelpDocs
      ensures helpStr == str && !autoGenHelpDocs
    {
      autoGenHelpDocs := false;
      helpStr := str;
    }

    /** `setup_version`: overwrites the variable `version`. */
    method SetupVersion(version: string)
      requires Valid()
      modifies this`values
      ensures Valid() && values == old(values)["version" := String(version)]
      ensures VersionText(values) == version
    {
      values := values["version" := String(version)];
    }

    /** The generation of the help docs at the start of `setup_flags`. */
    method GenHelpDocs(programName: string)
      modifies this`helpStr
      ensures helpStr == if autoGenHelpDocs then HelpDocs(descs, programName) else old(helpStr)
    {
      if !autoGenHelpDocs {
        return;
      }
      helpStr := HelpHead(programName);
      var keys := SortKeys(descs.Keys);
      var rows := "";
      for i := 0 to |keys|
        invariant rows == HelpRows(keys[..i], descs)
      {
        assert keys[..i + 1][..i] == keys[..i];
        var row := "  --" + Pad(keys[i], 20) + descs[keys[i]] + "\n";
        assert row == HelpRow(keys[i], descs[keys[i]]);
        rows := rows + row;
      }
      assert keys[..|keys|] == keys;
      helpStr := helpStr + rows;
    }

    /**
     * The cast of `argvVec` into `lastParam` and its record in `parSetupMap`.
     * Every registered variable has a cast, so the `else` that throws
     * "unknow error happend" is never taken.
     */
    method FlushGroup(lastParam: string, argvVec: seq<string>, io: Streams)
      requires Valid() && lastParam in values && argvVec != []
      modifies this`values, this`setupMap
      ensures Valid()
      ensures var q := Flush(Pass(old(values), old(setupMap), lastParam, argvVec, None), io);
        q.stop.None? && values == q.values && setupMap == q.setup
    {
      var d := values[lastParam];
      if d.Int? || d.Bool? || d.String? {
        values := values[lastParam := ScalarCast(d, argvVec[0], io)];
      } else {
        var v := CastVector(d, argvVec, io);
        values := values[lastParam := v];
      }
      if lastParam !in setupMap {
        setupMap := setupMap[lastParam := argvVec];
      }
    }

    /**
     * One turn of the loop of `setup_flags`, for the token `tempStr`. A
     * registered marker other than `--help` and `--version` that follows a
     * group finds `lastParam` registered (`LeadingValuesDefined`).
     */
    method Visit(tempStr: string, lastParam: string, argvVec: seq<string>, helpText: string, versionLine: string, io: Streams)
      returns (lastParam': string, argvVec': seq<string>, stop: Option<Outcome>)
      requires Valid() && (lastParam == "" || lastParam in values)
      requires (argvVec != [] && Bucketing.IsMarker(tempStr, MarkerMinLen) && tempStr[2..] in values
                && tempStr[2..] != "help" && tempStr[2..] != "version") ==> lastParam in values
      modifies this`values, this`setupMap
      ensures Valid() && values.Keys == old(values).Keys && (lastParam' == "" || lastParam' in values)
      ensures Step(Pass(old(values), old(setupMap), lastParam, argvVec, None), tempStr, helpText, versionLine, io)
        == Pass(values, setupMap, lastParam', argvVec', stop)
    {
      lastParam', argvVec', stop := lastParam, argvVec, None;
      if !Bucketing.IsMarker(tempStr, MarkerMinLen) {
        argvVec' := argvVec + [tempStr];
        return;
      }
      var curParam := tempStr[2..];
      if curParam !in values {
        stop := Some(Failure(InvalidMessage(curParam)));
      } else if curParam == "help" {
        stop := Some(EarlyExit(HelpExit(helpText)));
      } else if curParam == "version" {
        stop := Some(EarlyExit(versionLine));
      } else {
        if argvVec != [] {
          FlushGroup(lastParam, argvVec, io);
        }
        argvVec' := [];
        lastParam' := curParam;
      }
    }

    /** `setup_flags`: generates the help docs if due, then reads the command line. */
    method SetupFlags(argv: seq<string>, io: Streams) returns (outcome: Outcome)
      requires Valid() && |argv| >= 1 && LeadingValuesDefined(argv[1..], values.Keys)
      modifies this`values, this`setupMap, this`helpStr
      ensures Valid()
      ensures helpStr == if autoGenHelpDocs then HelpDocs(descs, argv[0]) else old(helpStr)
      ensures (outcome, values, setupMap) == Parse(old(values), old(setupMap), helpStr, argv, io)
    {
      GenHelpDocs(argv[0]);
      outcome := ReadArguments(argv, io);
    }

    /** The loop of `setup_flags`: the state it ends in, with how it stopped if it did. */
    method Scan(toks: seq<string>, versionLine: string, io: Streams)
      returns (lastParam: string, argvVec: seq<string>, stop: Option<Outcome>)
      requires Valid() && LeadingValuesDefined(toks, values.Keys)
      modifies this`values, this`setupMap
      ensures Valid() && values.Keys == old(values).Keys
      ensures Run(toks, old(values), old(setupMap), helpStr, versionLine, io) == Pass(values, setupMap, lastParam, argvVec, stop)
    {
      ghost var values0, setup0 := values, setupMap;
      lastParam, argvVec, stop := "", [], None;
      var i := 0;
      while i < |toks| && stop.None?
        invariant 0 <= i <= |toks|
        invariant Valid() && values.Keys == values0.Keys && (lastParam == "" || lastParam in values)
        invariant Run(toks[..i], values0, setup0, helpStr, versionLine, io) == Pass(values, setupMap, lastParam, argvVec, stop)
        invariant stop.None? && lastParam == "" ==> i <= FirstMarker(toks)
        invariant argvVec != [] ==> i > 0
      {
        RunAt(toks, i, values0, setup0, helpStr, versionLine, io);
        if lastParam == "" {
          FirstMarkerAt(toks, i);
        }
        lastParam, argvVec, stop := Visit(toks[i], lastParam, argvVec, helpStr, versionLine, io);
        i := i + 1;
      }
      if stop.Some? {
        RunStops(toks, i, values0, setup0, helpStr, versionLine, io);
      } else {
        assert toks[..i] == toks;
      }
    }

    /** The loop of `setup_flags` and the cast of the last group. */
    method ReadArguments(argv: seq<string>, io: Streams) returns (outcome: Outcome)
      requires Valid() && |argv| >= 1 && LeadingValuesDefined(argv[1..], values.Keys)
      modifies this`values, this`setupMap
      ensures Valid()
      ensures (outcome, values, setupMap) == Parse(old(values), old(setupMap), helpStr, argv, io)
    {
      var versionLine := VersionLine(argv[0], VersionText(values));
      var lastParam, argvVec, stop := Scan(argv[1..], versionLine, io);
      if stop.Some? {
        return stop.value;
      }
      if argvVec != [] && lastParam != "" {
        FlushGroup(lastParam, argvVec, io);
      }
      outcome := Success;
    }
  }
}
