/**
 * What `setupFlags` of `flags-v2/src/include/flags-v2.hpp` promises, proved
 * about `FlagsV2.Setup` and `FlagsV2.Parse`:
 * - `--help` and `--version` cut the parse short.
 * - An unregistered marker and an absent required option are errors.
 * - A one-letter option name can never be given on the line.
 * - Otherwise each option mentioned on the line gets its last bucket.
 */
module FlagsV2Properties {
  import opened Text
  import opened ArgType
  import opened Bucketing
  import opened Outcomes
  import opened FlagsV2
  import Flags

  // ---------------------------------------------------------------------------
  // Tokens

  /** `toBool` converts exactly as `StrToBool` of the first parser does. */
  lemma ToBoolAgrees(str: string)
    ensures ToBool(str) == StrToBool(str)
  {
  }

  /** The stops are exactly `--help` and `--version`. */
  lemma IsStopText(t: string)
    ensures IsStop(t, MarkerMinLen) <==> t == "--help" || t == "--version"
  {
    if IsStop(t, MarkerMinLen) {
      assert t == "--" + MarkerName(t);
      assert "--" + "help" == "--help" && "--" + "version" == "--version";
    }
    if t == "--help" {
      assert MarkerName(t) == "help";
    }
    if t == "--version" {
      assert MarkerName(t) == "version";
    }
  }

  /** A marker needs a name of two characters or more: "--a" is a value, "--ab" a marker. */
  lemma MarkerNameLength(t: string)
    ensures IsAnOption(t) <==> |t| >= 2 && t[..2] == "--" && |t[2..]| >= 2
    ensures !IsAnOption("--a") && IsAnOption("--ab")
  {
    assert ("--a")[..2] == "--" && ("--ab")[..2] == "--";
  }

  /** An option whose name has fewer than two characters never gets a bucket. */
  lemma ShortNameNeverBucketed(t: Table, toks: seq<string>, name: string)
    requires |name| < 2
    ensures name !in Buckets(t, toks)
  {
    ScanBuckets(toks, MarkerMinLen, NoOptName);
  }

  /** No `--help` or `--version` among the tokens after the program name. */
  predicate NoStops(argv: seq<string>)
  {
    forall j | 1 <= j < |argv| :: argv[j] != "--help" && argv[j] != "--version"
  }

  lemma NoStopsFirstStop(argv: seq<string>)
    requires |argv| >= 1 && NoStops(argv)
    ensures FirstStop(argv[1..], MarkerMinLen).None?
  {
    var toks := argv[1..];
    forall k | 0 <= k < |toks| ensures !IsStop(toks[k], MarkerMinLen) {
      IsStopText(toks[k]);
      assert toks[k] == argv[k + 1];
    }
  }

  /** Every marker after the program name names a registered option. */
  predicate MarkersKnown(t: Table, argv: seq<string>)
  {
    forall j | 1 <= j < |argv| && IsMarker(argv[j], MarkerMinLen) :: MarkerName(argv[j]) in t
  }

  /** All markers are registered exactly when the scan finds no unregistered name. */
  lemma MarkersKnownSpec(t: Table, argv: seq<string>)
    requires |argv| >= 1
    ensures MarkersKnown(t, argv) <==> FirstUnknown(Scan(argv[1..], MarkerMinLen, NoOptName).optNames, t.Keys).None?
  {
    var toks := argv[1..];
    var st := Scan(toks, MarkerMinLen, NoOptName);
    ScanBuckets(toks, MarkerMinLen, NoOptName);
    FirstUnknownSpec(st.optNames, t.Keys);
    if MarkersKnown(t, argv) {
      forall k | 0 <= k < |st.optNames| ensures st.optNames[k] in t {
        var n := st.optNames[k];
        assert n in st.optNames;
        var j := LastMention(toks, n, MarkerMinLen);
        assert toks[j] == argv[j + 1];
      }
    } else {
      var j :| 1 <= j < |argv| && IsMarker(argv[j], MarkerMinLen) && MarkerName(argv[j]) !in t;
      var n := MarkerName(argv[j]);
      assert toks[j - 1] == argv[j];
      assert LastMention(toks, n, MarkerMinLen) >= j - 1;
      assert n in st.optNames;
    }
  }

  /** The bucket of a registered option: its last run of values, if it has one. */
  lemma BucketsSpec(t: Table, toks: seq<string>, name: string)
    requires name in t
    ensures name in Buckets(t, toks) <==> HasBucket(toks, name, NoOptName, MarkerMinLen)
    ensures name in Buckets(t, toks) ==> Buckets(t, toks)[name] == Run(toks, name, MarkerMinLen)
  {
    ScanBuckets(toks, MarkerMinLen, NoOptName);
  }

  // ---------------------------------------------------------------------------
  // One bucket

  /** An empty bucket leaves every variable alone, except that a `bool` becomes true. */
  lemma AssignV2Empty(d: Data)
    ensures AssignV2(d, []) == Assigned(if d.Bool? then Bool(true) else d, false)
  {
  }

  /**
   * On `int`, `bool` and `string` variables this version assigns exactly as
   * the first parser's `DataFromStringVector` does.
   */
  lemma AssignV2Scalars(d: Data, bucket: seq<string>)
    requires d.Int? || d.Bool? || d.String?
    ensures AssignV2(d, bucket) == Assign(d, bucket)
  {
    if d.Bool? && bucket != [] {
      ToBoolAgrees(bucket[0]);
    }
  }

  /**
   * An empty bucket keeps a vector's old elements here, where the first
   * parser's `DataFromStringVector` empties it.
   */
  lemma VectorsKeptOnEmpty(v: seq<int>)
    requires v != []
    ensures AssignV2(IntVec(v), []).data == IntVec(v)
    ensures Assign(IntVec(v), []).data == IntVec([])
  {
    assert Resize(v, 0, 0) == [];
  }

  /**
   * A non-empty bucket replaces a vector: the assignment throws exactly when
   * some token does not convert, and otherwise the vector holds one
   * converted element per token, in order.
   */
  lemma AssignV2Vectors(d: Data, bucket: seq<string>)
    requires d.IntVec? || d.BoolVec? || d.StringVec?
    requires bucket != []
    ensures d.IntVec? ==> var r := AssignV2(d, bucket);
      && (r.threw <==> exists k | 0 <= k < |bucket| :: Stoi(bucket[k]).None?)
      && (!r.threw ==> |r.data.iv| == |bucket| && forall k | 0 <= k < |bucket| :: Some(r.data.iv[k]) == Stoi(bucket[k]))
    ensures d.BoolVec? ==> var r := AssignV2(d, bucket);
      && (r.threw <==> exists k | 0 <= k < |bucket| :: ToBool(bucket[k]).None?)
      && (!r.threw ==> |r.data.bv| == |bucket| && forall k | 0 <= k < |bucket| :: Some(r.data.bv[k]) == ToBool(bucket[k]))
    ensures d.StringVec? ==> AssignV2(d, bucket) == Assigned(StringVec(bucket), false)
  {
    PushAllSpec(bucket, Stoi);
    PushAllSpec(bucket, ToBool);
  }

  // ---------------------------------------------------------------------------
  // The assignment loop

  ghost predicate Distinct(names: seq<string>)
  {
    forall i, j | 0 <= i < j < |names| :: names[i] != names[j]
  }

  /** Entries the loop is not given are never touched, whatever the outcome. */
  lemma {:induction false} AssignAllUntouched(names: seq<string>, b: map<string, seq<string>>, t: Table)
    requires forall k | 0 <= k < |names| :: names[k] in b && names[k] in t
    ensures forall n | n in t && n !in names :: AssignAll(names, b, t).1[n] == t[n]
    decreases |names|
  {
    if |names| > 0 {
      var p := names[..|names| - 1];
      assert forall n | n !in names :: n !in p;
      AssignAllUntouched(p, b, t);
    }
  }

  /** Over distinct names, the loop succeeds exactly when no entry's own assignment throws. */
  lemma {:induction false} AssignAllSuccess(names: seq<string>, b: map<string, seq<string>>, t: Table)
    requires forall k | 0 <= k < |names| :: names[k] in b && names[k] in t
    requires Distinct(names)
    ensures AssignAll(names, b, t).0.Success? <==>
      forall k | 0 <= k < |names| :: !AssignV2(t[names[k]].value, b[names[k]]).threw
    decreases |names|
  {
    if |names| > 0 {
      var last := |names| - 1;
      var p := names[..last];
      assert forall k | 0 <= k < last :: p[k] == names[k] && p[k] != names[last];
      AssignAllSuccess(p, b, t);
      AssignAllUntouched(p, b, t);
    }
  }

  /** After a successful loop over distinct names, each named entry holds its bucket's values. */
  lemma {:induction false} AssignAllValues(names: seq<string>, b: map<string, seq<string>>, t: Table)
    requires forall k | 0 <= k < |names| :: names[k] in b && names[k] in t
    requires Distinct(names) && AssignAll(names, b, t).0.Success?
    ensures forall k | 0 <= k < |names| :: AssignAll(names, b, t).1[names[k]] == AssignedOption(t[names[k]], b[names[k]])
    decreases |names|
  {
    if |names| > 0 {
      var last := |names| - 1;
      var p := names[..last];
      assert forall k | 0 <= k < last :: p[k] == names[k] && p[k] != names[last];
      AssignAllValues(p, b, t);
      AssignAllUntouched(p, b, t);
    }
  }

  /** The loop only ever fails with the `stoi` error. */
  lemma {:induction false} AssignAllFailure(names: seq<string>, b: map<string, seq<string>>, t: Table)
    requires forall k | 0 <= k < |names| :: names[k] in b && names[k] in t
    ensures AssignAll(names, b, t).0 == Success || AssignAll(names, b, t).0 == Failure(Flags.StoiError)
    decreases |names|
  {
    if |names| > 0 {
      AssignAllFailure(names[..|names| - 1], b, t);
    }
  }

  // ---------------------------------------------------------------------------
  // `--help` and `--version`

  /**
   * The first `--help` or `--version` after the program name ends the parse
   * at once: nothing is assigned, and the outcome carries the help text or
   * the version line.
   */
  lemma ParseStops(t: Table, argv: seq<string>, i: nat)
    requires Builtins(t)
    requires 1 <= i < |argv| && (argv[i] == "--help" || argv[i] == "--version")
    requires forall j | 1 <= j < i :: argv[j] != "--help" && argv[j] != "--version"
    ensures Parse(t, argv).1 == t
    ensures Parse(t, argv).0 == EarlyExit(
      if argv[i] == "--help" then t["help"].defaultValue.text
      else argv[0] + ": ['version': '" + t["version"].defaultValue.text + "']")
  {
    var toks := argv[1..];
    forall k | 0 <= k < i - 1 ensures !IsStop(toks[k], MarkerMinLen) {
      IsStopText(toks[k]);
      assert toks[k] == argv[k + 1];
    }
    IsStopText(argv[i]);
    assert toks[i - 1] == argv[i];
    FirstStopAt(toks, i - 1, MarkerMinLen);
    assert MarkerName(argv[i]) == argv[i][2..];
  }

  /** With auto-generation on, `--help` shows the generated docs, else the text `setHelpDocs` stored. */
  lemma SetupHelp(t: Table, autoHelp: bool, autoVersion: bool, argv: seq<string>, i: nat)
    requires WellFormed(t)
    requires 1 <= i < |argv| && argv[i] == "--help"
    requires forall j | 1 <= j < i :: argv[j] != "--help" && argv[j] != "--version"
    ensures var t1 := if autoVersion then SetText(t, "version", "1.0.0") else t;
      Setup(t, autoHelp, autoVersion, argv) == (
        EarlyExit(if autoHelp then HelpDocs(t1, argv[0]) else t["help"].defaultValue.text),
        Prepare(t, autoHelp, autoVersion, argv[0]))
  {
    ParseStops(Prepare(t, autoHelp, autoVersion, argv[0]), argv, i);
  }

  /** With auto-generation on, `--version` reports "1.0.0", else the text `setVersion` stored. */
  lemma SetupVersion(t: Table, autoHelp: bool, autoVersion: bool, argv: seq<string>, i: nat)
    requires WellFormed(t)
    requires 1 <= i < |argv| && argv[i] == "--version"
    requires forall j | 1 <= j < i :: argv[j] != "--help" && argv[j] != "--version"
    ensures Setup(t, autoHelp, autoVersion, argv) == (
      EarlyExit(argv[0] + ": ['version': '" + (if autoVersion then "1.0.0" else t["version"].defaultValue.text) + "']"),
      Prepare(t, autoHelp, autoVersion, argv[0]))
  {
    ParseStops(Prepare(t, autoHelp, autoVersion, argv[0]), argv, i);
  }

  /** The auto-generated help docs list every registered option but `__NOPT__`. */
  lemma SetupHelpListsOptions(t: Table, autoVersion: bool, argv: seq<string>, i: nat, name: string)
    requires WellFormed(t) && name in t && name != NoOptName
    requires 1 <= i < |argv| && argv[i] == "--help"
    requires forall j | 1 <= j < i :: argv[j] != "--help" && argv[j] != "--version"
    ensures Setup(t, true, autoVersion, argv).0.EarlyExit?
    ensures Infix("--" + name, Setup(t, true, autoVersion, argv).0.message)
  {
    SetupHelp(t, true, autoVersion, argv, i);
    var t1 := if autoVersion then SetText(t, "version", "1.0.0") else t;
    HelpDocsMentions(t1, argv[0], name);
  }

  /** The auto-generated help docs list the `__NOPT__` option as `--no-opt`. */
  lemma SetupHelpListsNoOpt(t: Table, autoVersion: bool, argv: seq<string>, i: nat)
    requires WellFormed(t) && NoOptName in t
    requires 1 <= i < |argv| && argv[i] == "--help"
    requires forall j | 1 <= j < i :: argv[j] != "--help" && argv[j] != "--version"
    ensures Setup(t, true, autoVersion, argv).0.EarlyExit?
    ensures Infix("--no-opt", Setup(t, true, autoVersion, argv).0.message)
  {
    SetupHelp(t, true, autoVersion, argv, i);
    var t1 := if autoVersion then SetText(t, "version", "1.0.0") else t;
    HelpDocsMentionsNoOpt(t1, argv[0]);
  }

  // ---------------------------------------------------------------------------
  // Errors before any assignment

  /** A marker naming no registered option is an error naming one such marker; nothing is assigned. */
  lemma ParseUnknown(t: Table, argv: seq<string>, i: nat)
    requires Builtins(t) && NoStops(argv)
    requires 1 <= i < |argv| && IsMarker(argv[i], MarkerMinLen) && MarkerName(argv[i]) !in t
    ensures Parse(t, argv).1 == t
    ensures exists j | 1 <= j < |argv| ::
      && IsMarker(argv[j], MarkerMinLen) && MarkerName(argv[j]) !in t
      && Parse(t, argv).0 == Failure(UnknownMessage(MarkerName(argv[j])))
  {
    var toks := argv[1..];
    NoStopsFirstStop(argv);
    MarkersKnownSpec(t, argv);
    var st := Scan(toks, MarkerMinLen, NoOptName);
    var n := FirstUnknown(st.optNames, t.Keys).value;
    FirstUnknownSpec(st.optNames, t.Keys);
    ScanBuckets(toks, MarkerMinLen, NoOptName);
    var j := LastMention(toks, n, MarkerMinLen);
    assert toks[j] == argv[j + 1];
  }

  /** The required check over the sorted names looks at every option, and only at presence. */
  lemma RequiredAll(t: Table, b: map<string, seq<string>>)
    ensures MissingRequired(SortedKeys(t.Keys), t, b).None? <==>
      forall n | n in t && t[n].prop == Flags.Required :: n in b
  {
    var keys := SortedKeys(t.Keys);
    MissingRequiredSpec(keys, t, b);
    forall n | n in t ensures exists k | 0 <= k < |keys| :: keys[k] == n {
      assert n in keys;
    }
  }

  /**
   * With every marker registered, a required option that never appears is
   * an error naming a required option that never appears; nothing is
   * assigned.
   */
  lemma ParseMissing(t: Table, argv: seq<string>, name: string)
    requires Builtins(t) && |argv| >= 1 && NoStops(argv) && MarkersKnown(t, argv)
    requires name in t && t[name].prop == Flags.Required && name !in Buckets(t, argv[1..])
    ensures Parse(t, argv).1 == t
    ensures exists n | n in t ::
      && Parse(t, argv).0 == Failure(MissingMessage(n))
      && t[n].prop == Flags.Required && n !in Buckets(t, argv[1..])
  {
    var toks := argv[1..];
    var b := Buckets(t, toks);
    NoStopsFirstStop(argv);
    MarkersKnownSpec(t, argv);
    RequiredAll(t, b);
    MissingRequiredSpec(SortedKeys(t.Keys), t, b);
  }

  /** A required option that appears, even with no values after it, passes the check. */
  lemma RequiredPresenceOnly(t: Table, b: map<string, seq<string>>, name: string)
    requires name in t && t[name].prop == Flags.Required && name in b && b[name] == []
    requires forall n | n in t && n != name && t[n].prop == Flags.Required :: n in b
    ensures MissingRequired(SortedKeys(t.Keys), t, b).None?
  {
    RequiredAll(t, b);
  }

  // ---------------------------------------------------------------------------
  // Assignment

  /** Assigning the buckets in sorted order assigns all of them. */
  lemma OutcomesAll(t: Table, b: map<string, seq<string>>)
    requires forall n | n in b :: n in t
    ensures var names := SortedKeys(b.Keys);
      (forall n | n in b :: n in t && !AssignV2(t[n].value, b[n]).threw) <==>
      forall k | 0 <= k < |names| :: !AssignV2(t[names[k]].value, b[names[k]]).threw
  {
    var names := SortedKeys(b.Keys);
    forall n | n in b ensures exists k | 0 <= k < |names| :: names[k] == n {
      assert n in names;
    }
  }

  /**
   * The parse succeeds exactly when no `--help`/`--version` appears, every
   * marker is registered, every required option appears, and no bucket's
   * conversion throws.
   */
  lemma ParseSucceeds(t: Table, argv: seq<string>)
    requires Builtins(t) && |argv| >= 1
    ensures var b := Buckets(t, argv[1..]);
      Parse(t, argv).0.Success? <==>
        && NoStops(argv) && MarkersKnown(t, argv)
        && (forall n | n in t && t[n].prop == Flags.Required :: n in b)
        && (forall n | n in b :: n in t && !AssignV2(t[n].value, b[n]).threw)
  {
    var toks := argv[1..];
    var b := Buckets(t, toks);
    if NoStops(argv) {
      NoStopsFirstStop(argv);
      MarkersKnownSpec(t, argv);
      if MarkersKnown(t, argv) {
        KeptBucketsKnown(toks, MarkerMinLen, NoOptName, t.Keys);
        RequiredAll(t, b);
        AssignAllSuccess(SortedKeys(b.Keys), b, t);
        OutcomesAll(t, b);
      }
    } else {
      var i :| 1 <= i < |argv| && (argv[i] == "--help" || argv[i] == "--version");
      FirstStopFrom(t, argv, i);
    }
  }

  /** Some `--help` or `--version` on the line makes the parse stop early. */
  lemma {:induction false} FirstStopFrom(t: Table, argv: seq<string>, i: nat)
    requires Builtins(t) && 1 <= i < |argv| && (argv[i] == "--help" || argv[i] == "--version")
    ensures Parse(t, argv).0.EarlyExit?
    decreases i
  {
    if forall j | 1 <= j < i :: argv[j] != "--help" && argv[j] != "--version" {
      ParseStops(t, argv, i);
    } else {
      var j :| 1 <= j < i && (argv[j] == "--help" || argv[j] == "--version");
      FirstStopFrom(t, argv, j);
    }
  }

  /**
   * After a successful parse each option named on the line holds what its
   * last bucket assigned, and every other option keeps its value.
   */
  lemma ParseAssigns(t: Table, argv: seq<string>)
    requires Builtins(t) && |argv| >= 1 && Parse(t, argv).0.Success?
    ensures var b := Buckets(t, argv[1..]);
      forall n | n in t :: Parse(t, argv).1[n] == if n in b then AssignedOption(t[n], b[n]) else t[n]
  {
    var toks := argv[1..];
    var b := Buckets(t, toks);
    ParseSucceeds(t, argv);
    NoStopsFirstStop(argv);
    MarkersKnownSpec(t, argv);
    KeptBucketsKnown(toks, MarkerMinLen, NoOptName, t.Keys);
    var names := SortedKeys(b.Keys);
    AssignAllValues(names, b, t);
    AssignAllUntouched(names, b, t);
    forall n | n in t && n in b ensures n in names {
    }
  }

  /** Whatever the outcome, an option no bucket names keeps its entry. */
  lemma ParseKeepsUnmentioned(t: Table, argv: seq<string>, name: string)
    requires Builtins(t) && |argv| >= 1 && name in t
    requires name !in Buckets(t, argv[1..])
    ensures Parse(t, argv).1[name] == t[name]
  {
    var toks := argv[1..];
    if FirstStop(toks, MarkerMinLen).None? && FirstUnknown(Scan(toks, MarkerMinLen, NoOptName).optNames, t.Keys).None? {
      var b := Buckets(t, toks);
      KeptBucketsKnown(toks, MarkerMinLen, NoOptName, t.Keys);
      AssignAllUntouched(SortedKeys(b.Keys), b, t);
    }
  }

  /** A failed parse reports one of the three errors `setupFlags` throws. */
  lemma ParseFailures(t: Table, argv: seq<string>)
    requires Builtins(t) && |argv| >= 1 && Parse(t, argv).0.Failure?
    ensures var msg := Parse(t, argv).0.message;
      || (exists n :: msg == UnknownMessage(n))
      || (exists n :: msg == MissingMessage(n))
      || msg == Flags.StoiError
  {
    var toks := argv[1..];
    var st := Scan(toks, MarkerMinLen, NoOptName);
    if FirstStop(toks, MarkerMinLen).None? && FirstUnknown(st.optNames, t.Keys).None? {
      var b := Buckets(t, toks);
      KeptBucketsKnown(toks, MarkerMinLen, NoOptName, t.Keys);
      if MissingRequired(SortedKeys(t.Keys), t, b).None? {
        AssignAllFailure(SortedKeys(b.Keys), b, t);
      }
    }
  }
}
