/**
 * What `SetupFlags` of `src/include/flags.hpp` promises, proved about
 * `Flags.Setup` and `Flags.Parse`: `--help` and `--version` cut the parse
 * short, an unregistered marker and a missing required option are errors
 * that leave the values alone, and otherwise each option ends up holding
 * its last bucket of values.
 */
module FlagsProperties {
  import opened Text
  import opened ArgType
  import opened Bucketing
  import opened Outcomes
  import opened Flags

  // ---------------------------------------------------------------------------
  // Tokens

  /** With markers longer than two characters, the stops are exactly `--help` and `--version`. */
  lemma IsStopText(t: string)
    ensures IsStop(t, MarkerMinLen) <==> t == "--help" || t == "--version"
  {
    if IsStop(t, MarkerMinLen) {
      assert t == "--" + MarkerName(t);
      assert "--" + "help" == "--help" && "--" + "version" == "--version";
    }
    if t == "--help" {
      assert MarkerName(t) == "help";
    }
    if t == "--version" {
      assert MarkerName(t) == "version";
    }
  }

  /** A marker names an option of one character or more: "--" is a value, "--a" a marker. */
  lemma MarkerNameLength(t: string)
    ensures IsAnOption(t) <==> |t| >= 2 && t[..2] == "--" && |t[2..]| >= 1
    ensures !IsAnOption("--") && IsAnOption("--a")
  {
    assert ("--")[..2] == "--" && ("--a")[..2] == "--";
  }

  /** An option with an empty name never gets a bucket. */
  lemma EmptyNameNeverBucketed(m: Registry, toks: seq<string>)
    ensures "" !in Buckets(m, toks)
  {
    ScanBuckets(toks, MarkerMinLen, DefaultOptionName);
  }

  /** No `--help` or `--version` among the tokens after the program name. */
  predicate NoStops(argv: seq<string>)
  {
    forall j | 1 <= j < |argv| :: argv[j] != "--help" && argv[j] != "--version"
  }

  lemma NoStopsFirstStop(argv: seq<string>)
    requires |argv| >= 1 && NoStops(argv)
    ensures FirstStop(argv[1..], MarkerMinLen).None?
  {
    var toks := argv[1..];
    forall k | 0 <= k < |toks| ensures !IsStop(toks[k], MarkerMinLen) {
      IsStopText(toks[k]);
      assert toks[k] == argv[k + 1];
    }
  }

  /** Every marker after the program name names a registered option. */
  predicate MarkersKnown(m: Registry, argv: seq<string>)
  {
    forall j | 1 <= j < |argv| && IsMarker(argv[j], MarkerMinLen) :: MarkerName(argv[j]) in m
  }

  /** All markers are registered exactly when the scan finds no unregistered name. */
  lemma MarkersKnownSpec(m: Registry, argv: seq<string>)
    requires |argv| >= 1
    ensures MarkersKnown(m, argv) <==> FirstUnknown(Scan(argv[1..], MarkerMinLen, DefaultOptionName).optNames, m.Keys).None?
  {
    var toks := argv[1..];
    var st := Scan(toks, MarkerMinLen, DefaultOptionName);
    ScanBuckets(toks, MarkerMinLen, DefaultOptionName);
    FirstUnknownSpec(st.optNames, m.Keys);
    if MarkersKnown(m, argv) {
      forall k | 0 <= k < |st.optNames| ensures st.optNames[k] in m {
        var n := st.optNames[k];
        assert n in st.optNames;
        var j := LastMention(toks, n, MarkerMinLen);
        assert toks[j] == argv[j + 1];
      }
    } else {
      var j :| 1 <= j < |argv| && IsMarker(argv[j], MarkerMinLen) && MarkerName(argv[j]) !in m;
      var n := MarkerName(argv[j]);
      assert toks[j - 1] == argv[j];
      assert LastMention(toks, n, MarkerMinLen) >= j - 1;
      assert n in st.optNames;
    }
  }

  /** The bucket of a registered option: its last run of values, if it has one. */
  lemma BucketsSpec(m: Registry, toks: seq<string>, name: string)
    requires name in m
    ensures BucketAt(Buckets(m, toks), name) ==
      if HasBucket(toks, name, DefaultOptionName, MarkerMinLen) then Some(Run(toks, name, MarkerMinLen)) else None
  {
    ScanBuckets(toks, MarkerMinLen, DefaultOptionName);
  }

  // ---------------------------------------------------------------------------
  // The assign-then-assert loop

  ghost predicate Distinct(names: seq<string>)
  {
    forall i, j | 0 <= i < j < |names| :: names[i] != names[j]
  }

  /** A failed assignment is a `stoi` error or the assertor's message naming the option. */
  lemma EntryOutcomeSpec(e: OptionEntry, bucket: seq<string>)
    ensures Assign(e.variable.value, bucket).threw ==> EntryOutcome(e, bucket) == Failure(StoiError)
    ensures EntryOutcome(e, bucket).Success? <==>
      !Assign(e.variable.value, bucket).threw
      && (e.assertor.None? || e.assertor.value(Assign(e.variable.value, bucket).data).None?)
    ensures !Assign(e.variable.value, bucket).threw && !EntryOutcome(e, bucket).Success? ==>
      && EntryOutcome(e, bucket).Failure?
      && Infix("'--" + e.optionName + "'", EntryOutcome(e, bucket).message)
  {
    AssertOptionValueSpec(AssignedEntry(e, bucket));
  }

  /** An entry fails with a `stoi` error or with its assertor's message. */
  lemma EntryFailureKinds(e: OptionEntry, bucket: seq<string>)
    ensures EntryOutcome(e, bucket).Success?
      || EntryOutcome(e, bucket) == Failure(StoiError)
      || exists text :: EntryOutcome(e, bucket) == Failure(AssertorMessage(e.optionName, text))
  {
    AssertOptionValueSpec(AssignedEntry(e, bucket));
  }

  /** Entries the loop is not given are never touched, whatever the outcome. */
  lemma {:induction false} AssignAllUntouched(names: seq<string>, b: map<string, seq<string>>, m: Registry)
    requires forall k | 0 <= k < |names| :: names[k] in b && names[k] in m
    ensures forall n | n in m && n !in names :: AssignAll(names, b, m).1[n] == m[n]
    decreases |names|
  {
    if |names| > 0 {
      var p := names[..|names| - 1];
      assert forall n | n !in names :: n !in p;
      AssignAllUntouched(p, b, m);
    }
  }

  /** Over distinct names, the loop succeeds exactly when each entry's own assignment does. */
  lemma {:induction false} AssignAllSuccess(names: seq<string>, b: map<string, seq<string>>, m: Registry)
    requires forall k | 0 <= k < |names| :: names[k] in b && names[k] in m
    requires Distinct(names)
    ensures AssignAll(names, b, m).0.Success? <==>
      forall k | 0 <= k < |names| :: EntryOutcome(m[names[k]], b[names[k]]).Success?
    decreases |names|
  {
    if |names| > 0 {
      var last := |names| - 1;
      var p := names[..last];
      var name := names[last];
      assert forall k | 0 <= k < last :: p[k] == names[k] && p[k] != name;
      assert Distinct(p);
      AssignAllSuccess(p, b, m);
      AssignAllSuccessLast(names, b, m);
    }
  }

  /** The last turn of the loop succeeds exactly when the earlier turns and the last entry's own assignment do. */
  lemma AssignAllSuccessLast(names: seq<string>, b: map<string, seq<string>>, m: Registry)
    requires forall k | 0 <= k < |names| :: names[k] in b && names[k] in m
    requires |names| > 0 && names[|names| - 1] !in names[..|names| - 1]
    ensures var name := names[|names| - 1];
      AssignAll(names, b, m).0.Success? <==>
        AssignAll(names[..|names| - 1], b, m).0.Success? && EntryOutcome(m[name], b[name]).Success?
  {
    AssignAllUntouched(names[..|names| - 1], b, m);
  }

  /** After a successful loop over distinct names, each named entry holds its bucket's values. */
  lemma {:induction false} AssignAllValues(names: seq<string>, b: map<string, seq<string>>, m: Registry)
    requires forall k | 0 <= k < |names| :: names[k] in b && names[k] in m
    requires Distinct(names) && AssignAll(names, b, m).0.Success?
    ensures forall k | 0 <= k < |names| :: AssignAll(names, b, m).1[names[k]] == AssignedEntry(m[names[k]], b[names[k]])
    decreases |names|
  {
    if |names| > 0 {
      var last := |names| - 1;
      var p := names[..last];
      assert forall k | 0 <= k < last :: p[k] == names[k] && p[k] != names[last];
      AssignAllValues(p, b, m);
      AssignAllUntouched(p, b, m);
    }
  }

  /** Over distinct names, a failed loop reports the failure of one entry's own assignment. */
  lemma {:induction false} AssignAllFailure(names: seq<string>, b: map<string, seq<string>>, m: Registry)
    requires forall k | 0 <= k < |names| :: names[k] in b && names[k] in m
    requires Distinct(names) && !AssignAll(names, b, m).0.Success?
    ensures exists k | 0 <= k < |names| :: AssignAll(names, b, m).0 == EntryOutcome(m[names[k]], b[names[k]])
    decreases |names|
  {
    var last := |names| - 1;
    var p := names[..last];
    var name := names[last];
    assert forall k | 0 <= k < last :: p[k] == names[k] && p[k] != name;
    if AssignAll(p, b, m).0.Success? {
      AssignAllUntouched(p, b, m);
      assert AssignAll(names, b, m).0 == EntryOutcome(m[names[last]], b[names[last]]);
    } else {
      AssignAllFailure(p, b, m);
    }
  }

  // ---------------------------------------------------------------------------
  // `--help` and `--version`

  /**
   * The first `--help` or `--version` after the program name ends the parse
   * at once: whatever else the line holds, nothing is assigned, and the
   * outcome carries the help text or the version line.
   */
  lemma ParseStops(m: Registry, argv: seq<string>, i: nat)
    requires Builtins(m)
    requires 1 <= i < |argv| && (argv[i] == "--help" || argv[i] == "--version")
    requires forall j | 1 <= j < i :: argv[j] != "--help" && argv[j] != "--version"
    ensures Parse(m, argv).1 == m
    ensures Parse(m, argv).0 == EarlyExit(
      if argv[i] == "--help" then m["help"].variable.defaultValue.text
      else argv[0] + ": ['version': '" + m["version"].variable.defaultValue.text + "']")
  {
    var toks := argv[1..];
    forall k | 0 <= k < i - 1 ensures !IsStop(toks[k], MarkerMinLen) {
      IsStopText(toks[k]);
      assert toks[k] == argv[k + 1];
    }
    IsStopText(argv[i]);
    assert toks[i - 1] == argv[i];
    FirstStopAt(toks, i - 1, MarkerMinLen);
    assert MarkerName(argv[i]) == argv[i][2..];
  }

  /** With auto-generation on, `--help` shows the generated docs, else the text `SetHelp` stored. */
  lemma SetupHelp(m: Registry, autoHelp: bool, autoVersion: bool, argv: seq<string>, i: nat)
    requires WellFormed(m)
    requires 1 <= i < |argv| && argv[i] == "--help"
    requires forall j | 1 <= j < i :: argv[j] != "--help" && argv[j] != "--version"
    ensures Setup(m, autoHelp, autoVersion, argv) == (
      EarlyExit(if autoHelp then HelpDocs(AutoVersioned(m, autoVersion), argv[0]) else m["help"].variable.defaultValue.text),
      Prepare(m, autoHelp, autoVersion, argv[0]))
  {
    SetDefaultText(m, "version", "1.0.0");
    var m1 := AutoVersioned(m, autoVersion);
    SetDefaultText(m1, "help", HelpDocs(m1, argv[0]));
    ParseStops(Prepare(m, autoHelp, autoVersion, argv[0]), argv, i);
  }

  /** With auto-generation on, `--version` reports "1.0.0", else the text `SetVersion` stored. */
  lemma SetupVersion(m: Registry, autoHelp: bool, autoVersion: bool, argv: seq<string>, i: nat)
    requires WellFormed(m)
    requires 1 <= i < |argv| && argv[i] == "--version"
    requires forall j | 1 <= j < i :: argv[j] != "--help" && argv[j] != "--version"
    ensures Setup(m, autoHelp, autoVersion, argv) == (
      EarlyExit(argv[0] + ": ['version': '" + (if autoVersion then "1.0.0" else m["version"].variable.defaultValue.text) + "']"),
      Prepare(m, autoHelp, autoVersion, argv[0]))
  {
    SetDefaultText(m, "version", "1.0.0");
    var m1 := AutoVersioned(m, autoVersion);
    SetDefaultText(m1, "help", HelpDocs(m1, argv[0]));
    ParseStops(Prepare(m, autoHelp, autoVersion, argv[0]), argv, i);
  }

  /** The auto-generated help docs list every registered option. */
  lemma SetupHelpListsOptions(m: Registry, autoVersion: bool, argv: seq<string>, i: nat, name: string)
    requires WellFormed(m) && name in m
    requires 1 <= i < |argv| && argv[i] == "--help"
    requires forall j | 1 <= j < i :: argv[j] != "--help" && argv[j] != "--version"
    ensures Setup(m, true, autoVersion, argv).0.EarlyExit?
    ensures Infix("--" + name, Setup(m, true, autoVersion, argv).0.message)
  {
    SetupHelp(m, true, autoVersion, argv, i);
    SetDefaultText(m, "version", "1.0.0");
    HelpDocsMentions(AutoVersioned(m, autoVersion), argv[0], name);
  }

  // ---------------------------------------------------------------------------
  // Errors before any assignment

  /** A marker naming no registered option is an error naming one such marker; nothing is assigned. */
  lemma ParseUnknown(m: Registry, argv: seq<string>, i: nat)
    requires Builtins(m) && NoStops(argv)
    requires 1 <= i < |argv| && IsMarker(argv[i], MarkerMinLen) && MarkerName(argv[i]) !in m
    ensures Parse(m, argv).1 == m
    ensures exists j | 1 <= j < |argv| ::
      && IsMarker(argv[j], MarkerMinLen) && MarkerName(argv[j]) !in m
      && Parse(m, argv).0 == Failure(UnknownMessage(MarkerName(argv[j])))
  {
    var toks := argv[1..];
    NoStopsFirstStop(argv);
    MarkersKnownSpec(m, argv);
    var st := Scan(toks, MarkerMinLen, DefaultOptionName);
    var n := FirstUnknown(st.optNames, m.Keys).value;
    FirstUnknownSpec(st.optNames, m.Keys);
    ScanBuckets(toks, MarkerMinLen, DefaultOptionName);
    var j := LastMention(toks, n, MarkerMinLen);
    assert toks[j] == argv[j + 1];
  }

  /**
   * With every marker registered, a required option without values is an
   * error naming an unsatisfied option; nothing is assigned.
   */
  lemma ParseRequired(m: Registry, argv: seq<string>, name: string)
    requires Builtins(m) && |argv| >= 1 && NoStops(argv) && MarkersKnown(m, argv)
    requires name in m && m[name].property == Required
    requires !HasBucket(argv[1..], name, DefaultOptionName, MarkerMinLen) || Run(argv[1..], name, MarkerMinLen) == []
    ensures Parse(m, argv).1 == m
    ensures exists n | n in m ::
      && Parse(m, argv).0 == Failure(RequiredMessage(n, BucketAt(Buckets(m, argv[1..]), n)))
      && !Satisfied(m[n], BucketAt(Buckets(m, argv[1..]), n))
  {
    var toks := argv[1..];
    var b := Buckets(m, toks);
    NoStopsFirstStop(argv);
    MarkersKnownSpec(m, argv);
    BucketsSpec(m, toks, name);
    var keys := SortedKeys(m.Keys);
    var k :| 0 <= k < |keys| && keys[k] == name;
    RequiredCheckPasses(keys, m, b);
    RequiredCheckNames(keys, m, b);
  }

  /** The message for a missing or empty required option names it. */
  lemma RequiredMessageNames(name: string, bucket: Option<seq<string>>)
    requires name != DefaultOptionName || bucket.Some?
    ensures Infix("--" + name, RequiredMessage(name, bucket))
  {
    var named := "the option named '--" + name;
    assert named[18..] == "--" + name;
    assert InfixAt("--" + name, named, 18);
    var tail := if bucket.None? then "' is 'OptionProp::REQUIRED', but you didn't use it"
      else "' is 'OptionProp::REQUIRED', you should pass some arguments to it";
    InfixLeft("--" + name, named, tail);
    InfixRight("--" + name, "[ error from 'lib-flags':'" + "SetupFlags" + "' ] ", named + tail);
    InfixLeft("--" + name, "[ error from 'lib-flags':'" + "SetupFlags" + "' ] " + (named + tail), ". (use option '--help' to get more info)");
  }

  // ---------------------------------------------------------------------------
  // Assignment

  /** Checking the options in sorted order checks all of them. */
  lemma RequiredAll(m: Registry, b: map<string, seq<string>>)
    ensures var keys := SortedKeys(m.Keys);
      (forall n | n in m :: Satisfied(m[n], BucketAt(b, n))) <==>
      forall k | 0 <= k < |keys| :: Satisfied(m[keys[k]], BucketAt(b, keys[k]))
  {
    var keys := SortedKeys(m.Keys);
    forall n | n in m ensures exists k | 0 <= k < |keys| :: keys[k] == n {
      assert n in keys;
    }
  }

  /** Assigning the buckets in sorted order assigns all of them. */
  lemma OutcomesAll(m: Registry, b: map<string, seq<string>>)
    requires forall n | n in b :: n in m
    ensures var names := SortedKeys(b.Keys);
      (forall n | n in b :: n in m && EntryOutcome(m[n], b[n]).Success?) <==>
      forall k | 0 <= k < |names| :: EntryOutcome(m[names[k]], b[names[k]]).Success?
  {
    var names := SortedKeys(b.Keys);
    forall n | n in b ensures exists k | 0 <= k < |names| :: names[k] == n {
      assert n in names;
    }
  }

  /**
   * The parse succeeds exactly when no `--help`/`--version` appears, every
   * marker is registered, every required option has values, and every
   * bucket assigns and passes its assertor.
   */
  lemma ParseSucceeds(m: Registry, argv: seq<string>)
    requires Builtins(m) && |argv| >= 1
    ensures var b := Buckets(m, argv[1..]);
      Parse(m, argv).0.Success? <==>
        && NoStops(argv) && MarkersKnown(m, argv)
        && (forall n | n in m :: Satisfied(m[n], BucketAt(b, n)))
        && (forall n | n in b :: n in m && EntryOutcome(m[n], b[n]).Success?)
  {
    var toks := argv[1..];
    var b := Buckets(m, toks);
    if NoStops(argv) {
      NoStopsFirstStop(argv);
      MarkersKnownSpec(m, argv);
      if MarkersKnown(m, argv) {
        KeptBucketsKnown(toks, MarkerMinLen, DefaultOptionName, m.Keys);
        RequiredCheckPasses(SortedKeys(m.Keys), m, b);
        RequiredAll(m, b);
        AssignAllSuccess(SortedKeys(b.Keys), b, m);
        OutcomesAll(m, b);
      }
    } else {
      var i :| 1 <= i < |argv| && (argv[i] == "--help" || argv[i] == "--version");
      // the first stop decides the outcome
      FirstStopFrom(m, argv, i);
    }
  }

  /** Some `--help` or `--version` on the line makes the parse stop early. */
  lemma {:induction false} FirstStopFrom(m: Registry, argv: seq<string>, i: nat)
    requires Builtins(m) && 1 <= i < |argv| && (argv[i] == "--help" || argv[i] == "--version")
    ensures Parse(m, argv).0.EarlyExit?
    decreases i
  {
    if forall j | 1 <= j < i :: argv[j] != "--help" && argv[j] != "--version" {
      ParseStops(m, argv, i);
    } else {
      var j :| 1 <= j < i && (argv[j] == "--help" || argv[j] == "--version");
      FirstStopFrom(m, argv, j);
    }
  }

  /**
   * After a successful parse each registered option holds what its last
   * bucket assigned, and an option without a bucket keeps its value.
   */
  lemma ParseAssigns(m: Registry, argv: seq<string>)
    requires Builtins(m) && |argv| >= 1 && Parse(m, argv).0.Success?
    ensures var b := Buckets(m, argv[1..]);
      forall n | n in m :: Parse(m, argv).1[n] == if n in b then AssignedEntry(m[n], b[n]) else m[n]
  {
    var toks := argv[1..];
    var b := Buckets(m, toks);
    ParseSucceeds(m, argv);
    NoStopsFirstStop(argv);
    MarkersKnownSpec(m, argv);
    KeptBucketsKnown(toks, MarkerMinLen, DefaultOptionName, m.Keys);
    var names := SortedKeys(b.Keys);
    AssignAllValues(names, b, m);
    AssignAllUntouched(names, b, m);
    forall n | n in m && n in b ensures n in names {
    }
  }

  /** Whatever the outcome, an option no bucket names keeps its entry. */
  lemma ParseKeepsUnmentioned(m: Registry, argv: seq<string>, name: string)
    requires Builtins(m) && |argv| >= 1 && name in m
    requires name !in Buckets(m, argv[1..])
    ensures Parse(m, argv).1[name] == m[name]
  {
    var toks := argv[1..];
    if FirstStop(toks, MarkerMinLen).None? && FirstUnknown(Scan(toks, MarkerMinLen, DefaultOptionName).optNames, m.Keys).None? {
      var b := Buckets(m, toks);
      KeptBucketsKnown(toks, MarkerMinLen, DefaultOptionName, m.Keys);
      AssignAllUntouched(SortedKeys(b.Keys), b, m);
    }
  }

  /** A failed parse reports one of the four errors `SetupFlags` throws. */
  lemma ParseFailures(m: Registry, argv: seq<string>)
    requires Builtins(m) && |argv| >= 1 && Parse(m, argv).0.Failure?
    ensures var msg := Parse(m, argv).0.message;
      || (exists n :: msg == UnknownMessage(n))
      || (exists n, bucket :: msg == RequiredMessage(n, bucket))
      || msg == StoiError
      || (exists n, text :: msg == AssertorMessage(n, text))
  {
    var toks := argv[1..];
    var st := Scan(toks, MarkerMinLen, DefaultOptionName);
    if FirstStop(toks, MarkerMinLen).None? && FirstUnknown(st.optNames, m.Keys).None? {
      var b := Buckets(m, toks);
      KeptBucketsKnown(toks, MarkerMinLen, DefaultOptionName, m.Keys);
      if RequiredCheck(SortedKeys(m.Keys), m, b).Some? {
        RequiredCheckNames(SortedKeys(m.Keys), m, b);
      } else {
        var names := SortedKeys(b.Keys);
        AssignAllFailure(names, b, m);
        var k :| 0 <= k < |names| && AssignAll(names, b, m).0 == EntryOutcome(m[names[k]], b[names[k]]);
        EntryFailureKinds(m[names[k]], b[names[k]]);
      }
    }
  }
}
