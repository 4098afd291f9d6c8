/**
 * What `setup_flags` of `flags-macro` guarantees, proved about
 * `FlagsMacro.Parse`: how a group is cast, what leading values and bare
 * flags do, that `parSetupMap` keeps the first group an option received
 * while the variable takes the last, which variables a command line can
 * change, and every way a parse can end.
 */
module FlagsMacroProperties {
  import opened Text
  import opened ArgType
  import opened Outcomes
  import Bucketing
  import opened FlagsMacro

  // ---------------------------------------------------------------------------
  // The casts

  /** Every variable `DEFINE` or `DEFINE_VEC` declares has a cast, and casting keeps its type. */
  lemma CastDefined(d: Data, group: seq<string>, io: Streams)
    requires Supported(d) && group != []
    ensures Cast(d, group, io).Some? && SameKind(Cast(d, group, io).value, d)
  {
  }

  /** A scalar variable reads the first value of its group. */
  lemma ScalarTakesFront(d: Data, group: seq<string>, io: Streams)
    requires group != [] && (d.Int? || d.Bool? || d.String?)
    ensures Cast(d, group, io) == Cast(d, [group[0]], io)
  {
  }

  /** Each string a string vector gets is read into the previous one (the first into ""). */
  lemma {:induction false} ReadWordsSpec(strVec: seq<string>, io: Streams)
    ensures forall k | 0 <= k < |strVec| ::
      ReadWords(strVec, io)[k] == io.readWord(PrevWord(ReadWords(strVec, io), k), strVec[k])
  {
    if |strVec| > 0 {
      var n := |strVec| - 1;
      ReadWordsSpec(strVec[..n], io);
      var p := ReadWords(strVec[..n], io);
      var r := ReadWords(strVec, io);
      assert r == p + [io.readWord(PrevWord(p, n), strVec[n])];
      forall k | 0 <= k < |strVec| ensures r[k] == io.readWord(PrevWord(r, k), strVec[k]) {
        if k < n {
          assert p[k] == io.readWord(PrevWord(p, k), strVec[..n][k]);
          assert PrevWord(r, k) == PrevWord(p, k);
        } else {
          assert PrevWord(r, k) == PrevWord(p, n);
        }
      }
    }
  }

  /** A vector variable is cleared and gets one element per value, in order. */
  lemma VectorOnePerValue(d: Data, group: seq<string>, io: Streams)
    requires group != [] && (d.IntVec? || d.BoolVec? || d.StringVec?)
    ensures var r := Cast(d, group, io).value;
      && (d.IntVec? ==> r.IntVec? && |r.iv| == |group| && forall k | 0 <= k < |group| :: r.iv[k] == io.readInt(group[k]))
      && (d.BoolVec? ==> r.BoolVec? && |r.bv| == |group| && forall k | 0 <= k < |group| :: r.bv[k] == io.readBool(group[k]))
      && (d.StringVec? ==>
            && r.StringVec? && |r.sv| == |group|
            && forall k | 0 <= k < |group| :: r.sv[k] == io.readWord(PrevWord(r.sv, k), group[k]))
  {
    ReadWordsSpec(group, io);
  }

  // ---------------------------------------------------------------------------
  // The loop over the command line

  predicate NoMarkers(toks: seq<string>)
  {
    forall k | 0 <= k < |toks| :: !Bucketing.IsMarker(toks[k], MarkerMinLen)
  }

  /** `--name` appears among the tokens. */
  ghost predicate Mentioned(toks: seq<string>, name: string)
  {
    exists k | 0 <= k < |toks| :: Bucketing.IsMarker(toks[k], MarkerMinLen) && Bucketing.MarkerName(toks[k]) == name
  }

  /** One more token after `s`. */
  lemma RunSnoc(s: seq<string>, t: string, values: map<string, Data>, setup: map<string, seq<string>>,
                helpStr: string, versionLine: string, io: Streams)
    ensures Run(s + [t], values, setup, helpStr, versionLine, io)
      == Step(Run(s, values, setup, helpStr, versionLine, io), t, helpStr, versionLine, io)
  {
    assert (s + [t])[..|s|] == s;
  }

  /** Values extend the pending group and change nothing else. */
  lemma {:induction false} ValuesExtendGroup(s: seq<string>, vals: seq<string>, values: map<string, Data>,
                                             setup: map<string, seq<string>>, helpStr: string, versionLine: string, io: Streams)
    requires NoMarkers(vals) && Run(s, values, setup, helpStr, versionLine, io).stop.None?
    ensures var p := Run(s, values, setup, helpStr, versionLine, io);
      Run(s + vals, values, setup, helpStr, versionLine, io) == p.(group := p.group + vals)
    decreases |vals|
  {
    if vals != [] {
      var n := |vals| - 1;
      assert (s + vals)[..|s + vals| - 1] == s + vals[..n];
      ValuesExtendGroup(s, vals[..n], values, setup, helpStr, versionLine, io);
      assert !Bucketing.IsMarker(vals[n], MarkerMinLen);
      assert vals[..n] + [vals[n]] == vals;
    } else {
      assert s + vals == s;
    }
  }

  /** After the loop has stopped, nothing more happens. */
  lemma StoppedStaysStopped(s: seq<string>, rest: seq<string>, values: map<string, Data>, setup: map<string, seq<string>>,
                            helpStr: string, versionLine: string, io: Streams)
    requires Run(s, values, setup, helpStr, versionLine, io).stop.Some?
    ensures Run(s + rest, values, setup, helpStr, versionLine, io) == Run(s, values, setup, helpStr, versionLine, io)
  {
    assert (s + rest)[..|s|] == s;
    RunStops(s + rest, |s|, values, setup, helpStr, versionLine, io);
  }

  /** Values before any marker belong to no option. */
  lemma LeadingValues(vals: seq<string>, values: map<string, Data>, setup: map<string, seq<string>>,
                      helpStr: string, versionLine: string, io: Streams)
    requires NoMarkers(vals)
    ensures Run(vals, values, setup, helpStr, versionLine, io) == Pass(values, setup, "", vals, None)
  {
    ValuesExtendGroup([], vals, values, setup, helpStr, versionLine, io);
    assert [] + vals == vals;
  }

  /** The command line after the program name. */
  lemma ParseTokens(values: map<string, Data>, setup: map<string, seq<string>>, helpStr: string, prog: string,
                    toks: seq<string>, io: Streams)
    requires WellFormed(values)
    ensures Parse(values, setup, helpStr, [prog] + toks, io)
      == Finish(Run(toks, values, setup, helpStr, VersionLine(prog, VersionText(values)), io), io)
  {
    assert ([prog] + toks)[1..] == toks;
  }

  /** A command line of values only changes nothing and succeeds. */
  lemma OnlyValuesIgnored(values: map<string, Data>, setup: map<string, seq<string>>, helpStr: string, prog: string,
                          vals: seq<string>, io: Streams)
    requires WellFormed(values) && NoMarkers(vals)
    ensures Parse(values, setup, helpStr, [prog] + vals, io) == (Success, values, setup)
  {
    ParseTokens(values, setup, helpStr, prog, vals, io);
    LeadingValues(vals, values, setup, helpStr, VersionLine(prog, VersionText(values)), io);
  }

  /**
   * How the first marker, after any values, ends the parse: an unregistered
   * name fails at once naming `--name`, `--help` throws the help text and
   * "\nProgram Help Docs", `--version` the program name and the version.
   */
  lemma FirstMarkerStops(values: map<string, Data>, setup: map<string, seq<string>>, helpStr: string, prog: string,
                         vals: seq<string>, m: string, rest: seq<string>, io: Streams)
    requires WellFormed(values) && NoMarkers(vals) && Bucketing.IsMarker(m, MarkerMinLen)
    ensures var name := Bucketing.MarkerName(m);
      var r := Parse(values, setup, helpStr, [prog] + (vals + [m] + rest), io);
      && (name !in values ==> r == (Failure(InvalidMessage(name)), values, setup))
      && (name == "help" ==> r == (EarlyExit(helpStr + "\nProgram Help Docs"), values, setup))
      && (name == "version" ==> r == (EarlyExit(prog + " version: " + VersionText(values)), values, setup))
  {
    var versionLine := VersionLine(prog, VersionText(values));
    ParseTokens(values, setup, helpStr, prog, vals + [m] + rest, io);
    LeadingValues(vals, values, setup, helpStr, versionLine, io);
    RunSnoc(vals, m, values, setup, helpStr, versionLine, io);
    var name := Bucketing.MarkerName(m);
    if name !in values || name == "help" || name == "version" {
      StoppedStaysStopped(vals + [m], rest, values, setup, helpStr, versionLine, io);
    }
  }

  /** `--name` with no values leaves every variable as it is: a `bool` flag is not set by naming it. */
  lemma BareFlag(values: map<string, Data>, setup: map<string, seq<string>>, helpStr: string, prog: string,
                 name: string, io: Streams)
    requires WellFormed(values) && name in values && name != "help" && name != "version"
    ensures Parse(values, setup, helpStr, [prog, "--" + name], io) == (Success, values, setup)
  {
    var versionLine := VersionLine(prog, VersionText(values));
    var m := "--" + name;
    assert [prog, m] == [prog] + ([] + [m]);
    ParseTokens(values, setup, helpStr, prog, [] + [m], io);
    RunSnoc([], m, values, setup, helpStr, versionLine, io);
    assert m[..2] == "--" && m[2..] == name;
  }

  /** `--name` followed by values casts them into `name`, and `parSetupMap` records them unless it has `name` already. */
  lemma OneOption(values: map<string, Data>, setup: map<string, seq<string>>, helpStr: string, prog: string,
                  name: string, vals: seq<string>, io: Streams)
    requires WellFormed(values) && name in values && name != "help" && name != "version"
    requires vals != [] && NoMarkers(vals)
    ensures Parse(values, setup, helpStr, [prog] + ([("--" + name)] + vals), io)
      == (Success, values[name := Cast(values[name], vals, io).value],
          if name in setup then setup else setup[name := vals])
  {
    var versionLine := VersionLine(prog, VersionText(values));
    var m := "--" + name;
    assert m[..2] == "--" && m[2..] == name;
    ParseTokens(values, setup, helpStr, prog, [m] + vals, io);
    RunSnoc([], m, values, setup, helpStr, versionLine, io);
    assert [] + [m] == [m];
    assert Run([m], values, setup, helpStr, versionLine, io) == Pass(values, setup, name, [], None);
    ValuesExtendGroup([m], vals, values, setup, helpStr, versionLine, io);
    assert [] + vals == vals;
  }

  /**
   * Naming an `int` option twice: the variable keeps the first value of the
   * second group, while `parSetupMap` keeps the first group.
   */
  lemma SetupMapKeepsFirstGroup(values: map<string, Data>, setup: map<string, seq<string>>, helpStr: string, prog: string,
                                name: string, a: seq<string>, b: seq<string>, io: Streams)
    requires WellFormed(values) && name in values && name != "help" && name != "version" && values[name].Int?
    requires name !in setup
    requires a != [] && NoMarkers(a) && b != [] && NoMarkers(b)
    ensures Parse(values, setup, helpStr, [prog] + ([("--" + name)] + a + [("--" + name)] + b), io)
      == (Success, values[name := Int(io.readInt(b[0]))], setup[name := a])
  {
    var versionLine := VersionLine(prog, VersionText(values));
    var m := "--" + name;
    ParseTokens(values, setup, helpStr, prog, [m] + a + [m] + b, io);
    TwoGroupsRun(values, setup, helpStr, versionLine, name, a, b, io);
    var values1 := values[name := Int(io.readInt(a[0]))];
    assert values1[name := Int(io.readInt(b[0]))] == values[name := Int(io.readInt(b[0]))];
  }

  /** The loop over `--name a --name b`: the first group is cast and recorded, the second is pending. */
  lemma TwoGroupsRun(values: map<string, Data>, setup: map<string, seq<string>>, helpStr: string, versionLine: string,
                     name: string, a: seq<string>, b: seq<string>, io: Streams)
    requires WellFormed(values) && name in values && name != "help" && name != "version" && values[name].Int?
    requires name !in setup
    requires a != [] && NoMarkers(a) && NoMarkers(b)
    ensures Run([("--" + name)] + a + [("--" + name)] + b, values, setup, helpStr, versionLine, io)
      == Pass(values[name := Int(io.readInt(a[0]))], setup[name := a], name, b, None)
  {
    var m := "--" + name;
    FirstGroupRun(values, setup, helpStr, versionLine, name, a, io);
    RunSnoc([m] + a, m, values, setup, helpStr, versionLine, io);
    var p := Pass(values, setup, name, a, None);
    assert Cast(values[name], a, io) == Some(Int(io.readInt(a[0])));
    assert Flush(p, io) == Pass(values[name := Int(io.readInt(a[0]))], setup[name := a], name, a, None);
    ValuesExtendGroup([m] + a + [m], b, values, setup, helpStr, versionLine, io);
    assert [] + b == b;
  }

  /** The loop over `--name a`: `name` is pending with the group `a`. */
  lemma FirstGroupRun(values: map<string, Data>, setup: map<string, seq<string>>, helpStr: string, versionLine: string,
                      name: string, a: seq<string>, io: Streams)
    requires name in values && name != "help" && name != "version"
    requires NoMarkers(a)
    ensures Run([("--" + name)] + a, values, setup, helpStr, versionLine, io) == Pass(values, setup, name, a, None)
  {
    var m := "--" + name;
    assert m[..2] == "--" && m[2..] == name;
    RunSnoc([], m, values, setup, helpStr, versionLine, io);
    assert [] + [m] == [m];
    ValuesExtendGroup([m], a, values, setup, helpStr, versionLine, io);
    assert [] + a == a;
  }

  // ---------------------------------------------------------------------------
  // What any command line can change, and how a parse can end

  /** What the loop keeps: the names, the types, and every group `parSetupMap` already has. */
  ghost predicate Keeps(values: map<string, Data>, setup: map<string, seq<string>>,
                        values': map<string, Data>, setup': map<string, seq<string>>)
  {
    && values'.Keys == values.Keys
    && (forall n | n in values :: SameKind(values'[n], values[n]))
    && (forall n | n in setup :: n in setup' && setup'[n] == setup[n])
  }

  /** The ways a parse ends: never with "unknow error happend". */
  ghost predicate Expected(o: Outcome, values: map<string, Data>, helpStr: string, versionLine: string)
  {
    || o == Success
    || o == EarlyExit(HelpExit(helpStr))
    || o == EarlyExit(versionLine)
    || exists n | n !in values :: o == Failure(InvalidMessage(n))
  }

  /** What holds of the loop state `p` after the tokens `toks`. */
  ghost predicate Invariant(toks: seq<string>, values: map<string, Data>, setup: map<string, seq<string>>, p: Pass,
                            helpStr: string, versionLine: string)
  {
    && WellFormed(p.values)
    && Keeps(values, setup, p.values, p.setup)
    && (p.last == "" || (p.last in values && Mentioned(toks, p.last)))
    && (forall n | n in values && !Mentioned(toks, n) :: p.values[n] == values[n])
    && (forall n | n in p.setup && n !in setup :: Mentioned(toks, n))
    && (p.stop.Some? ==> Expected(p.stop.value, values, helpStr, versionLine))
  }

  /** A name mentioned before one more token is still mentioned, and a marker mentions its name. */
  lemma MentionedGrows(s: seq<string>, t: string)
    ensures forall x | Mentioned(s, x) :: Mentioned(s + [t], x)
    ensures Bucketing.IsMarker(t, MarkerMinLen) ==> Mentioned(s + [t], Bucketing.MarkerName(t))
  {
    var toks := s + [t];
    forall x | Mentioned(s, x) ensures Mentioned(toks, x) {
      var k :| 0 <= k < |s| && Bucketing.IsMarker(s[k], MarkerMinLen) && Bucketing.MarkerName(s[k]) == x;
      assert toks[k] == s[k];
    }
    assert toks[|s|] == t;
  }

  /** The cast of one group keeps the shape of the globals and never fails. */
  lemma FlushKeeps(s: seq<string>, values: map<string, Data>, setup: map<string, seq<string>>, p: Pass,
                   helpStr: string, versionLine: string, io: Streams)
    requires WellFormed(values) && Invariant(s, values, setup, p, helpStr, versionLine)
    requires p.stop.None? && p.last in p.values && p.group != []
    ensures var q := Flush(p, io);
      && q.stop.None? && WellFormed(q.values) && Keeps(values, setup, q.values, q.setup)
      && (forall n | n in values && n != p.last :: q.values[n] == p.values[n])
      && (forall n | n in q.setup && n != p.last :: n in p.setup && q.setup[n] == p.setup[n])
  {
    CastDefined(p.values[p.last], p.group, io);
    var d := Cast(p.values[p.last], p.group, io).value;
    var q := Flush(p, io);
    assert q.values == p.values[p.last := d];
    assert q.setup == if p.last in p.setup then p.setup else p.setup[p.last := p.group];
    assert Supported(d);
    assert q.values["help"].Bool? && q.values["version"].String?;
    assert SameKind(q.values[p.last], values[p.last]);
  }

  /** One turn of the loop keeps `Invariant`. */
  lemma StepKeeps(s: seq<string>, t: string, values: map<string, Data>, setup: map<string, seq<string>>, p: Pass,
                  helpStr: string, versionLine: string, io: Streams)
    requires WellFormed(values) && Invariant(s, values, setup, p, helpStr, versionLine)
    ensures Invariant(s + [t], values, setup, Step(p, t, helpStr, versionLine, io), helpStr, versionLine)
  {
    MentionedGrows(s, t);
    if p.stop.None? && Bucketing.IsMarker(t, MarkerMinLen) {
      var cur := Bucketing.MarkerName(t);
      if cur !in p.values {
        assert Expected(Failure(InvalidMessage(cur)), values, helpStr, versionLine);
      } else if cur != "help" && cur != "version" && p.group != [] && p.last in p.values {
        FlushKeeps(s, values, setup, p, helpStr, versionLine, io);
      }
    }
  }

  /** The loop keeps `Invariant`. */
  lemma {:induction false} RunKeeps(toks: seq<string>, values: map<string, Data>, setup: map<string, seq<string>>,
                                    helpStr: string, versionLine: string, io: Streams)
    requires WellFormed(values)
    ensures Invariant(toks, values, setup, Run(toks, values, setup, helpStr, versionLine, io), helpStr, versionLine)
  {
    if |toks| > 0 {
      var n := |toks| - 1;
      var p := Run(toks[..n], values, setup, helpStr, versionLine, io);
      RunKeeps(toks[..n], values, setup, helpStr, versionLine, io);
      StepKeeps(toks[..n], toks[n], values, setup, p, helpStr, versionLine, io);
      assert toks[..n] + [toks[n]] == toks;
      assert Run(toks, values, setup, helpStr, versionLine, io) == Step(p, toks[n], helpStr, versionLine, io);
    }
  }

  /**
   * `setup_flags` keeps every variable's type, changes only the variables
   * the command line names, adds to `parSetupMap` only names the command line
   * names and never replaces a group it holds, and ends in one of the
   * expected ways: it fails only on an unregistered name.
   */
  lemma ParseKeeps(values: map<string, Data>, setup: map<string, seq<string>>, helpStr: string, argv: seq<string>, io: Streams)
    requires WellFormed(values) && |argv| >= 1
    ensures var (o, values', setup') := Parse(values, setup, helpStr, argv, io);
      && WellFormed(values') && Keeps(values, setup, values', setup')
      && (forall n | n in values && !Mentioned(argv[1..], n) :: values'[n] == values[n])
      && (forall n | n in setup' && n !in setup :: Mentioned(argv[1..], n))
      && Expected(o, values, helpStr, VersionLine(argv[0], VersionText(values)))
  {
    var versionLine := VersionLine(argv[0], VersionText(values));
    var p := Run(argv[1..], values, setup, helpStr, versionLine, io);
    RunKeeps(argv[1..], values, setup, helpStr, versionLine, io);
    if p.stop.None? && p.group != [] && p.last != "" {
      FlushKeeps(argv[1..], values, setup, p, helpStr, versionLine, io);
    }
  }
  // ---------------------------------------------------------------------------
  // What a successful parse casts and records

  /** What a variable holds after the cast of each group in turn; `None` once a cast is missing. */
  function Casts(d: Data, gs: seq<seq<string>>, io: Streams): (r: Option<Data>)
    requires forall k | 0 <= k < |gs| :: gs[k] != []
    ensures Supported(d) ==> r.Some? && SameKind(r.value, d)
  {
    if |gs| == 0 then Some(d)
    else
      match Casts(d, gs[..|gs| - 1], io)
      case None => None
      case Some(x) => Cast(x, gs[|gs| - 1], io)
  }

  /** For every type but `std::string`, a cast does not read the old value: the last group decides. */
  lemma CastsLast(d: Data, gs: seq<seq<string>>, io: Streams)
    requires forall k | 0 <= k < |gs| :: gs[k] != []
    requires gs != [] && Supported(d) && !d.String?
    ensures Casts(d, gs, io) == Cast(d, gs[|gs| - 1], io)
  {
  }

  /** One more group for a variable: the fold takes one more cast. */
  lemma CastsSnoc(d: Data, gs: seq<seq<string>>, g: seq<string>, io: Streams)
    requires forall k | 0 <= k < |gs| :: gs[k] != []
    requires g != [] && Casts(d, gs, io).Some?
    ensures Casts(d, gs + [g], io) == Cast(Casts(d, gs, io).value, g, io)
  {
    assert (gs + [g])[..|gs|] == gs;
  }

  /** `parSetupMap` holds the entry it started with, or else the first of the groups `gs`, if any. */
  ghost predicate Recorded(setup: map<string, seq<string>>, setup': map<string, seq<string>>, n: string, gs: seq<seq<string>>)
  {
    && (n in setup ==> n in setup' && setup'[n] == setup[n])
    && (n !in setup ==> (n in setup' <==> gs != []) && (n in setup' ==> setup'[n] == gs[0]))
  }

  /**
   * A running loop state after the segments `closed` and `open`: the open
   * segment is its option and group, every variable holds the casts of the
   * closed segments' groups, and `parSetupMap` the first of them.
   */
  ghost predicate Matches(values: map<string, Data>, setup: map<string, seq<string>>, p: Pass,
                          closed: seq<Bucketing.Segment>, open: Bucketing.Segment, io: Streams)
  {
    && p.last == open.name && p.group == open.vals
    && p.values.Keys == values.Keys
    && forall n | n in values ::
         && Casts(values[n], Bucketing.Groups(closed, n), io) == Some(p.values[n])
         && Recorded(setup, p.setup, n, Bucketing.Groups(closed, n))
  }

  /** What holds after the tokens `toks`: a stopped loop did not succeed, and a running one `Matches` their segments. */
  ghost predicate CastSoFar(toks: seq<string>, values: map<string, Data>, setup: map<string, seq<string>>, p: Pass, io: Streams)
  {
    var segs := Bucketing.Segments(toks, MarkerMinLen);
    && (p.stop.Some? ==> !p.stop.value.Success?)
    && (p.stop.None? ==> Matches(values, setup, p, segs[..|segs| - 1], segs[|segs| - 1], io))
  }

  /** A value joins the open segment's group. */
  lemma MatchesValue(values: map<string, Data>, setup: map<string, seq<string>>, p: Pass,
                     closed: seq<Bucketing.Segment>, open: Bucketing.Segment, t: string, io: Streams)
    requires Matches(values, setup, p, closed, open, io)
    ensures Matches(values, setup, p.(group := p.group + [t]), closed, Bucketing.Segment(open.name, open.vals + [t]), io)
  {
  }

  /** Closing a segment with no values, or one no variable is named by, changes nothing. */
  lemma MatchesDropped(values: map<string, Data>, setup: map<string, seq<string>>, p: Pass,
                       closed: seq<Bucketing.Segment>, open: Bucketing.Segment, cur: string, io: Streams)
    requires Matches(values, setup, p, closed, open, io) && (open.vals == [] || open.name !in values)
    ensures Matches(values, setup, p.(last := cur, group := []), closed + [open], Bucketing.Segment(cur, []), io)
  {
    forall n | n in values
      ensures Bucketing.Groups(closed + [open], n) == Bucketing.Groups(closed, n)
    {
      Bucketing.GroupsSnoc(closed, open, n);
    }
  }

  /** Casting the open segment's group into its variable, with no error, closes the segment for the variable `n`. */
  lemma FlushOne(values: map<string, Data>, setup: map<string, seq<string>>, p: Pass,
                 closed: seq<Bucketing.Segment>, open: Bucketing.Segment, n: string, io: Streams)
    requires Matches(values, setup, p, closed, open, io) && open.vals != [] && p.last in p.values
    requires Flush(p, io).stop.None? && n in values
    ensures var q := Flush(p, io);
      var gs := Bucketing.Groups(closed + [open], n);
      Casts(values[n], gs, io) == Some(q.values[n]) && Recorded(setup, q.setup, n, gs)
  {
    var q := Flush(p, io);
    var d := Cast(p.values[p.last], p.group, io).value;
    assert q.values == p.values[p.last := d];
    assert q.setup == if p.last in p.setup then p.setup else p.setup[p.last := p.group];
    Bucketing.GroupsSnoc(closed, open, n);
    var gs := Bucketing.Groups(closed, n);
    assert Casts(values[n], gs, io) == Some(p.values[n]) && Recorded(setup, p.setup, n, gs);
    if n == p.last {
      CastsSnoc(values[n], gs, p.group, io);
      assert Bucketing.Groups(closed + [open], n) == gs + [p.group];
      if gs != [] {
        assert (gs + [p.group])[0] == gs[0];
      }
    } else {
      assert Bucketing.Groups(closed + [open], n) == gs;
    }
  }

  /** Casting the open segment's group into its variable, with no error, closes the segment. */
  lemma MatchesFlush(values: map<string, Data>, setup: map<string, seq<string>>, p: Pass,
                     closed: seq<Bucketing.Segment>, open: Bucketing.Segment, cur: string, io: Streams)
    requires Matches(values, setup, p, closed, open, io) && open.vals != [] && p.last in p.values
    requires Flush(p, io).stop.None?
    ensures Matches(values, setup, Flush(p, io).(last := cur, group := []), closed + [open], Bucketing.Segment(cur, []), io)
  {
    var q := Flush(p, io);
    assert q.values.Keys == p.values.Keys;
    forall n | n in values
      ensures Casts(values[n], Bucketing.Groups(closed + [open], n), io) == Some(q.values[n])
      ensures Recorded(setup, q.setup, n, Bucketing.Groups(closed + [open], n))
    {
      FlushOne(values, setup, p, closed, open, n, io);
    }
  }

  /** One turn of a running loop, on segments: a marker closes the open segment, a value extends it. */
  lemma StepMatches(values: map<string, Data>, setup: map<string, seq<string>>, p: Pass,
                    closed: seq<Bucketing.Segment>, open: Bucketing.Segment, t: string,
                    helpStr: string, versionLine: string, io: Streams)
    requires p.stop.None? && Matches(values, setup, p, closed, open, io)
    ensures var q := Step(p, t, helpStr, versionLine, io);
      && (q.stop.Some? ==> !q.stop.value.Success?)
      && (q.stop.None? && Bucketing.IsMarker(t, MarkerMinLen) ==>
            Matches(values, setup, q, closed + [open], Bucketing.Segment(Bucketing.MarkerName(t), []), io))
      && (q.stop.None? && !Bucketing.IsMarker(t, MarkerMinLen) ==>
            Matches(values, setup, q, closed, Bucketing.Segment(open.name, open.vals + [t]), io))
  {
    var q := Step(p, t, helpStr, versionLine, io);
    if !Bucketing.IsMarker(t, MarkerMinLen) {
      assert q == p.(group := p.group + [t]);
      MatchesValue(values, setup, p, closed, open, t, io);
    } else if q.stop.None? {
      var cur := Bucketing.MarkerName(t);
      if p.group == [] || p.last !in p.values {
        assert q == p.(last := cur, group := []);
        MatchesDropped(values, setup, p, closed, open, cur, io);
      } else {
        assert q == Flush(p, io).(last := cur, group := []);
        MatchesFlush(values, setup, p, closed, open, cur, io);
      }
      assert Matches(values, setup, q, closed + [open], Bucketing.Segment(cur, []), io);
    }
  }

  /** One turn of the loop keeps `CastSoFar`. */
  lemma StepCast(s: seq<string>, t: string, values: map<string, Data>, setup: map<string, seq<string>>, p: Pass,
                 helpStr: string, versionLine: string, io: Streams)
    requires CastSoFar(s, values, setup, p, io)
    ensures CastSoFar(s + [t], values, setup, Step(p, t, helpStr, versionLine, io), io)
  {
    if p.stop.None? {
      Bucketing.SegmentsSnoc(s, t, MarkerMinLen);
      var segs := Bucketing.Segments(s, MarkerMinLen);
      var k := |segs| - 1;
      assert segs[..k] + [segs[k]] == segs;
      StepMatches(values, setup, p, segs[..k], segs[k], t, helpStr, versionLine, io);
    }
  }

  /** The loop keeps `CastSoFar`. */
  lemma {:induction false} RunCast(toks: seq<string>, values: map<string, Data>, setup: map<string, seq<string>>,
                                   helpStr: string, versionLine: string, io: Streams)
    ensures CastSoFar(toks, values, setup, Run(toks, values, setup, helpStr, versionLine, io), io)
  {
    if |toks| > 0 {
      var n := |toks| - 1;
      var p := Run(toks[..n], values, setup, helpStr, versionLine, io);
      RunCast(toks[..n], values, setup, helpStr, versionLine, io);
      StepCast(toks[..n], toks[n], values, setup, p, helpStr, versionLine, io);
      assert toks[..n] + [toks[n]] == toks;
      assert Run(toks, values, setup, helpStr, versionLine, io) == Step(p, toks[n], helpStr, versionLine, io);
    }
  }

  /** The end of the loop casts the open group unless no variable takes it. */
  lemma FinishCasts(values: map<string, Data>, setup: map<string, seq<string>>, p: Pass,
                    closed: seq<Bucketing.Segment>, open: Bucketing.Segment, name: string, io: Streams)
    requires p.stop.None? && Matches(values, setup, p, closed, open, io) && (p.last == "" || p.last in p.values)
    requires Finish(p, io).0 == Success && name in values && name != ""
    ensures var r := Finish(p, io);
      var gs := Bucketing.Groups(closed + [open], name);
      name in r.1 && Casts(values[name], gs, io) == Some(r.1[name]) && Recorded(setup, r.2, name, gs)
  {
    if p.group != [] && p.last != "" {
      assert Flush(p, io).stop.None?;
      MatchesFlush(values, setup, p, closed, open, "", io);
    } else {
      Bucketing.GroupsSnoc(closed, open, name);
      assert Finish(p, io) == (Success, p.values, p.setup);
      assert Bucketing.Groups(closed + [open], name) == Bucketing.Groups(closed, name);
      assert Casts(values[name], Bucketing.Groups(closed, name), io) == Some(p.values[name]);
    }
  }

  /** `GroupsCast` for the loop and its end. */
  lemma RunGroupsCast(toks: seq<string>, values: map<string, Data>, setup: map<string, seq<string>>,
                      helpStr: string, versionLine: string, io: Streams, name: string)
    requires name in values && name != ""
    requires Finish(Run(toks, values, setup, helpStr, versionLine, io), io).0 == Success
    ensures var r := Finish(Run(toks, values, setup, helpStr, versionLine, io), io);
      var gs := Bucketing.Groups(Bucketing.Segments(toks, MarkerMinLen), name);
      name in r.1 && Casts(values[name], gs, io) == Some(r.1[name]) && Recorded(setup, r.2, name, gs)
  {
    var p := Run(toks, values, setup, helpStr, versionLine, io);
    RunCast(toks, values, setup, helpStr, versionLine, io);
    var segs := Bucketing.Segments(toks, MarkerMinLen);
    var k := |segs| - 1;
    assert segs[..k] + [segs[k]] == segs;
    assert Matches(values, setup, p, segs[..k], segs[k], io);
    FinishCasts(values, setup, p, segs[..k], segs[k], name, io);
  }

  /**
   * After a parse that succeeds, every variable holds the casts of the
   * groups after its markers, taken in order, and `parSetupMap` the first
   * of those groups unless it already had an entry. A variable with no such
   * group keeps its value, and for every type but `std::string` the last
   * group alone decides the value.
   */
  lemma GroupsCast(values: map<string, Data>, setup: map<string, seq<string>>, helpStr: string, argv: seq<string>,
                   io: Streams, name: string)
    requires WellFormed(values) && |argv| >= 1 && name in values
    requires Parse(values, setup, helpStr, argv, io).0 == Success
    ensures var (_, values', setup') := Parse(values, setup, helpStr, argv, io);
      var gs := Bucketing.Groups(Bucketing.Segments(argv[1..], MarkerMinLen), name);
      && name in values'
      && Casts(values[name], gs, io) == Some(values'[name])
      && (gs == [] ==> values'[name] == values[name])
      && (gs != [] && !values[name].String? ==> Cast(values[name], gs[|gs| - 1], io) == Some(values'[name]))
      && (name in setup ==> name in setup' && setup'[name] == setup[name])
      && (name !in setup ==> (name in setup' <==> gs != []) && (gs != [] ==> setup'[name] == gs[0]))
  {
    var versionLine := VersionLine(argv[0], VersionText(values));
    assert Parse(values, setup, helpStr, argv, io) == Finish(Run(argv[1..], values, setup, helpStr, versionLine, io), io);
    RunGroupsCast(argv[1..], values, setup, helpStr, versionLine, io, name);
    var gs := Bucketing.Groups(Bucketing.Segments(argv[1..], MarkerMinLen), name);
    if gs != [] && !values[name].String? {
      CastsLast(values[name], gs, io);
    }
  }
}
