/**
 * What `ArgParser::setup_parser` of `flags-template` guarantees, proved
 * about `FlagsTemplate.Parse`: which tokens are markers, how one group is
 * assigned, what leading values and bare flags do, which options a command
 * line can change, and every way a parse can end.
 */
module FlagsTemplateProperties {
  import opened Text
  import opened ArgType
  import opened Outcomes
  import Bucketing
  import opened FlagsTemplate

  // ---------------------------------------------------------------------------
  // Tokens and conversions

  /** A token is a marker exactly when it starts with "--"; the bare "--" names the empty option. */
  lemma MarkerRule(t: string)
    ensures Bucketing.IsMarker(t, MarkerMinLen) <==> |t| >= 2 && t[..2] == "--"
    ensures t == "--" ==> Bucketing.IsMarker(t, MarkerMinLen) && Bucketing.MarkerName(t) == ""
  {
  }

  /** `std::stoi` of a single digit. */
  lemma StoiDigit(s: string)
    requires s == "1" || s == "0"
    ensures Stoi(s) == Some(if s == "1" then 1 else 0)
  {
    assert s == [s[0]];
    StoiOneDigit(s[0]);
  }

  /**
   * A `bool` vector element converts as `Utils::StrToBool` of the `src/`
   * parser does, except that the empty token, true there, makes `std::stoi`
   * throw here.
   */
  lemma BoolTokenAgrees(e: string)
    ensures BoolToken(e) == if e == "" then None else StrToBool(e)
  {
    var val := Lower(e);
    if OnOff(val).Some? {
      assert BoolKeyword(val) == OnOff(val);
      assert val != [] && e != [];
    } else if val == "1" || val == "0" {
      StoiLower(e);
      StoiDigit(val);
    } else if val == "" {
      assert e == [];
    } else {
      assert BoolKeyword(val).None?;
    }
  }

  // ---------------------------------------------------------------------------
  // Rendering

  /**
   * `format_vector`: "[(empty)]" for no elements; otherwise a bracketed text
   * in which every element's text occurs.
   */
  lemma FormatVecSpec(elems: seq<string>)
    ensures elems == [] ==> FormatVec(elems) == "[(empty)]"
    ensures elems != [] ==>
      (|FormatVec(elems)| >= 2 && FormatVec(elems)[0] == '[' && FormatVec(elems)[|FormatVec(elems)| - 1] == ']')
    ensures forall k | 0 <= k < |elems| :: Infix(elems[k], FormatVec(elems))
  {
    forall k | 0 <= k < |elems|
      ensures Infix(elems[k], FormatVec(elems))
    {
      RenderVecMentions(elems, k);
    }
  }

  /** The one-element vector holding "(empty)" renders like an empty vector. */
  lemma FormatVecAmbiguous()
    ensures FormatVec(["(empty)"]) == FormatVec([])
  {
    assert ["(empty)"][..0] == [];
  }

  /** `to_string` of a scalar reads back as that scalar. */
  lemma ToStringScalars(d: Data)
    ensures d.Int? ==> Stoi(ToStringAny(d)) == Some(d.i)
    ensures d.Bool? ==> BoolToken(ToStringAny(d)) == Some(d.b)
    ensures d.String? ==> ToStringAny(d) == d.s
  {
    if d.Int? {
      StoiIntToString(d.i);
    }
    assert Lower("true") == "true" && Lower("false") == "false";
  }

  /** A scalar option takes the first value of its group and never fails. */
  lemma ScalarTakesFront(d: Data, group: seq<string>, lib: Library)
    requires group != [] && (d.Int? || d.Bool? || d.String?)
    ensures AsignGroup(d, group, lib) == AsignGroup(d, [group[0]], lib)
    ensures !AsignGroup(d, group, lib).threw
  {
  }

  /**
   * A vector option is cleared and gets one element per value, in order; an
   * `int` or `bool` vector fails exactly when one value does not convert,
   * and then keeps the elements of the values before it.
   */
  lemma VectorOnePerValue(d: Data, group: seq<string>, lib: Library)
    requires group != [] && (d.IntVec? || d.BoolVec? || d.StringVec?)
    ensures var r := AsignGroup(d, group, lib);
      && (d.StringVec? ==> r == Assigned(StringVec(group), false))
      && (d.IntVec? ==>
            && r.data.IntVec?
            && |r.data.iv| <= |group|
            && (forall k | 0 <= k < |r.data.iv| :: Some(r.data.iv[k]) == Stoi(group[k]))
            && (r.threw <==> exists k | 0 <= k < |group| :: Stoi(group[k]).None?)
            && (!r.threw ==> |r.data.iv| == |group|))
      && (d.BoolVec? ==>
            && r.data.BoolVec?
            && |r.data.bv| <= |group|
            && (forall k | 0 <= k < |r.data.bv| :: Some(r.data.bv[k]) == BoolToken(group[k]))
            && (r.threw <==> exists k | 0 <= k < |group| :: BoolToken(group[k]).None?)
            && (!r.threw ==> |r.data.bv| == |group|))
  {
    if d.IntVec? {
      PushAllSpec(group, Stoi);
    } else if d.BoolVec? {
      PushAllSpec(group, BoolToken);
    }
  }

  // ---------------------------------------------------------------------------
  // The loop over the command line

  predicate NoMarkers(toks: seq<string>)
  {
    forall k | 0 <= k < |toks| :: !Bucketing.IsMarker(toks[k], MarkerMinLen)
  }

  /** `--name` appears among the tokens. */
  ghost predicate Mentioned(toks: seq<string>, name: string)
  {
    exists k | 0 <= k < |toks| :: Bucketing.IsMarker(toks[k], MarkerMinLen) && Bucketing.MarkerName(toks[k]) == name
  }

  /** Values extend the pending group and change nothing else. */
  lemma {:induction false} ValuesExtendGroup(s: seq<string>, vals: seq<string>, args: ArgTable, helpStr: string, versionLine: string, lib: Library)
    requires NoMarkers(vals) && Run(s, args, helpStr, versionLine, lib).stop.None?
    ensures var p := Run(s, args, helpStr, versionLine, lib);
      Run(s + vals, args, helpStr, versionLine, lib) == p.(group := p.group + vals)
    decreases |vals|
  {
    if vals != [] {
      var n := |vals| - 1;
      assert (s + vals)[..|s + vals| - 1] == s + vals[..n];
      ValuesExtendGroup(s, vals[..n], args, helpStr, versionLine, lib);
      assert !Bucketing.IsMarker(vals[n], MarkerMinLen);
      assert vals[..n] + [vals[n]] == vals;
    } else {
      assert s + vals == s;
    }
  }

  /** After the loop has stopped, nothing more happens. */
  lemma StoppedStaysStopped(s: seq<string>, rest: seq<string>, args: ArgTable, helpStr: string, versionLine: string, lib: Library)
    requires Run(s, args, helpStr, versionLine, lib).stop.Some?
    ensures Run(s + rest, args, helpStr, versionLine, lib) == Run(s, args, helpStr, versionLine, lib)
  {
    assert (s + rest)[..|s|] == s;
    RunStops(s + rest, |s|, args, helpStr, versionLine, lib);
  }

  /** One more token after `s`. */
  lemma RunSnoc(s: seq<string>, t: string, args: ArgTable, helpStr: string, versionLine: string, lib: Library)
    ensures Run(s + [t], args, helpStr, versionLine, lib) == Step(Run(s, args, helpStr, versionLine, lib), t, helpStr, versionLine, lib)
  {
    assert (s + [t])[..|s|] == s;
  }

  /** Values before any marker belong to no option. */
  lemma LeadingValues(vals: seq<string>, args: ArgTable, helpStr: string, versionLine: string, lib: Library)
    requires NoMarkers(vals)
    ensures Run(vals, args, helpStr, versionLine, lib) == Pass(args, "", vals, None)
  {
    ValuesExtendGroup([], vals, args, helpStr, versionLine, lib);
    assert [] + vals == vals;
  }

  /** The command line after the program name. */
  lemma ParseTokens(args: ArgTable, helpStr: string, versionStr: string, prog: string, toks: seq<string>, lib: Library)
    ensures Parse(args, helpStr, versionStr, [prog] + toks, lib)
      == Finish(Run(toks, args, helpStr, VersionLine(prog, versionStr), lib), lib)
  {
    assert ([prog] + toks)[1..] == toks;
  }

  /** A command line of values only changes nothing and succeeds. */
  lemma OnlyValuesIgnored(args: ArgTable, helpStr: string, versionStr: string, prog: string, vals: seq<string>, lib: Library)
    requires NoMarkers(vals)
    ensures Parse(args, helpStr, versionStr, [prog] + vals, lib) == (Success, args)
  {
    ParseTokens(args, helpStr, versionStr, prog, vals, lib);
    LeadingValues(vals, args, helpStr, VersionLine(prog, versionStr), lib);
  }

  /**
   * How the first marker ends or continues the parse: an unregistered name
   * fails at once, `--help` and `--version` exit, and leading values before
   * any other marker are handed to the option named "" — an error unless
   * such an option is registered.
   */
  lemma FirstMarker(args: ArgTable, helpStr: string, versionStr: string, prog: string,
                    vals: seq<string>, m: string, rest: seq<string>, lib: Library)
    requires NoMarkers(vals) && Bucketing.IsMarker(m, MarkerMinLen)
    ensures var name := Bucketing.MarkerName(m);
      var r := Parse(args, helpStr, versionStr, [prog] + (vals + [m] + rest), lib);
      && (name !in args ==> r == (Failure(InvalidMessage(name)), args))
      && (name in args && name == "help" ==> r == (EarlyExit(helpStr + "\n"), args))
      && (name in args && name == "version" ==> r == (EarlyExit(VersionLine(prog, versionStr)), args))
      && (name in args && name != "help" && name != "version" && vals != [] && "" !in args ==>
            r == (Failure(ArgInfoMessage("", lib.atWhat)), args))
  {
    var versionLine := VersionLine(prog, versionStr);
    ParseTokens(args, helpStr, versionStr, prog, vals + [m] + rest, lib);
    LeadingValues(vals, args, helpStr, versionLine, lib);
    RunSnoc(vals, m, args, helpStr, versionLine, lib);
    var p := Run(vals + [m], args, helpStr, versionLine, lib);
    var name := Bucketing.MarkerName(m);
    if name !in args || name == "help" || name == "version" || (vals != [] && "" !in args) {
      assert p.stop.Some? && p.args == args;
      StoppedStaysStopped(vals + [m], rest, args, helpStr, versionLine, lib);
    }
  }

  /** `--name` with no values leaves the option as it is: a `bool` flag is not set by naming it. */
  lemma BareFlag(args: ArgTable, helpStr: string, versionStr: string, prog: string, name: string, lib: Library)
    requires name in args && name != "help" && name != "version"
    ensures Parse(args, helpStr, versionStr, [prog, "--" + name], lib) == (Success, args)
  {
    var versionLine := VersionLine(prog, versionStr);
    var m := "--" + name;
    assert [prog, m] == [prog] + ([] + [m]);
    ParseTokens(args, helpStr, versionStr, prog, [] + [m], lib);
    RunSnoc([], m, args, helpStr, versionLine, lib);
    assert m[..2] == "--" && m[2..] == name;
  }

  /**
   * `--name` followed by values assigns the values to `name`, as `any_asign`
   * does. (For the option named "" the last group is never assigned, since
   * the end of the loop takes an empty name for no option at all.)
   */
  lemma OneOption(args: ArgTable, helpStr: string, versionStr: string, prog: string, name: string, vals: seq<string>, lib: Library)
    requires name in args && name != "help" && name != "version" && name != ""
    requires vals != [] && NoMarkers(vals)
    ensures var r := AsignGroup(args[name].value, vals, lib);
      Parse(args, helpStr, versionStr, [prog] + ([("--" + name)] + vals), lib)
        == (if r.threw then Failure(AsignError) else Success, args[name := args[name].(value := r.data)])
  {
    var versionLine := VersionLine(prog, versionStr);
    var m := "--" + name;
    assert m[..2] == "--" && m[2..] == name;
    ParseTokens(args, helpStr, versionStr, prog, [m] + vals, lib);
    RunSnoc([], m, args, helpStr, versionLine, lib);
    assert [] + [m] == [m];
    assert Run([m], args, helpStr, versionLine, lib) == Pass(args, name, [], None);
    ValuesExtendGroup([m], vals, args, helpStr, versionLine, lib);
    assert [] + vals == vals;
  }

  /** Naming an `int` option twice: the second group's first value is the one kept. */
  lemma LastGroupWins(args: ArgTable, helpStr: string, versionStr: string, prog: string, name: string,
                      a: seq<string>, b: seq<string>, lib: Library)
    requires name in args && name != "help" && name != "version" && name != "" && args[name].value.Int?
    requires a != [] && NoMarkers(a) && b != [] && NoMarkers(b)
    ensures Parse(args, helpStr, versionStr, [prog] + ([("--" + name)] + a + [("--" + name)] + b), lib)
      == (Success, args[name := args[name].(value := Int(lib.streams.readInt(b[0])))])
  {
    var versionLine := VersionLine(prog, versionStr);
    var m := "--" + name;
    assert m[..2] == "--" && m[2..] == name;
    ParseTokens(args, helpStr, versionStr, prog, [m] + a + [m] + b, lib);
    RunSnoc([], m, args, helpStr, versionLine, lib);
    assert [] + [m] == [m];
    ValuesExtendGroup([m], a, args, helpStr, versionLine, lib);
    RunSnoc([m] + a, m, args, helpStr, versionLine, lib);
    var args1 := args[name := args[name].(value := Int(lib.streams.readInt(a[0])))];
    assert Run([m] + a + [m], args, helpStr, versionLine, lib) == Pass(args1, name, [], None);
    ValuesExtendGroup([m] + a + [m], b, args, helpStr, versionLine, lib);
    assert [] + b == b;
    assert args1[name := args1[name].(value := Int(lib.streams.readInt(b[0])))]
      == args[name := args[name].(value := Int(lib.streams.readInt(b[0])))];
  }

  // ---------------------------------------------------------------------------
  // What any command line can change, and how a parse can end

  /** What the loop keeps: the names, the defaults, the descriptions and the types. */
  ghost predicate Keeps(args: ArgTable, after: ArgTable)
  {
    && WellFormed(after)
    && after.Keys == args.Keys
    && forall n | n in args :: after[n].defaultValue == args[n].defaultValue && after[n].desc == args[n].desc
  }

  /** The ways a parse ends. */
  ghost predicate Expected(o: Outcome, args: ArgTable, helpStr: string, versionLine: string, lib: Library)
  {
    || o == Success
    || o == EarlyExit(helpStr + "\n")
    || o == EarlyExit(versionLine)
    || o == Failure(AsignError)
    || ("" !in args && o == Failure(ArgInfoMessage("", lib.atWhat)))
    || exists n | n !in args :: o == Failure(InvalidMessage(n))
  }

  /** The assignment of one group keeps the table's shape and ends as expected. */
  lemma FlushKeeps(args: ArgTable, last: string, group: seq<string>, helpStr: string, versionLine: string, lib: Library)
    requires WellFormed(args) && group != [] && (last == "" || last in args)
    ensures var (after, err) := Flush(args, last, group, lib);
      && Keeps(args, after)
      && (forall n | n in args && n != last :: after[n] == args[n])
      && (err.Some? ==> Expected(err.value, args, helpStr, versionLine, lib))
  {
    if last in args {
      AsignGroupKeepsKind(args[last].value, group, lib);
    }
  }

  /** What holds of the loop state `p` after the tokens `toks`. */
  ghost predicate Invariant(toks: seq<string>, args: ArgTable, p: Pass, helpStr: string, versionLine: string, lib: Library)
  {
    && Keeps(args, p.args)
    && (p.last == "" || (p.last in args && Mentioned(toks, p.last)))
    && (forall n | n in args && n != "" && !Mentioned(toks, n) :: p.args[n] == args[n])
    && (p.stop.Some? ==> Expected(p.stop.value, args, helpStr, versionLine, lib))
  }

  /** A name mentioned before one more token is still mentioned, and a marker mentions its name. */
  lemma MentionedGrows(s: seq<string>, t: string)
    ensures forall x | Mentioned(s, x) :: Mentioned(s + [t], x)
    ensures Bucketing.IsMarker(t, MarkerMinLen) ==> Mentioned(s + [t], Bucketing.MarkerName(t))
  {
    var toks := s + [t];
    forall x | Mentioned(s, x) ensures Mentioned(toks, x) {
      var k :| 0 <= k < |s| && Bucketing.IsMarker(s[k], MarkerMinLen) && Bucketing.MarkerName(s[k]) == x;
      assert toks[k] == s[k];
    }
    assert toks[|s|] == t;
  }

  /** One turn of the loop keeps `Invariant`. */
  lemma StepKeeps(s: seq<string>, t: string, args: ArgTable, p: Pass, helpStr: string, versionLine: string, lib: Library)
    requires WellFormed(args) && Invariant(s, args, p, helpStr, versionLine, lib)
    ensures Invariant(s + [t], args, Step(p, t, helpStr, versionLine, lib), helpStr, versionLine, lib)
  {
    MentionedGrows(s, t);
    if p.stop.None? && Bucketing.IsMarker(t, MarkerMinLen) {
      var cur := Bucketing.MarkerName(t);
      if cur !in args {
        assert Expected(Failure(InvalidMessage(cur)), args, helpStr, versionLine, lib);
      } else if cur != "help" && cur != "version" && p.group != [] {
        FlushKeeps(p.args, p.last, p.group, helpStr, versionLine, lib);
      }
    }
  }

  /**
   * The loop keeps the table's shape, changes only options the command line
   * names (or the option "", which takes leading values), and every way it
   * stops is expected.
   */
  lemma {:induction false} RunKeeps(toks: seq<string>, args: ArgTable, helpStr: string, versionLine: string, lib: Library)
    requires WellFormed(args)
    ensures Invariant(toks, args, Run(toks, args, helpStr, versionLine, lib), helpStr, versionLine, lib)
  {
    if |toks| > 0 {
      var n := |toks| - 1;
      RunKeeps(toks[..n], args, helpStr, versionLine, lib);
      StepKeeps(toks[..n], toks[n], args, Run(toks[..n], args, helpStr, versionLine, lib), helpStr, versionLine, lib);
      assert toks[..n] + [toks[n]] == toks;
    }
  }

  /**
   * `setup_parser` keeps the table's shape, changes only the options the
   * command line names (and the option "", which takes leading values), and
   * ends in one of the expected ways.
   */
  lemma ParseKeeps(args: ArgTable, helpStr: string, versionStr: string, argv: seq<string>, lib: Library)
    requires WellFormed(args) && |argv| >= 1
    ensures var (o, after) := Parse(args, helpStr, versionStr, argv, lib);
      && Keeps(args, after)
      && (forall n | n in args && n != "" && !Mentioned(argv[1..], n) :: after[n] == args[n])
      && Expected(o, args, helpStr, VersionLine(argv[0], versionStr), lib)
  {
    var versionLine := VersionLine(argv[0], versionStr);
    var p := Run(argv[1..], args, helpStr, versionLine, lib);
    RunKeeps(argv[1..], args, helpStr, versionLine, lib);
    if p.stop.None? && p.group != [] && p.last != "" {
      FlushKeeps(p.args, p.last, p.group, helpStr, versionLine, lib);
    }
  }

  // ---------------------------------------------------------------------------
  // What a successful parse assigns

  /** The value an option holds after `AsignGroup` of each group in turn. */
  function Assigns(d: Data, gs: seq<seq<string>>, lib: Library): (r: Data)
    requires forall k | 0 <= k < |gs| :: gs[k] != []
    ensures SameKind(r, d)
  {
    if |gs| == 0 then d
    else AsignGroup(Assigns(d, gs[..|gs| - 1], lib), gs[|gs| - 1], lib).data
  }

  /** For every variant but `std::string`, the assignment does not read the old value: the last group decides. */
  lemma AssignsLast(d: Data, gs: seq<seq<string>>, lib: Library)
    requires forall k | 0 <= k < |gs| :: gs[k] != []
    requires gs != [] && Supported(d) && !d.String?
    ensures Assigns(d, gs, lib) == AsignGroup(d, gs[|gs| - 1], lib).data
  {
  }

  /**
   * A running loop state after the segments `closed` and `open`: the open
   * segment is its option and group, and every option holds what the closed
   * segments assigned to it.
   */
  ghost predicate Matches(args: ArgTable, p: Pass, closed: seq<Bucketing.Segment>, open: Bucketing.Segment, lib: Library)
  {
    && p.last == open.name && p.group == open.vals
    && p.args.Keys == args.Keys
    && forall n | n in args :: p.args[n] == args[n].(value := Assigns(args[n].value, Bucketing.Groups(closed, n), lib))
  }

  /** What holds after the tokens `toks`: a stopped loop did not succeed, and a running one `Matches` their segments. */
  ghost predicate AssignedSoFar(toks: seq<string>, args: ArgTable, p: Pass, lib: Library)
  {
    var segs := Bucketing.Segments(toks, MarkerMinLen);
    && (p.stop.Some? ==> !p.stop.value.Success?)
    && (p.stop.None? ==> Matches(args, p, segs[..|segs| - 1], segs[|segs| - 1], lib))
  }

  /** A value joins the open segment's group. */
  lemma MatchesValue(args: ArgTable, p: Pass, closed: seq<Bucketing.Segment>, open: Bucketing.Segment, t: string, lib: Library)
    requires Matches(args, p, closed, open, lib)
    ensures Matches(args, p.(group := p.group + [t]), closed, Bucketing.Segment(open.name, open.vals + [t]), lib)
  {
  }

  /** Closing a segment with no values changes no option. */
  lemma MatchesEmptyClosed(args: ArgTable, p: Pass, closed: seq<Bucketing.Segment>, open: Bucketing.Segment,
                           cur: string, lib: Library)
    requires Matches(args, p, closed, open, lib) && open.vals == []
    ensures Matches(args, p.(last := cur), closed + [open], Bucketing.Segment(cur, []), lib)
  {
    forall n | n in args
      ensures Bucketing.Groups(closed + [open], n) == Bucketing.Groups(closed, n)
    {
      Bucketing.GroupsSnoc(closed, open, n);
    }
  }

  /** Assigning the open segment's group to its option, with no error, closes the segment. */
  lemma MatchesFlush(args: ArgTable, p: Pass, closed: seq<Bucketing.Segment>, open: Bucketing.Segment,
                     cur: string, lib: Library)
    requires Matches(args, p, closed, open, lib) && open.vals != []
    requires Flush(p.args, p.last, p.group, lib).1.None?
    ensures Matches(args, Pass(Flush(p.args, p.last, p.group, lib).0, cur, [], None), closed + [open], Bucketing.Segment(cur, []), lib)
  {
    var after := Flush(p.args, p.last, p.group, lib).0;
    assert p.last in p.args;
    forall n | n in args
      ensures after[n] == args[n].(value := Assigns(args[n].value, Bucketing.Groups(closed + [open], n), lib))
    {
      Bucketing.GroupsSnoc(closed, open, n);
      if n == p.last {
        var r := AsignGroup(p.args[n].value, p.group, lib);
        assert after[n] == p.args[n].(value := r.data);
        AssignsSnoc(args[n].value, Bucketing.Groups(closed, n), p.group, lib);
        assert Bucketing.Groups(closed + [open], n) == Bucketing.Groups(closed, n) + [p.group];
        assert p.args[n].value == Assigns(args[n].value, Bucketing.Groups(closed, n), lib);
        assert r.data == Assigns(args[n].value, Bucketing.Groups(closed + [open], n), lib);
      } else {
        assert after[n] == p.args[n];
        assert Bucketing.Groups(closed + [open], n) == Bucketing.Groups(closed, n);
      }
    }
  }

  /** One more group for an option: the fold takes one more step. */
  lemma AssignsSnoc(d: Data, gs: seq<seq<string>>, g: seq<string>, lib: Library)
    requires forall k | 0 <= k < |gs| :: gs[k] != []
    requires g != []
    ensures Assigns(d, gs + [g], lib) == AsignGroup(Assigns(d, gs, lib), g, lib).data
  {
    assert (gs + [g])[..|gs|] == gs;
  }

  /** One turn of a running loop, on segments: a marker closes the open segment, a value extends it. */
  lemma StepMatches(args: ArgTable, p: Pass, closed: seq<Bucketing.Segment>, open: Bucketing.Segment, t: string,
                    helpStr: string, versionLine: string, lib: Library)
    requires p.stop.None? && Matches(args, p, closed, open, lib)
    ensures var q := Step(p, t, helpStr, versionLine, lib);
      && (q.stop.Some? ==> !q.stop.value.Success?)
      && (q.stop.None? && Bucketing.IsMarker(t, MarkerMinLen) ==>
            Matches(args, q, closed + [open], Bucketing.Segment(Bucketing.MarkerName(t), []), lib))
      && (q.stop.None? && !Bucketing.IsMarker(t, MarkerMinLen) ==>
            Matches(args, q, closed, Bucketing.Segment(open.name, open.vals + [t]), lib))
  {
    var q := Step(p, t, helpStr, versionLine, lib);
    if !Bucketing.IsMarker(t, MarkerMinLen) {
      assert q == p.(group := p.group + [t]);
      MatchesValue(args, p, closed, open, t, lib);
    } else if q.stop.None? {
      var cur := Bucketing.MarkerName(t);
      if p.group == [] {
        assert q == p.(last := cur);
        MatchesEmptyClosed(args, p, closed, open, cur, lib);
      } else {
        assert q == Pass(Flush(p.args, p.last, p.group, lib).0, cur, [], None);
        MatchesFlush(args, p, closed, open, cur, lib);
      }
      assert Matches(args, q, closed + [open], Bucketing.Segment(cur, []), lib);
    }
  }

  /** One turn of the loop keeps `AssignedSoFar`. */
  lemma StepAssigned(s: seq<string>, t: string, args: ArgTable, p: Pass, helpStr: string, versionLine: string, lib: Library)
    requires AssignedSoFar(s, args, p, lib)
    ensures AssignedSoFar(s + [t], args, Step(p, t, helpStr, versionLine, lib), lib)
  {
    if p.stop.None? {
      Bucketing.SegmentsSnoc(s, t, MarkerMinLen);
      var segs := Bucketing.Segments(s, MarkerMinLen);
      var k := |segs| - 1;
      assert segs[..k] + [segs[k]] == segs;
      StepMatches(args, p, segs[..k], segs[k], t, helpStr, versionLine, lib);
    }
  }

  /** The loop keeps `AssignedSoFar`. */
  lemma {:induction false} RunAssigned(toks: seq<string>, args: ArgTable, helpStr: string, versionLine: string, lib: Library)
    ensures AssignedSoFar(toks, args, Run(toks, args, helpStr, versionLine, lib), lib)
  {
    if |toks| > 0 {
      var n := |toks| - 1;
      RunAssigned(toks[..n], args, helpStr, versionLine, lib);
      StepAssigned(toks[..n], toks[n], args, Run(toks[..n], args, helpStr, versionLine, lib), helpStr, versionLine, lib);
      assert toks[..n] + [toks[n]] == toks;
    }
  }

  /** The end of the loop assigns the open group unless its option is "". */
  lemma FinishAssigns(args: ArgTable, p: Pass, closed: seq<Bucketing.Segment>, open: Bucketing.Segment, name: string, lib: Library)
    requires p.stop.None? && Matches(args, p, closed, open, lib)
    requires Finish(p, lib).0 == Success && name in args && name != ""
    ensures var after := Finish(p, lib).1;
      name in after && after[name] == args[name].(value := Assigns(args[name].value, Bucketing.Groups(closed + [open], name), lib))
  {
    Bucketing.GroupsSnoc(closed, open, name);
    if p.group != [] && p.last != "" {
      assert Flush(p.args, p.last, p.group, lib).1.None?;
      MatchesFlush(args, p, closed, open, "", lib);
    } else {
      assert Finish(p, lib).1 == p.args;
      assert Bucketing.Groups(closed + [open], name) == Bucketing.Groups(closed, name);
    }
  }

  /** `GroupsAssigned` for the loop and its end. */
  lemma RunGroupsAssigned(toks: seq<string>, args: ArgTable, helpStr: string, versionLine: string, lib: Library, name: string)
    requires name in args && name != ""
    requires Finish(Run(toks, args, helpStr, versionLine, lib), lib).0 == Success
    ensures var after := Finish(Run(toks, args, helpStr, versionLine, lib), lib).1;
      name in after
      && after[name] == args[name].(value := Assigns(args[name].value, Bucketing.Groups(Bucketing.Segments(toks, MarkerMinLen), name), lib))
  {
    var p := Run(toks, args, helpStr, versionLine, lib);
    RunAssigned(toks, args, helpStr, versionLine, lib);
    var segs := Bucketing.Segments(toks, MarkerMinLen);
    var k := |segs| - 1;
    assert segs[..k] + [segs[k]] == segs;
    assert p.stop.None? && Matches(args, p, segs[..k], segs[k], lib);
    FinishAssigns(args, p, segs[..k], segs[k], name, lib);
  }

  /**
   * After a parse that succeeds, every registered option other than "" holds
   * what `AsignGroup` makes of the groups after its markers, taken in order.
   * An option with no such group keeps its entry, and for every variant but
   * `std::string` the last group alone decides the value.
   */
  lemma GroupsAssigned(args: ArgTable, helpStr: string, versionStr: string, argv: seq<string>, lib: Library, name: string)
    requires WellFormed(args) && |argv| >= 1
    requires name in args && name != ""
    requires Parse(args, helpStr, versionStr, argv, lib).0 == Success
    ensures var after := Parse(args, helpStr, versionStr, argv, lib).1;
      var gs := Bucketing.Groups(Bucketing.Segments(argv[1..], MarkerMinLen), name);
      && name in after
      && after[name].value == Assigns(args[name].value, gs, lib)
      && (gs == [] ==> after[name] == args[name])
      && (gs != [] && !args[name].value.String? ==> after[name].value == AsignGroup(args[name].value, gs[|gs| - 1], lib).data)
  {
    var versionLine := VersionLine(argv[0], versionStr);
    assert Parse(args, helpStr, versionStr, argv, lib) == Finish(Run(argv[1..], args, helpStr, versionLine, lib), lib);
    RunGroupsAssigned(argv[1..], args, helpStr, versionLine, lib, name);
    var gs := Bucketing.Groups(Bucketing.Segments(argv[1..], MarkerMinLen), name);
    if gs != [] && !args[name].value.String? {
      assert Supported(args[name].value);
      AssignsLast(args[name].value, gs, lib);
    }
  }


  // ---------------------------------------------------------------------------
  // The parser object

  /** A new parser's `--version` prints the program name and "1.0"; its `--help` the help text. */
  lemma FreshParserBuiltins(args: ArgTable, helpStr: string, prog: string, lib: Library)
    requires args == map[
      "version" := ArgInfo("version", String(""), String("1.0"), "the version of this program"),
      "help" := ArgInfo("help", Bool(false), Bool(false), "get help docs of this program")]
    ensures Parse(args, helpStr, "1.0", [prog, "--version"], lib) == (EarlyExit(prog + " version: 1.0\n"), args)
    ensures Parse(args, helpStr, "1.0", [prog, "--help"], lib) == (EarlyExit(helpStr + "\n"), args)
  {
    var v := "--" + "version";
    var h := "--" + "help";
    assert v == "--version" && h == "--help";
    FirstMarker(args, helpStr, "1.0", prog, [], v, [], lib);
    FirstMarker(args, helpStr, "1.0", prog, [], h, [], lib);
    assert [prog] + ([] + [v] + []) == [prog, "--version"];
    assert [prog] + ([] + [h] + []) == [prog, "--help"];
    assert v[2..] == "version" && h[2..] == "help";
    assert VersionLine(prog, "1.0") == prog + " version: 1.0\n";
  }
}
