/**
 * The argv scan shared by the `src` parser (`OptionParser::SetupFlags`) and
 * the v2 parser (`OptionParser::setupFlags`): every token after the program
 * name is either an option marker (`--name`), which opens a fresh bucket for
 * `name`, or a value, which is appended to the bucket of the most recent
 * marker (or of the default option before any marker). A marker naming
 * `help` or `version` ends the scan at once.
 *
 * The two parsers differ only in the marker length test (`minLen`: longer
 * than 2 characters in `src`, longer than 3 in v2) and in the name of the
 * default bucket (`defName`: "def-opt" and "__NOPT__").
 *
 * `Scan` is the fold the scan loop computes; `LastMention`, `RunEnd` and
 * `Run` give an independent, index-based description of each bucket, and
 * `ScanBuckets` proves the two agree.
 *
 * `Segments` and `Groups` cut a command line at every marker, the reading
 * the `flags-template` and `flags-macro` parsers give it, where each group
 * of values is assigned when the next marker comes.
 */
module Bucketing {
  import opened Text

  /** A token is an option marker when it is longer than `minLen` and starts with "--". */
  predicate IsMarker(t: string, minLen: nat)
  {
    |t| > minLen && |t| >= 2 && t[..2] == "--"
  }

  /** The option a marker names: the token without its leading "--". */
  function MarkerName(t: string): (name: string)
    requires |t| >= 2
    ensures |name| == |t| - 2
    ensures t == "--" + name || t[..2] != "--"
  {
    t[2..]
  }

  /** A marker for the built-in `help` or `version` option. */
  predicate IsStop(t: string, minLen: nat)
  {
    IsMarker(t, minLen) && (MarkerName(t) == "help" || MarkerName(t) == "version")
  }

  // ---------------------------------------------------------------------------
  // The fold

  /** The loop state: current option, buckets so far and the marker names in order. */
  datatype ScanState = ScanState(cur: string, buckets: map<string, seq<string>>, optNames: seq<string>)

  /** `inputArgs[cur]`, where indexing a `std::map` creates an empty bucket. */
  function BucketOf(buckets: map<string, seq<string>>, name: string): seq<string>
  {
    if name in buckets then buckets[name] else []
  }

  /** One iteration of the scan loop (the help/version exit aside). */
  function Step(st: ScanState, t: string, minLen: nat): ScanState
  {
    if IsMarker(t, minLen) then
      var name := MarkerName(t);
      ScanState(name, st.buckets[name := []], st.optNames + [name])
    else
      ScanState(st.cur, st.buckets[st.cur := BucketOf(st.buckets, st.cur) + [t]], st.optNames)
  }

  /** The state after scanning all of `s`, starting in the default bucket. */
  function Scan(s: seq<string>, minLen: nat, defName: string): ScanState
  {
    if |s| == 0 then ScanState(defName, map[], [])
    else Step(Scan(s[..|s| - 1], minLen, defName), s[|s| - 1], minLen)
  }

  /** The first help/version marker, which cuts the scan short. */
  function FirstStop(s: seq<string>, minLen: nat): (r: Option<string>)
    ensures r.None? ==> forall k | 0 <= k < |s| :: !IsStop(s[k], minLen)
    ensures r.Some? ==> r.value == "help" || r.value == "version"
    ensures r.Some? ==> exists k | 0 <= k < |s| ::
      IsStop(s[k], minLen) && MarkerName(s[k]) == r.value && forall j | 0 <= j < k :: !IsStop(s[j], minLen)
  {
    if |s| == 0 then None
    else if IsStop(s[0], minLen) then
      Some(MarkerName(s[0]))
    else
      var r := FirstStop(s[1..], minLen);
      if r.Some? then
        var k :| 0 <= k < |s[1..]| && IsStop(s[1..][k], minLen) && MarkerName(s[1..][k]) == r.value
          && forall j | 0 <= j < k :: !IsStop(s[1..][j], minLen);
        assert IsStop(s[k + 1], minLen) && MarkerName(s[k + 1]) == r.value;
        assert forall j | 0 <= j < k + 1 :: !IsStop(s[j], minLen) by {
          forall j | 0 <= j < k + 1 ensures !IsStop(s[j], minLen) {
            if j > 0 {
              assert s[j] == s[1..][j - 1];
            }
          }
        }
        r
      else
        r
  }

  /** The stop the loop meets at index `i` is the one `FirstStop` reports. */
  lemma {:induction false} FirstStopAt(s: seq<string>, i: nat, minLen: nat)
    requires i < |s| && IsStop(s[i], minLen)
    requires forall k | 0 <= k < i :: !IsStop(s[k], minLen)
    ensures FirstStop(s, minLen) == Some(MarkerName(s[i]))
    decreases i
  {
    if i > 0 {
      assert forall k | 0 <= k < i - 1 :: !IsStop(s[1..][k], minLen) by {
        forall k | 0 <= k < i - 1 ensures !IsStop(s[1..][k], minLen) {
          assert s[1..][k] == s[k + 1];
        }
      }
      FirstStopAt(s[1..], i - 1, minLen);
    }
  }

  // ---------------------------------------------------------------------------
  // Index-based reference description of the buckets

  /** Index of the last marker for `name` in `s`, or -1. */
  function LastMention(s: seq<string>, name: string, minLen: nat): (r: int)
    ensures -1 <= r < |s|
    ensures r >= 0 ==> IsMarker(s[r], minLen) && MarkerName(s[r]) == name
    ensures forall k | r < k < |s| :: !(IsMarker(s[k], minLen) && MarkerName(s[k]) == name)
  {
    if |s| == 0 then -1
    else if IsMarker(s[|s| - 1], minLen) && MarkerName(s[|s| - 1]) == name then |s| - 1
    else
      var r := LastMention(s[..|s| - 1], name, minLen);
      assert forall k | r < k < |s| - 1 :: s[k] == s[..|s| - 1][k];
      r
  }

  /** The first index at or after `j` that holds a marker, or `|s|`. */
  function RunEnd(s: seq<string>, j: nat, minLen: nat): (e: nat)
    requires j <= |s|
    ensures j <= e <= |s|
    ensures forall k | j <= k < e :: !IsMarker(s[k], minLen)
    ensures e < |s| ==> IsMarker(s[e], minLen)
    decreases |s| - j
  {
    if j == |s| || IsMarker(s[j], minLen) then j else RunEnd(s, j + 1, minLen)
  }

  /** Where the tokens that survive in `name`'s bucket begin. */
  function Start(s: seq<string>, name: string, minLen: nat): (j: nat)
    ensures j <= |s|
  {
    LastMention(s, name, minLen) + 1
  }

  /**
   * A bucket exists for `name` when some marker names it, or when it is the
   * default bucket and at least one value precedes the first marker.
   */
  predicate HasBucket(s: seq<string>, name: string, defName: string, minLen: nat)
  {
    LastMention(s, name, minLen) >= 0 || (name == defName && RunEnd(s, 0, minLen) > 0)
  }

  /** The values between `name`'s last mention (or the start) and the next marker. */
  function Run(s: seq<string>, name: string, minLen: nat): (r: seq<string>)
    ensures forall k | 0 <= k < |r| :: !IsMarker(r[k], minLen)
  {
    s[Start(s, name, minLen)..RunEnd(s, Start(s, name, minLen), minLen)]
  }

  // ---------------------------------------------------------------------------
  // The fold agrees with the reference description

  /** Appending one token moves `RunEnd` only when the run reached the end. */
  lemma {:induction false} RunEndSnoc(s: seq<string>, t: string, j: nat, minLen: nat)
    requires j <= |s|
    ensures RunEnd(s + [t], j, minLen) ==
      if RunEnd(s, j, minLen) < |s| then RunEnd(s, j, minLen)
      else if IsMarker(t, minLen) then |s| else |s| + 1
    decreases |s| - j
  {
    if j < |s| {
      assert (s + [t])[j] == s[j];
      if !IsMarker(s[j], minLen) {
        RunEndSnoc(s, t, j + 1, minLen);
      }
    }
  }

  /** The mention indices of `s + [t]` in terms of those of `s`. */
  lemma LastMentionSnoc(s: seq<string>, t: string, name: string, minLen: nat)
    ensures LastMention(s + [t], name, minLen) ==
      if IsMarker(t, minLen) && MarkerName(t) == name then |s| else LastMention(s, name, minLen)
  {
    assert (s + [t])[..|s|] == s;
  }

  /** What the scan keeps about the current option: its bucket reaches the end of the input. */
  ghost predicate CurHolds(s: seq<string>, st: ScanState, defName: string, minLen: nat)
  {
    && (st.cur == defName || LastMention(s, st.cur, minLen) >= 0)
    && RunEnd(s, Start(s, st.cur, minLen), minLen) == |s|
  }

  /**
   * The fold agrees with the reference description at `x`; a bucket other
   * than the current one stops at an earlier marker.
   */
  ghost predicate AgreeAt(s: seq<string>, st: ScanState, defName: string, minLen: nat, x: string)
  {
    && (x in st.buckets <==> HasBucket(s, x, defName, minLen))
    && (x in st.buckets ==> st.buckets[x] == Run(s, x, minLen))
    && (x in st.optNames <==> LastMention(s, x, minLen) >= 0)
    && (x != st.cur && HasBucket(s, x, defName, minLen) ==> RunEnd(s, Start(s, x, minLen), minLen) < |s|)
  }

  ghost predicate Agree(s: seq<string>, st: ScanState, defName: string, minLen: nat)
  {
    CurHolds(s, st, defName, minLen) && forall x :: AgreeAt(s, st, defName, minLen, x)
  }

  /** A bucket whose run ends before the new token is unaffected by it. */
  lemma RunSnocSame(s: seq<string>, t: string, x: string, minLen: nat)
    requires LastMention(s + [t], x, minLen) == LastMention(s, x, minLen)
    requires RunEnd(s + [t], Start(s, x, minLen), minLen) == RunEnd(s, Start(s, x, minLen), minLen)
    ensures Run(s + [t], x, minLen) == Run(s, x, minLen)
  {
  }

  lemma StepMarkerAt(s: seq<string>, t: string, st: ScanState, defName: string, minLen: nat, x: string)
    requires IsMarker(t, minLen)
    requires AgreeAt(s, st, defName, minLen, x)
    ensures AgreeAt(s + [t], Step(st, t, minLen), defName, minLen, x)
  {
    var s', st', y := s + [t], Step(st, t, minLen), MarkerName(t);
    LastMentionSnoc(s, t, x, minLen);
    if x == y {
      assert Start(s', x, minLen) == |s'|;
      assert Run(s', x, minLen) == [];
    } else {
      RunEndSnoc(s, t, Start(s, x, minLen), minLen);
      RunEndSnoc(s, t, 0, minLen);
      assert HasBucket(s', x, defName, minLen) == HasBucket(s, x, defName, minLen);
      RunSnocSame(s, t, x, minLen);
    }
  }

  lemma StepMarker(s: seq<string>, t: string, st: ScanState, defName: string, minLen: nat)
    requires IsMarker(t, minLen)
    requires Agree(s, st, defName, minLen)
    ensures Agree(s + [t], Step(st, t, minLen), defName, minLen)
  {
    var s' := s + [t];
    LastMentionSnoc(s, t, MarkerName(t), minLen);
    assert RunEnd(s', |s'|, minLen) == |s'|;
    forall x
      ensures AgreeAt(s', Step(st, t, minLen), defName, minLen, x)
    {
      StepMarkerAt(s, t, st, defName, minLen, x);
    }
  }

  lemma StepValueCur(s: seq<string>, t: string, st: ScanState, defName: string, minLen: nat)
    requires !IsMarker(t, minLen)
    requires CurHolds(s, st, defName, minLen) && AgreeAt(s, st, defName, minLen, st.cur)
    ensures CurHolds(s + [t], Step(st, t, minLen), defName, minLen)
    ensures AgreeAt(s + [t], Step(st, t, minLen), defName, minLen, st.cur)
  {
    var s', c := s + [t], st.cur;
    LastMentionSnoc(s, t, c, minLen);
    var a := Start(s, c, minLen);
    RunEndSnoc(s, t, a, minLen);
    RunEndSnoc(s, t, 0, minLen);
    assert HasBucket(s', c, defName, minLen);
    StepValueCurBucket(s, t, st, defName, minLen);
  }

  lemma StepValueCurBucket(s: seq<string>, t: string, st: ScanState, defName: string, minLen: nat)
    requires !IsMarker(t, minLen)
    requires CurHolds(s, st, defName, minLen) && AgreeAt(s, st, defName, minLen, st.cur)
    ensures Step(st, t, minLen).buckets[st.cur] == Run(s + [t], st.cur, minLen)
  {
    var s', c := s + [t], st.cur;
    LastMentionSnoc(s, t, c, minLen);
    var a := Start(s, c, minLen);
    RunEndSnoc(s, t, a, minLen);
    assert Run(s', c, minLen) == s'[a..|s'|];
    assert BucketOf(st.buckets, c) == s[a..|s|] by {
      if c !in st.buckets {
        assert |s| == 0;
      }
    }
    assert s'[a..|s'|] == s[a..|s|] + [t];
  }

  lemma StepValueOther(s: seq<string>, t: string, st: ScanState, defName: string, minLen: nat, x: string)
    requires !IsMarker(t, minLen) && x != st.cur
    requires CurHolds(s, st, defName, minLen) && AgreeAt(s, st, defName, minLen, x)
    ensures AgreeAt(s + [t], Step(st, t, minLen), defName, minLen, x)
  {
    var s' := s + [t];
    LastMentionSnoc(s, t, x, minLen);
    RunEndSnoc(s, t, Start(s, x, minLen), minLen);
    RunEndSnoc(s, t, 0, minLen);
    if x == defName && LastMention(s, x, minLen) < 0 && !HasBucket(s, x, defName, minLen) {
      assert |s| > 0;
    }
    assert HasBucket(s', x, defName, minLen) == HasBucket(s, x, defName, minLen);
    if HasBucket(s, x, defName, minLen) {
      RunSnocSame(s, t, x, minLen);
    }
  }

  lemma StepValue(s: seq<string>, t: string, st: ScanState, defName: string, minLen: nat)
    requires !IsMarker(t, minLen)
    requires Agree(s, st, defName, minLen)
    ensures Agree(s + [t], Step(st, t, minLen), defName, minLen)
  {
    StepValueCur(s, t, st, defName, minLen);
    forall x | x != st.cur
      ensures AgreeAt(s + [t], Step(st, t, minLen), defName, minLen, x)
    {
      StepValueOther(s, t, st, defName, minLen, x);
    }
  }

  /** Induction over the fold. */
  lemma {:induction false} ScanAgrees(s: seq<string>, minLen: nat, defName: string)
    ensures Agree(s, Scan(s, minLen, defName), defName, minLen)
  {
    if |s| == 0 {
      assert RunEnd(s, 0, minLen) == 0;
    } else {
      var p, t := s[..|s| - 1], s[|s| - 1];
      assert s == p + [t];
      ScanAgrees(p, minLen, defName);
      if IsMarker(t, minLen) {
        StepMarker(p, t, Scan(p, minLen, defName), defName, minLen);
      } else {
        StepValue(p, t, Scan(p, minLen, defName), defName, minLen);
      }
    }
  }

  /**
   * The fold agrees with the reference description: a bucket exists exactly
   * for the names some marker gives, and for the default bucket when values
   * precede the first marker; `optNames` holds exactly the marker names.
   */
  lemma ScanBuckets(s: seq<string>, minLen: nat, defName: string)
    ensures forall x :: x in Scan(s, minLen, defName).buckets <==> HasBucket(s, x, defName, minLen)
    ensures forall x :: x in Scan(s, minLen, defName).optNames <==> LastMention(s, x, minLen) >= 0
    ensures forall x | x in Scan(s, minLen, defName).buckets :: Scan(s, minLen, defName).buckets[x] == Run(s, x, minLen)
  {
    ScanAgrees(s, minLen, defName);
    var st := Scan(s, minLen, defName);
    forall x
      ensures x in st.buckets <==> HasBucket(s, x, defName, minLen)
      ensures x in st.optNames <==> LastMention(s, x, minLen) >= 0
      ensures x in st.buckets ==> st.buckets[x] == Run(s, x, minLen)
    {
      assert AgreeAt(s, st, defName, minLen, x);
    }
  }

  /** The bucket contents, stated on their own: only tokens after the last mention survive. */
  lemma BucketIsLastRun(s: seq<string>, minLen: nat, defName: string, name: string)
    requires name in Scan(s, minLen, defName).buckets
    ensures LastMention(s, name, minLen) >= 0 || name == defName
    ensures Scan(s, minLen, defName).buckets[name] ==
      s[Start(s, name, minLen)..RunEnd(s, Start(s, name, minLen), minLen)]
  {
    ScanBuckets(s, minLen, defName);
  }

  /** Two different buckets come from disjoint stretches of the input: no token lands in two. */
  lemma BucketsDisjoint(s: seq<string>, minLen: nat, defName: string, x: string, y: string)
    requires x != y
    requires HasBucket(s, x, defName, minLen) && HasBucket(s, y, defName, minLen)
    ensures RunEnd(s, Start(s, x, minLen), minLen) <= Start(s, y, minLen)
         || RunEnd(s, Start(s, y, minLen), minLen) <= Start(s, x, minLen)
  {
    var a, b := Start(s, x, minLen), Start(s, y, minLen);
    if a < b {
      assert IsMarker(s[b - 1], minLen);
    } else if b < a {
      assert IsMarker(s[a - 1], minLen);
    }
  }

  /** Tokens before the first marker go to the default bucket, in order. */
  lemma DefaultBucket(s: seq<string>, minLen: nat, defName: string)
    requires LastMention(s, defName, minLen) < 0
    ensures var st := Scan(s, minLen, defName);
      (defName in st.buckets <==> RunEnd(s, 0, minLen) > 0)
      && (defName in st.buckets ==> st.buckets[defName] == s[..RunEnd(s, 0, minLen)])
  {
    ScanBuckets(s, minLen, defName);
  }

  // ---------------------------------------------------------------------------
  // The loop

  /**
   * The scan loop: `stopped` is the help/version option that cut it short;
   * otherwise `st` is the full fold.
   */
  method ScanArgv(toks: seq<string>, minLen: nat, defName: string) returns (stopped: Option<string>, st: ScanState)
    ensures stopped == FirstStop(toks, minLen)
    ensures stopped.None? ==> st == Scan(toks, minLen, defName)
  {
    var cur := defName;
    var buckets: map<string, seq<string>> := map[];
    var optNames: seq<string> := [];
    for i := 0 to |toks|
      invariant ScanState(cur, buckets, optNames) == Scan(toks[..i], minLen, defName)
      invariant forall k | 0 <= k < i :: !IsStop(toks[k], minLen)
    {
      assert toks[..i + 1][..i] == toks[..i];
      var str := toks[i];
      if IsMarker(str, minLen) {
        cur := str[2..];
        buckets := buckets[cur := []];
        optNames := optNames + [cur];
        if cur == "help" || cur == "version" {
          FirstStopAt(toks, i, minLen);
          return Some(cur), ScanState(cur, buckets, optNames);
        }
      } else {
        var bucket := if cur in buckets then buckets[cur] else [];
        buckets := buckets[cur := bucket + [str]];
      }
    }
    assert toks[..|toks|] == toks;
    stopped := None;
    st := ScanState(cur, buckets, optNames);
  }

  // ---------------------------------------------------------------------------
  // After the scan: unknown names and the leading values

  /** The first name in `names` that is not in `known`. */
  function FirstUnknown(names: seq<string>, known: set<string>): Option<string>
  {
    if |names| == 0 then None
    else if names[0] !in known then Some(names[0])
    else FirstUnknown(names[1..], known)
  }

  /** No complaint exactly when every name is known; a complaint is an unknown one of `names`. */
  lemma {:induction false} FirstUnknownSpec(names: seq<string>, known: set<string>)
    ensures FirstUnknown(names, known).None? <==> forall k | 0 <= k < |names| :: names[k] in known
    ensures FirstUnknown(names, known).Some? ==>
      FirstUnknown(names, known).value in names && FirstUnknown(names, known).value !in known
  {
    if |names| > 0 {
      FirstUnknownSpec(names[1..], known);
      assert forall k | 1 <= k < |names| :: names[k] == names[1..][k - 1];
      if FirstUnknown(names[1..], known).Some? {
        assert FirstUnknown(names[1..], known).value in names[1..];
      }
    }
  }

  /**
   * The buckets after the scan, the bucket of leading values dropped when no
   * option is registered under `defName`.
   */
  function KeptBuckets(toks: seq<string>, minLen: nat, defName: string, known: set<string>): map<string, seq<string>>
  {
    var st := Scan(toks, minLen, defName);
    if defName !in known && defName in st.buckets then st.buckets - {defName} else st.buckets
  }

  /** Once every marker names a known option, so does every kept bucket. */
  lemma KeptBucketsKnown(toks: seq<string>, minLen: nat, defName: string, known: set<string>)
    requires FirstUnknown(Scan(toks, minLen, defName).optNames, known).None?
    ensures forall name | name in KeptBuckets(toks, minLen, defName, known) :: name in known
  {
    ScanBuckets(toks, minLen, defName);
    var st := Scan(toks, minLen, defName);
    FirstUnknownSpec(st.optNames, known);
    forall name | name in KeptBuckets(toks, minLen, defName, known) ensures name in known {
      if LastMention(toks, name, minLen) >= 0 {
        assert name in st.optNames;
      }
    }
  }

  // ---------------------------------------------------------------------------
  // Segments: the line cut at every marker

  /** A marker's name and the values after it, up to the next marker. */
  datatype Segment = Segment(name: string, vals: seq<string>)

  /**
   * The tokens cut at every marker: the first segment, named "", holds the
   * values before any marker, and each marker opens a segment of its own.
   */
  function Segments(toks: seq<string>, minLen: nat): (segs: seq<Segment>)
    ensures |segs| >= 1 && segs[0].name == ""
  {
    if |toks| == 0 then [Segment("", [])]
    else
      var segs := Segments(toks[..|toks| - 1], minLen);
      var t := toks[|toks| - 1];
      if IsMarker(t, minLen) then segs + [Segment(MarkerName(t), [])]
      else segs[..|segs| - 1] + [Segment(segs[|segs| - 1].name, segs[|segs| - 1].vals + [t])]
  }

  /** The non-empty value groups of the segments named `name`, in order. */
  function Groups(segs: seq<Segment>, name: string): (gs: seq<seq<string>>)
    ensures forall k | 0 <= k < |gs| :: gs[k] != []
  {
    if |segs| == 0 then []
    else
      var last := segs[|segs| - 1];
      Groups(segs[..|segs| - 1], name) + (if last.name == name && last.vals != [] then [last.vals] else [])
  }

  /** The segments after one more token: a marker closes the open segment, a value extends it. */
  lemma SegmentsSnoc(s: seq<string>, t: string, minLen: nat)
    ensures var segs := Segments(s, minLen);
      var segs' := Segments(s + [t], minLen);
      var k := |segs| - 1;
      if IsMarker(t, minLen) then
        segs'[..|segs'| - 1] == segs && segs'[|segs'| - 1] == Segment(MarkerName(t), [])
      else
        segs'[..|segs'| - 1] == segs[..k] && segs'[|segs'| - 1] == Segment(segs[k].name, segs[k].vals + [t])
  {
    assert (s + [t])[..|s|] == s;
    var segs := Segments(s, minLen);
    var k := |segs| - 1;
    if IsMarker(t, minLen) {
      assert (segs + [Segment(MarkerName(t), [])])[..|segs|] == segs;
    }
  }

  /** Closing one more segment adds its group to the groups of its name. */
  lemma GroupsSnoc(closed: seq<Segment>, seg: Segment, n: string)
    ensures Groups(closed + [seg], n)
      == Groups(closed, n) + (if seg.name == n && seg.vals != [] then [seg.vals] else [])
  {
    assert (closed + [seg])[..|closed|] == closed;
  }
}
