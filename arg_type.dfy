/**
 * The value hierarchy of the option parser (`Argument` and the variants the
 * header stamps out with its generator macro): coercion of a list of raw
 * tokens into typed data, rendering of data as text, type names, and the
 * helpers `Tolower`, `StrToBool` and `IsALetter`.
 *
 * The `float` and `double` variants are not modelled.
 */
module ArgType {
  import opened Text

  // ---------------------------------------------------------------------------
  // Utils

  predicate IsALetter(c: char)
  {
    ('a' <= c <= 'z') || ('A' <= c <= 'Z')
  }

  /** `Utils::Tolower`: builds the lowered string one character at a time. */
  method Tolower(str: string) returns (lowerStr: string)
    ensures lowerStr == Lower(str)
    ensures |lowerStr| == |str|
    ensures forall i | 0 <= i < |str| :: !IsALetter(str[i]) ==> lowerStr[i] == str[i]
    ensures forall i | 0 <= i < |str| :: IsALetter(str[i]) ==> 'a' <= lowerStr[i] <= 'z'
    ensures forall i | 0 <= i < |str| :: 'a' <= str[i] <= 'z' ==> lowerStr[i] == str[i]
    ensures Lower(lowerStr) == lowerStr
  {
    lowerStr := [];
    for i := 0 to |str|
      invariant lowerStr == Lower(str[..i])
    {
      assert str[..i + 1] == str[..i] + [str[i]];
      lowerStr := lowerStr + [LowerChar(str[i])];
    }
    assert str[..|str|] == str;
  }

  /** `IsALetter` holds exactly of the characters that lower to 'a'..'z'. */
  lemma IsALetterLowers(c: char)
    ensures IsALetter(c) <==> 'a' <= LowerChar(c) <= 'z'
  {
  }

  /**
   * `Utils::StrToBool`. `None` stands for the `std::invalid_argument` that
   * `std::stoi` throws on a token that is neither a keyword nor a number.
   */
  function StrToBool(str: string): Option<bool>
  {
    match BoolKeyword(Lower(str))
    case Some(b) => Some(b)
    case None =>
      match Stoi(str)
      case Some(n) => Some(n != 0)
      case None => None
  }

  /** The keyword table of `Utils::StrToBool`, on the lower-cased token. */
  function BoolKeyword(val: string): Option<bool>
  {
    if val == "on" || val == "1" || val == "true" || val == "" then Some(true)
    else if val == "off" || val == "0" || val == "false" then Some(false)
    else None
  }

  /** Two tokens that differ only in letter case convert alike. */
  lemma StrToBoolCaseInsensitive(s: string, t: string)
    requires Lower(s) == Lower(t)
    ensures StrToBool(s) == StrToBool(t)
  {
    StoiLower(s);
    StoiLower(t);
  }

  /** The keyword table, whatever the letter case of the token. */
  lemma StrToBoolKeywords(s: string)
    ensures Lower(s) in {"on", "1", "true", ""} ==> StrToBool(s) == Some(true)
    ensures Lower(s) in {"off", "0", "false"} ==> StrToBool(s) == Some(false)
  {
  }

  /** `os << std::boolalpha << b`. */
  function BoolString(b: bool): string
  {
    if b then "true" else "false"
  }

  lemma {:induction false} LowerIntToString(n: int)
    ensures Lower(IntToString(n)) == IntToString(n)
  {
    var m: nat := if n < 0 then -n else n;
    NatToStringDigits(m);
    var s := IntToString(n);
    forall i | 0 <= i < |s| ensures LowerChar(s[i]) == s[i] {
      if n < 0 && i > 0 {
        assert s[i] == NatToString(m)[i - 1];
      }
    }
  }

  lemma IntToStringEndsInDigit(n: int)
    ensures |IntToString(n)| > 0 && IsDigit(IntToString(n)[|IntToString(n)| - 1])
  {
    var m: nat := if n < 0 then -n else n;
    NatToStringDigits(m);
    var s := IntToString(n);
    assert s[|s| - 1] == NatToString(m)[|NatToString(m)| - 1];
  }

  /**
   * A number token converts to "nonzero": `StrToBool` reads what
   * `IntToString` writes, including the keywords "1" and "0".
   */
  lemma StrToBoolNumber(n: int)
    ensures StrToBool(IntToString(n)) == Some(n != 0)
  {
    var s := IntToString(n);
    LowerIntToString(n);
    StoiIntToString(n);
    IntToStringEndsInDigit(n);
    if s == "1" {
      assert IntToString(1) == "1";
      StoiIntToString(1);
    } else if s == "0" {
      assert IntToString(0) == "0";
      StoiIntToString(0);
    } else {
      assert s != "on" && s != "true" && s != "" && s != "off" && s != "false" by {
        assert IsDigit(s[|s| - 1]);
      }
    }
  }

  /** A rendered boolean converts back to itself. */
  lemma StrToBoolBoolString(b: bool)
    ensures StrToBool(BoolString(b)) == Some(b)
  {
    assert Lower("true") == "true";
    assert Lower("false") == "false";
  }

  // ---------------------------------------------------------------------------
  // Data held by the argument variants

  datatype Data =
    | Int(i: int)
    | IntVec(iv: seq<int>)
    | Bool(b: bool)
    | BoolVec(bv: seq<bool>)
    | String(s: string)
    | StringVec(sv: seq<string>)
    | Help(text: string)
    | Version(text: string)

  /** Both hold the same variant (an option's type never changes). */
  predicate SameKind(a: Data, b: Data)
  {
    match a
    case Int(_) => b.Int?
    case IntVec(_) => b.IntVec?
    case Bool(_) => b.Bool?
    case BoolVec(_) => b.BoolVec?
    case String(_) => b.String?
    case StringVec(_) => b.StringVec?
    case Help(_) => b.Help?
    case Version(_) => b.Version?
  }

  /** `TypeNameString`: the variant's name as the generator macro spells it. */
  function TypeNameString(d: Data): string
  {
    match d
    case Int(_) => "Int"
    case IntVec(_) => "IntVec"
    case Bool(_) => "Bool"
    case BoolVec(_) => "BoolVec"
    case String(_) => "String"
    case StringVec(_) => "StringVec"
    case Help(_) => "Help"
    case Version(_) => "Version"
  }

  /** The type name identifies the variant: equal names, same variant. */
  lemma TypeNameIdentifiesKind(a: Data, b: Data)
    ensures TypeNameString(a) == TypeNameString(b) <==> SameKind(a, b)
  {
  }

  /** Two values of the same variant as a third are of one variant. */
  lemma SameKindShared(a: Data, b: Data, c: Data)
    requires SameKind(a, b) && SameKind(c, b)
    ensures SameKind(a, c)
  {
  }

  // ---------------------------------------------------------------------------
  // Rendering (`ValueString` and the vector `operator<<`)

  /** What the vector `operator<<` writes, given the text of each element. */
  function RenderVec(elems: seq<string>): string
  {
    "[" + Join(elems, ", ") + "]"
  }

  /** The vector `operator<<`: '[' , each element but the last with ", ", the last, ']'. */
  method WriteVec(elems: seq<string>) returns (os: string)
    ensures os == RenderVec(elems)
    ensures elems == [] ==> os == "[]"
    ensures |elems| == 1 ==> os == "[" + elems[0] + "]"
  {
    os := "[";
    if |elems| == 0 {
      os := os + "]";
    } else {
      var n := |elems| - 1;
      for i := 0 to n
        invariant os == "[" + Terminated(elems[..i], ", ")
      {
        assert elems[..i + 1][..i] == elems[..i];
        os := os + elems[i] + ", ";
      }
      os := os + elems[n];
      os := os + "]";
    }
  }

  /** Every element's text occurs in the rendering. */
  lemma RenderVecMentions(elems: seq<string>, k: nat)
    requires k < |elems|
    ensures Infix(elems[k], RenderVec(elems))
  {
    var n := |elems| - 1;
    var front := Terminated(elems[..n], ", ");
    assert Join(elems, ", ") == front + elems[n];
    if k == n {
      assert InfixAt(elems[k], front + elems[n], |front|);
    } else {
      assert elems[..n][k] == elems[k];
      InfixTerminated(elems[..n], ", ", k);
      InfixLeft(elems[k], front, elems[n]);
    }
    InfixGrows(elems[k], Join(elems, ", "), "[", "]");
  }

  /** The ints 1, 3, 5 render as "[1, 3, 5]". */
  lemma RenderVecOdds()
    ensures RenderVec(IntStrings([1, 3, 5])) == "[1, 3, 5]"
  {
    var e := IntStrings([1, 3, 5]);
    assert e == ["1", "3", "5"];
    assert Terminated(e[..2], ", ") == "1, 3, " by {
      assert e[..2][..1] == ["1"];
      assert Terminated(e[..2][..1], ", ") == "1, " by {
        assert ["1"][..0] == [];
      }
    }
  }

  function IntStrings(v: seq<int>): (r: seq<string>)
    ensures |r| == |v| && forall k | 0 <= k < |v| :: r[k] == IntToString(v[k])
  {
    seq(|v|, k requires 0 <= k < |v| => IntToString(v[k]))
  }

  function BoolStrings(v: seq<bool>): (r: seq<string>)
    ensures |r| == |v| && forall k | 0 <= k < |v| :: r[k] == BoolString(v[k])
  {
    seq(|v|, k requires 0 <= k < |v| => BoolString(v[k]))
  }

  /** `ValueString`: `stream << std::boolalpha << data`. */
  function ValueString(d: Data): string
  {
    match d
    case Int(n) => IntToString(n)
    case IntVec(v) => RenderVec(IntStrings(v))
    case Bool(b) => BoolString(b)
    case BoolVec(v) => RenderVec(BoolStrings(v))
    case String(s) => s
    case StringVec(v) => RenderVec(v)
    case Help(s) => s
    case Version(s) => s
  }

  // ---------------------------------------------------------------------------
  // Stream extraction

  /**
   * What `std::stringstream >>` leaves in its target after reading one
   * token: the `int` and the `bool` read (0 and false where the read
   * fails), and the string read into a `std::string` holding `prev` (the
   * first word of the token, or `prev` itself when the token has none).
   * These are library behaviour, so the model takes them as given.
   */
  datatype Streams = Streams(
    readInt: string -> int,
    readBool: string -> bool,
    readWord: (string, string) -> string)

  // ---------------------------------------------------------------------------
  // Coercion (`DataFromStringVector`)

  datatype Transformed<T> = Transformed(elems: seq<T>, threw: bool)

  /** `std::vector::resize`: cut, or extend with the value-initialised element. */
  function Resize<T>(v: seq<T>, n: nat, zero: T): (r: seq<T>)
    ensures |r| == n
    ensures forall k | 0 <= k < n && k < |v| :: r[k] == v[k]
    ensures forall k | |v| <= k < n :: r[k] == zero
  {
    if n <= |v| then v[..n] else v + seq(n - |v|, _ => zero)
  }

  /**
   * `std::transform` of the tokens from index `i` on into `cur`, stopping
   * at the first token `conv` rejects (where `std::stoi` throws).
   */
  function Transform<T>(cur: seq<T>, strVec: seq<string>, i: nat, conv: string -> Option<T>): Transformed<T>
    requires |cur| == |strVec| && i <= |strVec|
    decreases |strVec| - i
  {
    if i == |strVec| then Transformed(cur, false)
    else match conv(strVec[i])
      case None => Transformed(cur, true)
      case Some(x) => Transform(cur[i := x], strVec, i + 1, conv)
  }

  /**
   * The transform keeps the length; it completes exactly when every token
   * from `i` on converts, and then element `k >= i` is the conversion of
   * token `k` while the elements before `i` are untouched.
   */
  lemma {:induction false} TransformSpec<T>(cur: seq<T>, strVec: seq<string>, i: nat, conv: string -> Option<T>)
    requires |cur| == |strVec| && i <= |strVec|
    ensures var r := Transform(cur, strVec, i, conv);
      && |r.elems| == |strVec|
      && (r.threw <==> exists k | i <= k < |strVec| :: conv(strVec[k]).None?)
      && (forall k | 0 <= k < i :: r.elems[k] == cur[k])
      && (!r.threw ==> forall k | i <= k < |strVec| :: Some(r.elems[k]) == conv(strVec[k]))
    decreases |strVec| - i
  {
    if i < |strVec| && conv(strVec[i]).Some? {
      var x := conv(strVec[i]).value;
      TransformSpec(cur[i := x], strVec, i + 1, conv);
    }
  }

  /**
   * `clear()` followed by one `push_back` per token, stopping at the first
   * token `conv` rejects: the elements pushed so far, and whether it stopped.
   */
  function PushAll<T>(strVec: seq<string>, conv: string -> Option<T>): Transformed<T>
  {
    if |strVec| == 0 then Transformed([], false)
    else
      var p := PushAll(strVec[..|strVec| - 1], conv);
      if p.threw then p
      else match conv(strVec[|strVec| - 1])
        case None => Transformed(p.elems, true)
        case Some(x) => Transformed(p.elems + [x], false)
  }

  /**
   * The pushed elements are the conversions of a prefix of the tokens; the
   * loop stops exactly when some token is rejected, and then the token after
   * that prefix is the first rejected one; otherwise every token was pushed.
   */
  lemma {:induction false} PushAllSpec<T>(strVec: seq<string>, conv: string -> Option<T>)
    ensures var r := PushAll(strVec, conv);
      && |r.elems| <= |strVec|
      && (forall k | 0 <= k < |r.elems| :: Some(r.elems[k]) == conv(strVec[k]))
      && (r.threw <==> exists k | 0 <= k < |strVec| :: conv(strVec[k]).None?)
      && (r.threw ==> |r.elems| < |strVec| && conv(strVec[|r.elems|]).None?)
      && (!r.threw ==> |r.elems| == |strVec|)
  {
    if |strVec| > 0 {
      var n := |strVec| - 1;
      var pre := strVec[..n];
      PushAllSpec(pre, conv);
      assert forall k | 0 <= k < n :: pre[k] == strVec[k];
    }
  }

  /** Once the loop has stopped on a prefix, the later tokens change nothing. */
  lemma {:induction false} PushAllStops<T>(strVec: seq<string>, j: nat, conv: string -> Option<T>)
    requires j <= |strVec| && PushAll(strVec[..j], conv).threw
    ensures PushAll(strVec, conv) == PushAll(strVec[..j], conv)
    decreases |strVec|
  {
    if j < |strVec| {
      var n := |strVec| - 1;
      assert strVec[..n][..j] == strVec[..j];
      PushAllStops(strVec[..n], j, conv);
    } else {
      assert strVec[..j] == strVec;
    }
  }

  /** The `clear()`-then-`push_back` loop that fills a vector from tokens. */
  method PushTokens<T>(bucket: seq<string>, conv: string -> Option<T>) returns (r: Transformed<T>)
    ensures r == PushAll(bucket, conv)
  {
    var vec: seq<T> := [];
    for i := 0 to |bucket|
      invariant PushAll(bucket[..i], conv) == Transformed(vec, false)
    {
      assert bucket[..i + 1][..i] == bucket[..i];
      var x := conv(bucket[i]);
      if x.None? {
        PushAllStops(bucket, i + 1, conv);
        return Transformed(vec, true);
      }
      vec := vec + [x.value];
    }
    assert bucket[..|bucket|] == bucket;
    r := Transformed(vec, false);
  }

  datatype Assigned = Assigned(data: Data, threw: bool)

  /**
   * `DataFromStringVector` of each variant: the data afterwards, and whether
   * `std::stoi` threw on the way (a vector then keeps what the transform
   * wrote before the bad token).
   */
  function Assign(d: Data, strVec: seq<string>): Assigned
  {
    match d
    case Int(_) =>
      if strVec == [] then Assigned(d, false)
      else (match Stoi(strVec[0])
        case Some(n) => Assigned(Int(n), false)
        case None => Assigned(d, true))
    case IntVec(v) =>
      var r := Transform(Resize(v, |strVec|, 0), strVec, 0, Stoi);
      Assigned(IntVec(r.elems), r.threw)
    case Bool(_) =>
      if strVec == [] then Assigned(Bool(true), false)
      else (match StrToBool(strVec[0])
        case Some(b) => Assigned(Bool(b), false)
        case None => Assigned(d, true))
    case BoolVec(v) =>
      var r := Transform(Resize(v, |strVec|, false), strVec, 0, StrToBool);
      Assigned(BoolVec(r.elems), r.threw)
    case String(_) => if strVec == [] then Assigned(d, false) else Assigned(String(strVec[0]), false)
    case StringVec(_) => Assigned(StringVec(strVec), false)
    case Help(_) => if strVec == [] then Assigned(d, false) else Assigned(Help(strVec[0]), false)
    case Version(_) => if strVec == [] then Assigned(d, false) else Assigned(Version(strVec[0]), false)
  }

  predicate IsScalar(d: Data)
  {
    d.Int? || d.String? || d.Help? || d.Version?
  }

  /** The variant never changes, whether or not the coercion threw. */
  lemma AssignKeepsKind(d: Data, strVec: seq<string>)
    ensures SameKind(Assign(d, strVec).data, d)
  {
  }

  /**
   * Int, String, Help and Version keep their data on an empty token list and
   * otherwise look only at the first token.
   */
  lemma AssignScalar(d: Data, strVec: seq<string>)
    requires IsScalar(d)
    ensures strVec == [] ==> Assign(d, strVec) == Assigned(d, false)
    ensures strVec != [] ==> Assign(d, strVec) == Assign(d, [strVec[0]])
    ensures strVec != [] && d.Int? && Stoi(strVec[0]).Some? ==>
      Assign(d, strVec) == Assigned(Int(Stoi(strVec[0]).value), false)
    ensures strVec != [] && d.Int? && Stoi(strVec[0]).None? ==> Assign(d, strVec) == Assigned(d, true)
    ensures strVec != [] && !d.Int? ==> !Assign(d, strVec).threw && ValueString(Assign(d, strVec).data) == strVec[0]
  {
  }

  /** Bool is set to true by an empty token list, otherwise by `StrToBool` of the first token. */
  lemma AssignBool(b: bool, strVec: seq<string>)
    ensures strVec == [] ==> Assign(Bool(b), strVec) == Assigned(Bool(true), false)
    ensures strVec != [] && StrToBool(strVec[0]).Some? ==>
      Assign(Bool(b), strVec) == Assigned(Bool(StrToBool(strVec[0]).value), false)
    ensures strVec != [] && StrToBool(strVec[0]).None? ==> Assign(Bool(b), strVec).threw
  {
  }

  /**
   * IntVec: one element per token, element `k` is `std::stoi` of token `k`;
   * the coercion throws exactly when some token is not a number.
   */
  lemma AssignIntVec(v: seq<int>, strVec: seq<string>)
    ensures var r := Assign(IntVec(v), strVec);
      && |r.data.iv| == |strVec|
      && (r.threw <==> exists k | 0 <= k < |strVec| :: Stoi(strVec[k]).None?)
      && (!r.threw ==> forall k | 0 <= k < |strVec| :: Some(r.data.iv[k]) == Stoi(strVec[k]))
      && (strVec == [] ==> r == Assigned(IntVec([]), false))
  {
    TransformSpec(Resize(v, |strVec|, 0), strVec, 0, Stoi);
  }

  /** When every token parses, the IntVec holds exactly the parsed values. */
  lemma AssignIntVecParsed(v: seq<int>, strVec: seq<string>, vals: seq<int>)
    requires |vals| == |strVec|
    requires forall k | 0 <= k < |strVec| :: Stoi(strVec[k]) == Some(vals[k])
    ensures Assign(IntVec(v), strVec) == Assigned(IntVec(vals), false)
  {
    AssignIntVec(v, strVec);
    var r := Assign(IntVec(v), strVec);
    assert r.data.iv == vals;
  }

  /** BoolVec: one element per token, element `k` is `StrToBool` of token `k`. */
  lemma AssignBoolVec(v: seq<bool>, strVec: seq<string>)
    ensures var r := Assign(BoolVec(v), strVec);
      && |r.data.bv| == |strVec|
      && (r.threw <==> exists k | 0 <= k < |strVec| :: StrToBool(strVec[k]).None?)
      && (!r.threw ==> forall k | 0 <= k < |strVec| :: Some(r.data.bv[k]) == StrToBool(strVec[k]))
      && (strVec == [] ==> r == Assigned(BoolVec([]), false))
  {
    TransformSpec(Resize(v, |strVec|, false), strVec, 0, StrToBool);
  }

  /** When every token parses, the BoolVec holds exactly the parsed values. */
  lemma AssignBoolVecParsed(v: seq<bool>, strVec: seq<string>, vals: seq<bool>)
    requires |vals| == |strVec|
    requires forall k | 0 <= k < |strVec| :: StrToBool(strVec[k]) == Some(vals[k])
    ensures Assign(BoolVec(v), strVec) == Assigned(BoolVec(vals), false)
  {
    AssignBoolVec(v, strVec);
    var r := Assign(BoolVec(v), strVec);
    assert r.data.bv == vals;
  }

  /** StringVec becomes exactly the token list. */
  lemma AssignStringVec(v: seq<string>, strVec: seq<string>)
    ensures Assign(StringVec(v), strVec) == Assigned(StringVec(strVec), false)
  {
  }

  /** The tokens that spell out a value's payload, one per element. */
  function Tokens(d: Data): seq<string>
  {
    match d
    case Int(n) => [IntToString(n)]
    case IntVec(v) => IntStrings(v)
    case Bool(b) => [BoolString(b)]
    case BoolVec(v) => BoolStrings(v)
    case String(s) => [s]
    case StringVec(v) => v
    case Help(s) => [s]
    case Version(s) => [s]
  }

  /**
   * Round trip: coercing the tokens that spell out `d` into any value of the
   * same variant gives back `d`, and nothing throws.
   */
  lemma AssignTokens(cur: Data, d: Data)
    requires SameKind(cur, d)
    ensures Assign(cur, Tokens(d)) == Assigned(d, false)
  {
    match d
    case Int(n) =>
      StoiIntToString(n);
    case IntVec(v) =>
      IntStringsRoundTrip(v);
      AssignIntVecParsed(cur.iv, IntStrings(v), v);
    case Bool(b) =>
      StrToBoolBoolString(b);
    case BoolVec(v) =>
      BoolStringsRoundTrip(v);
      AssignBoolVecParsed(cur.bv, BoolStrings(v), v);
    case String(_) =>
    case StringVec(_) =>
    case Help(_) =>
    case Version(_) =>
  }

  lemma IntStringsRoundTrip(v: seq<int>)
    ensures forall k | 0 <= k < |v| :: Stoi(IntStrings(v)[k]) == Some(v[k])
  {
    forall k | 0 <= k < |v| ensures Stoi(IntStrings(v)[k]) == Some(v[k]) {
      StoiIntToString(v[k]);
    }
  }

  lemma BoolStringsRoundTrip(v: seq<bool>)
    ensures forall k | 0 <= k < |v| :: StrToBool(BoolStrings(v)[k]) == Some(v[k])
  {
    forall k | 0 <= k < |v| ensures StrToBool(BoolStrings(v)[k]) == Some(v[k]) {
      StrToBoolBoolString(v[k]);
    }
  }

  /** Scenario: `--age 18` on an Int option gives 18. */
  lemma CoerceAgeExample()
    ensures Assign(Int(0), ["18"]) == Assigned(Int(18), false)
  {
    assert NatToString(18) == NatToString(1) + [DigitChar(8)];
    assert IntToString(18) == "18";
    AssignTokens(Int(0), Int(18));
  }

  /** Scenario: a Bool option mentioned with no token becomes true. */
  lemma CoerceBareFlagExample(b: bool)
    ensures Assign(Bool(b), []) == Assigned(Bool(true), false)
  {
  }

  /** Scenario: an IntVec option given 1 3 5 holds [1, 3, 5]; given nothing it becomes empty. */
  lemma CoerceOddsExample(v: seq<int>)
    ensures Assign(IntVec(v), ["1", "3", "5"]) == Assigned(IntVec([1, 3, 5]), false)
    ensures Assign(IntVec(v), []) == Assigned(IntVec([]), false)
  {
    StoiOneDigit('1');
    StoiOneDigit('3');
    StoiOneDigit('5');
    var toks := ["1", "3", "5"];
    assert toks[0] == ['1'] && toks[1] == ['3'] && toks[2] == ['5'];
    AssignIntVecParsed(v, toks, [1, 3, 5]);
    AssignIntVec(v, []);
  }

  // ---------------------------------------------------------------------------
  // Argument objects

  /**
   * An argument object: the variant's `data` field, overwritten in place by
   * `DataFromStringVector`.
   */
  class Argument {
    var data: Data

    constructor (data: Data)
      ensures this.data == data
    {
      this.data := data;
    }

    /**
     * `DataFromStringVector`: every built-in variant returns no message;
     * `threw` reports the `std::invalid_argument` of `std::stoi`.
     */
    method DataFromStringVector(strVec: seq<string>) returns (message: Option<string>, threw: bool)
      modifies this
      ensures message == None
      ensures Assigned(data, threw) == Assign(old(data), strVec)
    {
      message := None;
      threw := false;
      match data
      case Int(_) =>
        if strVec != [] {
          var n := Stoi(strVec[0]);
          if n.None? {
            threw := true;
            return;
          }
          data := Int(n.value);
        }
      case IntVec(v) =>
        var r := TransformInto(Resize(v, |strVec|, 0), strVec, Stoi);
        data := IntVec(r.elems);
        threw := r.threw;
      case Bool(_) =>
        if strVec != [] {
          var b := StrToBool(strVec[0]);
          if b.None? {
            threw := true;
            return;
          }
          data := Bool(b.value);
        } else {
          data := Bool(true);
        }
      case BoolVec(v) =>
        var r := TransformInto(Resize(v, |strVec|, false), strVec, StrToBool);
        data := BoolVec(r.elems);
        threw := r.threw;
      case String(_) =>
        if strVec != [] {
          data := String(strVec[0]);
        }
      case StringVec(_) =>
        data := StringVec(strVec);
      case Help(_) =>
        if strVec != [] {
          data := Help(strVec[0]);
        }
      case Version(_) =>
        if strVec != [] {
          data := Version(strVec[0]);
        }
    }
  }

  /** The `std::transform` loop over a resized vector. */
  method TransformInto<T>(resized: seq<T>, strVec: seq<string>, conv: string -> Option<T>) returns (r: Transformed<T>)
    requires |resized| == |strVec|
    ensures r == Transform(resized, strVec, 0, conv)
  {
    var elems := resized;
    var i := 0;
    while i < |strVec|
      invariant 0 <= i <= |strVec| && |elems| == |strVec|
      invariant Transform(elems, strVec, i, conv) == Transform(resized, strVec, 0, conv)
    {
      var x := conv(strVec[i]);
      if x.None? {
        return Transformed(elems, true);
      }
      elems := elems[i := x.value];
      i := i + 1;
    }
    r := Transformed(elems, false);
  }
}
