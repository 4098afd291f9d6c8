/**
 * Character and string helpers shared by every version of the option parser:
 * the C library's `tolower`/`isspace`, `std::stoi` as a partial function,
 * decimal rendering of integers, `std::string` ordering (the order in which a
 * `std::map<std::string, _>` is iterated), `std::setw` left padding and
 * separator joining.
 */
module Text {

  datatype Option<T> = None | Some(value: T)

  // ---------------------------------------------------------------------------
  // Characters

  /** `std::tolower` in the "C" locale: only 'A'..'Z' change. */
  function LowerChar(c: char): char
  {
    if 'A' <= c <= 'Z' then (c as int + 32) as char else c
  }

  /** The string whose every character is `LowerChar` of the original's. */
  function Lower(s: string): string
  {
    seq(|s|, i requires 0 <= i < |s| => LowerChar(s[i]))
  }

  /** `std::isspace` in the "C" locale: space, \t, \n, \v, \f, \r. */
  predicate IsSpace(c: char)
  {
    c == ' ' || 9 <= c as int <= 13
  }

  predicate IsDigit(c: char)
  {
    '0' <= c <= '9'
  }

  predicate AllDigits(s: string)
  {
    forall i | 0 <= i < |s| :: IsDigit(s[i])
  }

  function DigitValue(c: char): nat
    requires IsDigit(c)
  {
    c as int - '0' as int
  }

  function DigitChar(n: nat): (c: char)
    requires n < 10
    ensures IsDigit(c) && DigitValue(c) == n
  {
    ('0' as int + n) as char
  }

  /** Lowering a string changes no space, digit or sign character. */
  lemma LowerCharKeeps(c: char)
    ensures IsSpace(LowerChar(c)) <==> IsSpace(c)
    ensures IsDigit(LowerChar(c)) <==> IsDigit(c)
    ensures IsDigit(c) ==> LowerChar(c) == c
    ensures (LowerChar(c) == '-') <==> (c == '-')
    ensures (LowerChar(c) == '+') <==> (c == '+')
  {
  }

  // ---------------------------------------------------------------------------
  // std::stoi

  function SkipSpaces(s: string): (r: string)
    ensures |r| <= |s| && r == s[|s| - |r|..]
    ensures |r| > 0 ==> !IsSpace(r[0])
  {
    if |s| > 0 && IsSpace(s[0]) then SkipSpaces(s[1..]) else s
  }

  /** The longest prefix of `s` made of decimal digits. */
  function DigitPrefix(s: string): (r: string)
    ensures |r| <= |s| && r == s[..|r|]
    ensures AllDigits(r)
    ensures |r| < |s| ==> !IsDigit(s[|r|])
  {
    if |s| > 0 && IsDigit(s[0]) then [s[0]] + DigitPrefix(s[1..]) else []
  }

  function DigitsValue(d: string): nat
    requires AllDigits(d)
  {
    if |d| == 0 then 0 else DigitsValue(d[..|d| - 1]) * 10 + DigitValue(d[|d| - 1])
  }

  /**
   * `std::stoi(s)`: skips leading white space, reads an optional sign and
   * then the longest run of decimal digits; anything after it is ignored.
   * `None` stands for the `std::invalid_argument` it throws when there is no
   * digit at that point. Out-of-range values are not modelled.
   */
  function Stoi(s: string): Option<int>
  {
    SignedDigits(SkipSpaces(s))
  }

  lemma {:induction false} SkipSpacesLower(s: string)
    ensures SkipSpaces(Lower(s)) == Lower(SkipSpaces(s))
    decreases |s|
  {
    if |s| > 0 {
      LowerCharKeeps(s[0]);
      assert Lower(s)[0] == LowerChar(s[0]);
      assert Lower(s)[1..] == Lower(s[1..]);
      if IsSpace(s[0]) {
        SkipSpacesLower(s[1..]);
      }
    }
  }

  lemma {:induction false} DigitPrefixLower(s: string)
    ensures DigitPrefix(Lower(s)) == DigitPrefix(s)
    decreases |s|
  {
    if |s| > 0 {
      LowerCharKeeps(s[0]);
      assert Lower(s)[0] == LowerChar(s[0]);
      assert Lower(s)[1..] == Lower(s[1..]);
      if IsDigit(s[0]) {
        DigitPrefixLower(s[1..]);
      }
    }
  }

  /** `std::stoi` never looks at letters, so lowering its argument changes nothing. */
  lemma StoiLower(s: string)
    ensures Stoi(Lower(s)) == Stoi(s)
  {
    SkipSpacesLower(s);
    var t := SkipSpaces(s);
    SignedDigitsLower(t);
  }

  /** What `Stoi` does once white space is skipped. */
  function SignedDigits(t: string): Option<int>
  {
    var negative := |t| > 0 && t[0] == '-';
    var u := if |t| > 0 && (t[0] == '-' || t[0] == '+') then t[1..] else t;
    var d := DigitPrefix(u);
    if d == [] then None else Some(if negative then 0 - DigitsValue(d) else DigitsValue(d))
  }

  lemma SignedDigitsLower(t: string)
    ensures SignedDigits(Lower(t)) == SignedDigits(t)
  {
    var lt := Lower(t);
    if |t| > 0 {
      LowerCharKeeps(t[0]);
      assert lt[0] == LowerChar(t[0]);
      assert lt[1..] == Lower(t[1..]);
      DigitPrefixLower(t[1..]);
    } else {
      assert lt == t;
    }
    DigitPrefixLower(t);
  }

  // ---------------------------------------------------------------------------
  // Decimal rendering of integers (what `os << int` writes)

  function NatToString(n: nat): string
  {
    if n < 10 then [DigitChar(n)] else NatToString(n / 10) + [DigitChar(n % 10)]
  }

  function IntToString(n: int): string
  {
    if n < 0 then "-" + NatToString(-n) else NatToString(n)
  }

  lemma {:induction false} NatToStringDigits(n: nat)
    ensures |NatToString(n)| > 0 && AllDigits(NatToString(n))
    ensures DigitsValue(NatToString(n)) == n
  {
    if n >= 10 {
      NatToStringDigits(n / 10);
      var s := NatToString(n);
      assert s[..|s| - 1] == NatToString(n / 10);
    }
  }

  lemma {:induction false} DigitPrefixOfDigits(d: string)
    requires AllDigits(d)
    ensures DigitPrefix(d) == d
  {
    if |d| > 0 {
      DigitPrefixOfDigits(d[1..]);
    }
  }

  /** Rendering an integer and reading it back with `std::stoi` gives the integer. */
  lemma StoiIntToString(n: int)
    ensures Stoi(IntToString(n)) == Some(n)
  {
    var m: nat := if n < 0 then -n else n;
    NatToStringDigits(m);
    SignedDigitsOfDigits(NatToString(m));
  }

  /** A run of digits, with or without a minus sign, reads back as its value. */
  lemma SignedDigitsOfDigits(d: string)
    requires |d| > 0 && AllDigits(d)
    ensures Stoi(d) == Some(DigitsValue(d))
    ensures Stoi("-" + d) == Some(0 - DigitsValue(d))
  {
    DigitPrefixOfDigits(d);
    assert IsDigit(d[0]);
    NoLeadingSpace(d);
    assert SignedDigits(d) == Some(DigitsValue(d));
    var s := "-" + d;
    assert s[0] == '-' && s[1..] == d;
    assert DigitPrefix(s[1..]) == d;
    NoLeadingSpace(s);
    assert SignedDigits(s) == Some(0 - DigitsValue(d));
  }

  /** `std::stoi` of a single digit. */
  lemma StoiOneDigit(c: char)
    requires IsDigit(c)
    ensures Stoi([c]) == Some(DigitValue(c))
  {
    var s := [c];
    assert AllDigits(s) && s[..|s| - 1] == [];
    assert DigitsValue(s) == DigitValue(c);
    SignedDigitsOfDigits(s);
  }

  lemma NoLeadingSpace(s: string)
    requires |s| > 0 && !IsSpace(s[0])
    ensures SkipSpaces(s) == s
  {
  }

  // ---------------------------------------------------------------------------
  // std::string ordering (char by char, then shorter first)

  /** `a` comes no later than `b` in `std::string` order. */
  predicate Below(a: string, b: string)
  {
    |a| == 0 || (|b| > 0 && (a[0] < b[0] || (a[0] == b[0] && Below(a[1..], b[1..]))))
  }

  lemma {:induction false} BelowReflexive(a: string)
    ensures Below(a, a)
  {
    if |a| > 0 {
      BelowReflexive(a[1..]);
    }
  }

  lemma {:induction false} BelowAntisymmetric(a: string, b: string)
    requires Below(a, b) && Below(b, a)
    ensures a == b
  {
    if |a| > 0 && |b| > 0 {
      BelowAntisymmetric(a[1..], b[1..]);
      assert a == [a[0]] + a[1..];
      assert b == [b[0]] + b[1..];
    }
  }

  lemma {:induction false} BelowTransitive(a: string, b: string, c: string)
    requires Below(a, b) && Below(b, c)
    ensures Below(a, c)
  {
    if |a| > 0 && |b| > 0 && |c| > 0 && a[0] == b[0] == c[0] {
      BelowTransitive(a[1..], b[1..], c[1..]);
    }
  }

  lemma {:induction false} BelowTotal(a: string, b: string)
    ensures Below(a, b) || Below(b, a)
  {
    if |a| > 0 && |b| > 0 && a[0] == b[0] {
      BelowTotal(a[1..], b[1..]);
    }
  }

  predicate IsLeast(m: string, s: set<string>)
  {
    m in s && forall x | x in s :: Below(m, x)
  }

  lemma {:induction false} LeastExists(s: set<string>)
    requires s != {}
    ensures exists m :: IsLeast(m, s)
    decreases |s|
  {
    var y :| y in s;
    var rest := s - {y};
    if rest == {} {
      assert s == {y};
      BelowReflexive(y);
      assert IsLeast(y, s);
    } else {
      LeastExists(rest);
      var m :| IsLeast(m, rest);
      BelowTotal(y, m);
      if Below(y, m) {
        BelowReflexive(y);
        forall x | x in s ensures Below(y, x) {
          if x != y {
            BelowTransitive(y, m, x);
          }
        }
        assert IsLeast(y, s);
      } else {
        assert IsLeast(m, s);
      }
    }
  }

  /** The least member of a nonempty set of strings. */
  ghost function Least(s: set<string>): (m: string)
    requires s != {}
    ensures IsLeast(m, s)
  {
    LeastExists(s);
    var m :| IsLeast(m, s); m
  }

  /** Strictly increasing in `std::string` order. */
  ghost predicate Ascending(r: seq<string>)
  {
    forall i, j | 0 <= i < j < |r| :: Below(r[i], r[j]) && r[i] != r[j]
  }

  /** `r` lists exactly the members of `s`, in strictly increasing order. */
  ghost predicate SortedListing(r: seq<string>, s: set<string>)
  {
    (forall x :: x in r <==> x in s) && Ascending(r)
  }

  /** Every set of strings has a sorted listing: its least member, then a listing of the rest. */
  lemma {:induction false} SortedListingExists(s: set<string>)
    ensures exists r :: SortedListing(r, s)
    decreases |s|
  {
    if s == {} {
      assert SortedListing([], s);
    } else {
      var m := Least(s);
      SortedListingExists(s - {m});
      var rest :| SortedListing(rest, s - {m});
      var r := [m] + rest;
      forall i, j | 0 <= i < j < |r| ensures Below(r[i], r[j]) && r[i] != r[j] {
        if i == 0 {
          assert r[j] == rest[j - 1] && r[j] in s - {m};
        } else {
          assert r[i] == rest[i - 1] && r[j] == rest[j - 1];
        }
      }
      assert SortedListing(r, s);
    }
  }

  /** The least member of a set, as the first of any of its sorted listings. */
  lemma ListingHeadIsLeast(r: seq<string>, s: set<string>)
    requires SortedListing(r, s) && |r| > 0
    ensures r[0] in s && forall x | x in s && x != r[0] :: Below(r[0], x)
  {
    forall x | x in s && x != r[0] ensures Below(r[0], x) {
      var j :| 0 <= j < |r| && r[j] == x;
    }
  }

  lemma ListingEmpty(r: seq<string>, s: set<string>)
    requires SortedListing(r, s)
    ensures |r| == 0 <==> s == {}
  {
    if |r| > 0 {
      assert r[0] in s;
    }
  }

  /** A set has only one sorted listing. */
  lemma {:induction false} SortedListingUnique(r: seq<string>, r': seq<string>, s: set<string>)
    requires SortedListing(r, s) && SortedListing(r', s)
    ensures r == r'
    decreases |r|
  {
    if |r| > 0 {
      assert r[0] in s;
      ListingHeadIsLeast(r, s);
      ListingHeadIsLeast(r', s);
      if r[0] != r'[0] {
        BelowAntisymmetric(r[0], r'[0]);
      }
      var t := s - {r[0]};
      forall x ensures x in r[1..] <==> x in t {
        if x in r[1..] {
          var j :| 1 <= j < |r| && r[j] == x;
        }
      }
      forall x ensures x in r'[1..] <==> x in t {
        if x in r'[1..] {
          var j :| 1 <= j < |r'| && r'[j] == x;
        }
      }
      assert SortedListing(r[1..], t);
      assert SortedListing(r'[1..], t);
      SortedListingUnique(r[1..], r'[1..], t);
      assert r == [r[0]] + r[1..] && r' == [r'[0]] + r'[1..];
    } else {
      ListingEmpty(r, s);
      ListingEmpty(r', s);
    }
  }

  /** The keys of a `std::map<std::string, _>` in the order it iterates them. */
  ghost function SortedKeys(s: set<string>): (r: seq<string>)
    ensures forall x :: x in r <==> x in s
    ensures Ascending(r)
  {
    SortedListingExists(s);
    var r :| SortedListing(r, s); r
  }

  /**
   * Lists the keys of `s` in ascending order, picking the least remaining key
   * each time, as iterating a `std::map` does.
   */
  method SortKeys(s: set<string>) returns (r: seq<string>)
    ensures r == SortedKeys(s)
  {
    r := [];
    var remaining := s;
    while remaining != {}
      invariant remaining <= s
      invariant SortedListing(r, s - remaining)
      invariant forall i, y | 0 <= i < |r| && y in remaining :: Below(r[i], y) && r[i] != y
      decreases |remaining|
    {
      LeastExists(remaining);
      var m :| IsLeast(m, remaining);
      forall i, j | 0 <= i < j < |r + [m]| ensures Below((r + [m])[i], (r + [m])[j]) && (r + [m])[i] != (r + [m])[j] {
        if j == |r| {
          assert (r + [m])[j] == m;
        }
      }
      forall y | y in remaining - {m} ensures Below(m, y) && m != y {
      }
      r := r + [m];
      remaining := remaining - {m};
    }
    SortedListingUnique(r, SortedKeys(s), s);
  }

  // ---------------------------------------------------------------------------
  // Building text

  function Spaces(n: nat): (r: string)
    ensures |r| == n && forall i | 0 <= i < n :: r[i] == ' '
  {
    seq(n, _ => ' ')
  }

  function Dashes(n: nat): (r: string)
    ensures |r| == n && forall i | 0 <= i < n :: r[i] == '-'
  {
    seq(n, _ => '-')
  }

  /**
   * `os << std::setw(w) << std::left << s`: the text followed by enough
   * spaces to fill `w` columns; a longer text is not cut.
   */
  function Pad(s: string, w: nat): (r: string)
    ensures |r| == if |s| < w then w else |s|
    ensures r[..|s|] == s
  {
    if |s| < w then s + Spaces(w - |s|) else s
  }

  /** Every element followed by `sep`. */
  function Terminated(elems: seq<string>, sep: string): string
  {
    if |elems| == 0 then "" else Terminated(elems[..|elems| - 1], sep) + elems[|elems| - 1] + sep
  }

  /** The elements with `sep` between consecutive ones. */
  function Join(elems: seq<string>, sep: string): string
  {
    if |elems| == 0 then "" else Terminated(elems[..|elems| - 1], sep) + elems[|elems| - 1]
  }

  /** `sub` occurs somewhere in `s`. */
  ghost predicate Infix(sub: string, s: string)
  {
    exists i :: InfixAt(sub, s, i)
  }

  predicate InfixAt(sub: string, s: string, i: int)
  {
    0 <= i <= |s| - |sub| && s[i..i + |sub|] == sub
  }

  lemma InfixOf(a: string, sub: string, b: string)
    ensures Infix(sub, a + sub + b)
  {
    var s := a + sub + b;
    assert InfixAt(sub, s, |a|);
  }

  lemma InfixGrows(sub: string, s: string, a: string, b: string)
    requires Infix(sub, s)
    ensures Infix(sub, a + s + b)
  {
    var i :| InfixAt(sub, s, i);
    var t := a + s + b;
    assert t[|a| + i..|a| + i + |sub|] == s[i..i + |sub|];
    assert InfixAt(sub, t, |a| + i);
  }

  /** What occurs in a text occurs in any extension of it on the right. */
  lemma InfixLeft(sub: string, a: string, b: string)
    requires Infix(sub, a)
    ensures Infix(sub, a + b)
  {
    var i :| InfixAt(sub, a, i);
    assert (a + b)[i..i + |sub|] == a[i..i + |sub|];
    assert InfixAt(sub, a + b, i);
  }

  /** What occurs in a text occurs in any extension of it on the left. */
  lemma InfixRight(sub: string, a: string, b: string)
    requires Infix(sub, b)
    ensures Infix(sub, a + b)
  {
    var i :| InfixAt(sub, b, i);
    assert (a + b)[|a| + i..|a| + i + |sub|] == b[i..i + |sub|];
    assert InfixAt(sub, a + b, |a| + i);
  }

  /** Each element of a terminated list occurs in its text. */
  lemma {:induction false} InfixTerminated(elems: seq<string>, sep: string, k: nat)
    requires k < |elems|
    ensures Infix(elems[k], Terminated(elems, sep))
  {
    var n := |elems| - 1;
    if k == n {
      InfixOf(Terminated(elems[..n], sep), elems[n], sep);
    } else {
      InfixTerminated(elems[..n], sep, k);
      InfixGrows(elems[k], Terminated(elems[..n], sep), "", elems[n] + sep);
      assert "" + Terminated(elems[..n], sep) + (elems[n] + sep) == Terminated(elems, sep);
    }
  }
}
