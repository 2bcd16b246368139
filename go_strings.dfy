/**
 * The parts of Go's `strings`, `bytes` and `strconv` packages that the helper
 * commands rely on, stated over sequences so that they serve both `string`
 * (a `seq<char>`) and byte slices.
 */
module GoStrings {
  import opened Options

  /** strings.HasPrefix */
  predicate HasPrefix<T(==)>(s: seq<T>, prefix: seq<T>)
  {
    |prefix| <= |s| && s[..|prefix|] == prefix
  }

  /** How many leading elements of `s` are in `cutset`. */
  function LeadingIn<T>(s: seq<T>, cutset: set<T>): (n: nat)
    ensures n <= |s|
    ensures forall i :: 0 <= i < n ==> s[i] in cutset
    ensures n < |s| ==> s[n] !in cutset
  {
    if s != [] && s[0] in cutset then 1 + LeadingIn(s[1..], cutset) else 0
  }

  /** How many trailing elements of `s` are in `cutset`. */
  function TrailingIn<T>(s: seq<T>, cutset: set<T>): (n: nat)
    ensures n <= |s|
    ensures forall i :: |s| - n <= i < |s| ==> s[i] in cutset
    ensures n < |s| ==> s[|s| - n - 1] !in cutset
  {
    if s != [] && s[|s| - 1] in cutset then 1 + TrailingIn(s[..|s| - 1], cutset) else 0
  }

  /** strings.TrimLeft(s, cutset): drops every leading element that is in `cutset`. */
  function TrimLeft<T>(s: seq<T>, cutset: set<T>): (r: seq<T>)
  {
    s[LeadingIn(s, cutset)..]
  }

  /** strings.TrimRight / bytes.TrimRight: drops every trailing element that is in `cutset`. */
  function TrimRight<T>(s: seq<T>, cutset: set<T>): seq<T>
  {
    s[..|s| - TrailingIn(s, cutset)]
  }

  /** TrimLeft keeps a suffix: what it drops is all in `cutset`, and what it keeps does not start in it. */
  lemma TrimLeftDropsLeadingCut<T>(s: seq<T>, cutset: set<T>)
    ensures var r := TrimLeft(s, cutset);
            |r| <= |s| && r == s[|s| - |r|..]
            && (forall i :: 0 <= i < |s| - |r| ==> s[i] in cutset)
            && (r == [] || r[0] !in cutset)
  {
  }

  /** TrimRight keeps a prefix: what it drops is all in `cutset`, and what it keeps does not end in it. */
  lemma TrimRightDropsTrailingCut<T>(s: seq<T>, cutset: set<T>)
    ensures var r := TrimRight(s, cutset);
            |r| <= |s| && r == s[..|r|]
            && (forall i :: |r| <= i < |s| ==> s[i] in cutset)
            && (r == [] || r[|r| - 1] !in cutset)
  {
  }

  /** Trimming a trailing cut element changes nothing beyond dropping it. */
  lemma TrimRightAppendCut<T>(s: seq<T>, c: T, cutset: set<T>)
    requires c in cutset
    ensures TrimRight(s + [c], cutset) == TrimRight(s, cutset)
  {
    assert (s + [c])[..|s + [c]| - 1] == s;
    assert TrailingIn(s + [c], cutset) == 1 + TrailingIn(s, cutset);
  }

  /** bytes.IndexByte / strings.IndexByte: the first index holding `x`, or -1. */
  function IndexByte<T(==)>(s: seq<T>, x: T): (r: int)
    ensures -1 <= r < |s|
    ensures r >= 0 ==> s[r] == x
    ensures r < 0 <==> x !in s
    ensures forall j :: 0 <= j < |s| && (r < 0 || j < r) ==> s[j] != x
  {
    if s == [] then -1
    else if s[0] == x then 0
    else
      var j := IndexByte(s[1..], x);
      if j < 0 then -1 else j + 1
  }

  /** `pat` occurs in `s` starting at index `i`. */
  predicate OccursAt<T(==)>(s: seq<T>, pat: seq<T>, i: int)
  {
    0 <= i && i + |pat| <= |s| && s[i..i + |pat|] == pat
  }

  /** strings.Index: the first index at which `pat` occurs, or -1. */
  function Index<T(==)>(s: seq<T>, pat: seq<T>): (r: int)
    ensures r == -1 || OccursAt(s, pat, r)
    ensures forall j :: 0 <= j && (r == -1 || j < r) ==> !OccursAt(s, pat, j)
    decreases |s|
  {
    if |pat| > |s| then -1
    else if s[..|pat|] == pat then 0
    else
      var j := Index(s[1..], pat);
      ShiftOccurs(s, pat);
      if j < 0 then -1 else j + 1
  }

  /** An occurrence past the head of `s` is an occurrence in its tail, one place earlier. */
  lemma ShiftOccurs<T>(s: seq<T>, pat: seq<T>)
    requires s != []
    ensures forall j :: 1 <= j ==> (OccursAt(s, pat, j) <==> OccursAt(s[1..], pat, j - 1))
  {
    forall j | 1 <= j
      ensures OccursAt(s, pat, j) <==> OccursAt(s[1..], pat, j - 1)
    {
      if j + |pat| <= |s| {
        assert s[1..][j - 1..j - 1 + |pat|] == s[j..j + |pat|];
      }
    }
  }

  /**
   * strings.Replace(s, from, to, 1): the first occurrence of `from` becomes `to`;
   * an empty `from` matches at the very beginning.
   */
  function ReplaceFirst<T(==)>(s: seq<T>, from: seq<T>, to: seq<T>): (r: seq<T>)
  {
    var i := Index(s, from);
    if i < 0 then s else s[..i] + to + s[i + |from|..]
  }

  /**
   * When `from` first occurs right after `prefix`, replacing it keeps what comes
   * before and what comes after.
   */
  lemma ReplaceFirstAfterPrefix<T>(prefix: seq<T>, from: seq<T>, to: seq<T>, rest: seq<T>)
    requires forall j :: 0 <= j < |prefix| ==> !OccursAt(prefix + from, from, j)
    ensures ReplaceFirst(prefix + from + rest, from, to) == prefix + to + rest
  {
    var s := prefix + from + rest;
    assert s[|prefix|..|prefix| + |from|] == from;
    assert OccursAt(s, from, |prefix|);
    forall j | 0 <= j < |prefix|
      ensures !OccursAt(s, from, j)
    {
      if j + |from| <= |s| && s[j..j + |from|] == from {
        assert (prefix + from)[j..j + |from|] == s[j..j + |from|];
        assert OccursAt(prefix + from, from, j);
      }
    }
    var i := Index(s, from);
    assert i == |prefix|;
    assert s[..i] == prefix;
    assert s[i + |from|..] == rest;
  }

  /**
   * strings.Replace(s, from, to, -1) for one-element `from` and `to`: every
   * `from` element becomes `to`, everything else stays where it was.
   */
  function ReplaceAllElem<T(==)>(s: seq<T>, from: T, to: T): (r: seq<T>)
    ensures |r| == |s|
    ensures forall i :: 0 <= i < |s| ==> r[i] == if s[i] == from then to else s[i]
  {
    if s == [] then []
    else [if s[0] == from then to else s[0]] + ReplaceAllElem(s[1..], from, to)
  }

  predicate IsDigit(c: char)
  {
    '0' <= c <= '9'
  }

  function DigitChar(d: nat): (c: char)
    requires d < 10
    ensures IsDigit(c)
  {
    "0123456789"[d]
  }

  function DigitValue(c: char): (d: nat)
    requires IsDigit(c)
    ensures d < 10 && DigitChar(d) == c
  {
    c as int - '0' as int
  }

  /** The decimal digits of `n`, most significant first, without leading zeros. */
  function FormatNat(n: nat): (r: string)
    ensures r != []
    ensures forall i :: 0 <= i < |r| ==> IsDigit(r[i])
    ensures r[0] == '0' ==> n == 0
    decreases n
  {
    if n < 10 then [DigitChar(n)] else FormatNat(n / 10) + [DigitChar(n % 10)]
  }

  /** strconv.FormatInt(n, 10), also what fmt's `%d` prints. */
  function FormatInt(n: int): (r: string)
    ensures r != [] && (r[0] == '-' <==> n < 0)
    ensures forall i :: (if n < 0 then 1 else 0) <= i < |r| ==> IsDigit(r[i])
  {
    if n < 0 then "-" + FormatNat(-n) else FormatNat(n)
  }

  /** The value of a run of decimal digits. */
  function ParseNat(s: string): nat
    requires forall i :: 0 <= i < |s| ==> IsDigit(s[i])
    decreases |s|
  {
    if s == [] then 0 else ParseNat(s[..|s| - 1]) * 10 + DigitValue(s[|s| - 1])
  }

  /** Reads back a decimal integer: an optional '-' then at least one digit. */
  function ParseInt(s: string): Option<int>
  {
    if s != [] && s[0] == '-' then
      if |s| > 1 && forall i :: 1 <= i < |s| ==> IsDigit(s[i]) then Some(-(ParseNat(s[1..]) as int)) else None
    else if s != [] && forall i :: 0 <= i < |s| ==> IsDigit(s[i]) then Some(ParseNat(s))
    else None
  }

  lemma {:induction false} ParseFormatNat(n: nat)
    ensures ParseNat(FormatNat(n)) == n
    decreases n
  {
    if n >= 10 {
      ParseFormatNat(n / 10);
      var r := FormatNat(n);
      assert r[..|r| - 1] == FormatNat(n / 10);
    }
  }

  /** Decimal rendering round-trips, for negative numbers too. */
  lemma FormatIntRoundTrip(n: int)
    ensures ParseInt(FormatInt(n)) == Some(n)
  {
    var s := FormatInt(n);
    if n < 0 {
      var digits := FormatNat(-n);
      ParseFormatNat(-n);
      assert s[1..] == digits;
      assert forall i :: 1 <= i < |s| ==> IsDigit(s[i]) by {
        forall i | 1 <= i < |s| ensures IsDigit(s[i]) { assert s[i] == digits[i - 1]; }
      }
    } else {
      ParseFormatNat(n);
      assert IsDigit(s[0]);
    }
  }

  /** Two integers render to the same decimal text exactly when they are equal. */
  lemma FormatIntInjective(a: int, b: int)
    ensures FormatInt(a) == FormatInt(b) <==> a == b
  {
    if FormatInt(a) == FormatInt(b) {
      FormatIntRoundTrip(a);
      FormatIntRoundTrip(b);
    }
  }
}
