/**
 * The pieces of java.lang the SDK relies on for text: String.trim,
 * Integer.toString / Boolean.toString, and StringJoiner with a one-character
 * delimiter. Each comes with the reference it is proved against.
 */
module JavaText {
  import opened Wrappers

  // ---------------------------------------------------------------------
  // String.trim: removes every leading and trailing character whose code
  // is at most U+0020.

  function TrimStart(s: string): (r: string)
    ensures |r| <= |s| && r == s[|s| - |r|..]
    ensures r != [] ==> r[0] > ' '
    ensures forall i :: 0 <= i < |s| - |r| ==> s[i] <= ' '
  {
    if s != [] && s[0] <= ' ' then TrimStart(s[1..]) else s
  }

  function TrimEnd(s: string): (r: string)
    ensures |r| <= |s| && r == s[..|r|]
    ensures r != [] ==> r[|r| - 1] > ' '
    ensures forall i :: |r| <= i < |s| ==> s[i] <= ' '
  {
    if s != [] && s[|s| - 1] <= ' ' then TrimEnd(s[..|s| - 1]) else s
  }

  /** Where the trimmed text starts in `s`. */
  function TrimOffset(s: string): nat {
    |s| - |TrimStart(s)|
  }

  /**
   * String.trim: a contiguous slice of `s` that starts and ends with a
   * character above U+0020, everything outside it being at most U+0020.
   */
  function Trim(s: string): (r: string)
    ensures TrimOffset(s) + |r| <= |s| && r == s[TrimOffset(s)..TrimOffset(s) + |r|]
    ensures forall i :: 0 <= i < |s| && !(TrimOffset(s) <= i < TrimOffset(s) + |r|) ==> s[i] <= ' '
    ensures r != [] ==> r[0] > ' ' && r[|r| - 1] > ' '
  {
    var t := TrimStart(s);
    BlankAround(s, t, TrimEnd(t));
    TrimEnd(t)
  }

  /** A blank-prefix suffix `t` of `s`, then a blank-suffix prefix `r` of `t`, is a slice of `s`. */
  lemma BlankAround(s: string, t: string, r: string)
    requires |t| <= |s| && t == s[|s| - |t|..] && forall i :: 0 <= i < |s| - |t| ==> s[i] <= ' '
    requires |r| <= |t| && r == t[..|r|] && forall i :: |r| <= i < |t| ==> t[i] <= ' '
    ensures var k := |s| - |t|;
            && k + |r| <= |s| && r == s[k..k + |r|]
            && forall i :: 0 <= i < |s| && !(k <= i < k + |r|) ==> s[i] <= ' '
  {
    var k := |s| - |t|;
    forall i | 0 <= i < |s| && !(k <= i < k + |r|)
      ensures s[i] <= ' '
    {
      if i >= k {
        assert s[i] == t[i - k];
      }
    }
  }

  /** `s.trim().isEmpty()` holds exactly when every character of `s` is at most U+0020. */
  lemma TrimEmptyIff(s: string)
    ensures Trim(s) == [] <==> forall i :: 0 <= i < |s| ==> s[i] <= ' '
  {
    var t := TrimStart(s);
    if Trim(s) != [] {
      assert t != [] && t[0] > ' ';
      assert s[|s| - |t|] == t[0];
    }
  }

  // ---------------------------------------------------------------------
  // Integer.toString and Boolean.toString

  function DigitChar(d: nat): char
    requires d < 10
  {
    (48 + d) as char
  }

  predicate IsDigit(c: char) {
    '0' <= c <= '9'
  }

  /** Decimal digits of `n`, most significant first, without leading zeros. */
  function NatToString(n: nat): (r: string)
    ensures |r| >= 1 && forall i :: 0 <= i < |r| ==> IsDigit(r[i])
    ensures r[0] == '0' <==> n == 0
    ensures n == 0 ==> r == "0"
    decreases n
  {
    if n < 10 then [DigitChar(n)] else NatToString(n / 10) + [DigitChar(n % 10)]
  }

  /** Integer.toString / Long.toString: a minus sign for negative values, then the digits. */
  function IntToString(n: int): (r: string)
    ensures |r| >= 1 && (r[0] == '-' <==> n < 0)
    ensures AllDigits(if n < 0 then r[1..] else r)
    ensures (if n < 0 then r[1..] else r)[0] == '0' <==> n == 0
    ensures n == 0 ==> r == "0"
  {
    if n < 0 then ['-'] + NatToString(-n) else NatToString(n)
  }

  /** Boolean.toString. */
  function BoolToString(b: bool): (r: string)
    ensures BoolValue(r) == Some(b)
  {
    if b then "true" else "false"
  }

  /** Reference reading of the two boolean literals. */
  function BoolValue(s: string): Option<bool> {
    if s == "true" then Some(true)
    else if s == "false" then Some(false)
    else None
  }

  /** Reference reading of a digit string. */
  function ParseNat(s: string): nat
    requires forall i :: 0 <= i < |s| ==> IsDigit(s[i])
  {
    if s == [] then 0
    else
      assert IsDigit(s[|s| - 1]);
      ParseNat(s[..|s| - 1]) * 10 + (s[|s| - 1] as int - 48)
  }

  predicate AllDigits(s: string) {
    |s| >= 1 && forall i :: 0 <= i < |s| ==> IsDigit(s[i])
  }

  /** Reference reading of an optionally signed decimal numeral. */
  function ParseInt(s: string): Option<int> {
    if |s| >= 1 && s[0] == '-' && AllDigits(s[1..]) then Some(-(ParseNat(s[1..]) as int))
    else if AllDigits(s) then Some(ParseNat(s))
    else None
  }

  lemma {:induction false} ParseNatToString(n: nat)
    ensures ParseNat(NatToString(n)) == n
    decreases n
  {
    if n >= 10 {
      var r := NatToString(n);
      assert r[..|r| - 1] == NatToString(n / 10);
      ParseNatToString(n / 10);
    }
  }

  lemma NatToStringDigits(n: nat)
    ensures AllDigits(NatToString(n)) && NatToString(n)[0] != '-'
  {
  }

  lemma NonNegativeNumeral(d: string)
    requires AllDigits(d) && d[0] != '-'
    ensures ParseInt(d) == Some(ParseNat(d))
  {
  }

  lemma NegativeNumeral(d: string)
    requires AllDigits(d)
    ensures ParseInt(['-'] + d) == Some(-(ParseNat(d) as int))
  {
    var s := ['-'] + d;
    assert s[0] == '-' && s[1..] == d;
  }

  /** The round trip, for any digit string `d` that reads as the magnitude of `n`. */
  lemma SignedRoundTrip(n: int, d: string)
    requires AllDigits(d) && d[0] != '-'
    requires ParseNat(d) == if n < 0 then -n else n
    ensures ParseInt(if n < 0 then ['-'] + d else d) == Some(n)
  {
    if n < 0 {
      NegativeNumeral(d);
    } else {
      NonNegativeNumeral(d);
    }
  }

  /** The decimal text of an integer reads back as that integer. */
  lemma IntToStringRoundTrip(n: int)
    ensures ParseInt(IntToString(n)) == Some(n)
  {
    var m: nat := if n < 0 then -n else n;
    NatToStringDigits(m);
    ParseNatToString(m);
    SignedRoundTrip(n, NatToString(m));
  }

  function JoinWith(sep: char, xs: seq<string>): string
    decreases |xs|
  {
    if |xs| == 0 then ""
    else if |xs| == 1 then xs[0]
    else JoinWith(sep, xs[..|xs| - 1]) + [sep] + xs[|xs| - 1]
  }

  /** Reference splitter: the pieces of `s` between occurrences of `sep`. */
  function Split(sep: char, s: string): (parts: seq<string>)
    ensures |parts| >= 1
    decreases |s|
  {
    if s == [] then [""]
    else
      var p := Split(sep, s[..|s| - 1]);
      if s[|s| - 1] == sep then p + [""]
      else p[..|p| - 1] + [p[|p| - 1] + [s[|s| - 1]]]
  }

  predicate NoneContains(sep: char, xs: seq<string>) {
    forall i :: 0 <= i < |xs| ==> sep !in xs[i]
  }

  /** No piece of a split contains the delimiter. */
  lemma {:induction false} SplitOmitsSep(sep: char, s: string)
    ensures NoneContains(sep, Split(sep, s))
    decreases |s|
  {
    if s != [] {
      var c := s[|s| - 1];
      var p := Split(sep, s[..|s| - 1]);
      SplitOmitsSep(sep, s[..|s| - 1]);
      if c != sep {
        var last := p[|p| - 1] + [c];
        assert sep !in p[|p| - 1];
        assert sep !in last;
        var q := p[..|p| - 1] + [last];
        assert Split(sep, s) == q;
        forall i | 0 <= i < |q|
          ensures sep !in q[i]
        {
          if i < |p| - 1 {
            assert q[i] == p[i];
          }
        }
      }
    }
  }

  lemma {:induction false} SplitWithout(sep: char, x: string)
    requires sep !in x
    ensures Split(sep, x) == [x]
    decreases |x|
  {
    if x != [] {
      SplitWithout(sep, x[..|x| - 1]);
      assert x[..|x| - 1] + [x[|x| - 1]] == x;
    }
  }

  lemma {:induction false} SplitAfter(sep: char, a: string, x: string)
    requires sep !in x
    ensures Split(sep, a + [sep] + x) == Split(sep, a) + [x]
    decreases |x|
  {
    var s := a + [sep] + x;
    if x == [] {
      assert s[..|s| - 1] == a;
    } else {
      assert s[..|s| - 1] == a + [sep] + x[..|x| - 1];
      SplitAfter(sep, a, x[..|x| - 1]);
      assert x[..|x| - 1] + [x[|x| - 1]] == x;
    }
  }

  /** Joining then splitting gives the parts back when no part contains the delimiter. */
  lemma {:induction false} SplitJoin(sep: char, xs: seq<string>)
    requires |xs| >= 1 && NoneContains(sep, xs)
    ensures Split(sep, JoinWith(sep, xs)) == xs
    decreases |xs|
  {
    if |xs| == 1 {
      SplitWithout(sep, xs[0]);
    } else {
      var init := xs[..|xs| - 1];
      SplitAfter(sep, JoinWith(sep, init), xs[|xs| - 1]);
      SplitJoin(sep, init);
      assert init + [xs[|xs| - 1]] == xs;
    }
  }

  /** Adding a character to the last part adds it to the end of the joined text. */
  lemma JoinWithExtendLast(sep: char, p: seq<string>, c: char)
    requires |p| >= 1
    ensures JoinWith(sep, p[..|p| - 1] + [p[|p| - 1] + [c]]) == JoinWith(sep, p) + [c]
  {
    var q := p[..|p| - 1] + [p[|p| - 1] + [c]];
    assert |q| == |p| && q[|q| - 1] == p[|p| - 1] + [c];
    if |p| > 1 {
      assert q[..|q| - 1] == p[..|p| - 1];
      var j := JoinWith(sep, p[..|p| - 1]);
      assert JoinWith(sep, q) == j + [sep] + (p[|p| - 1] + [c]);
      assert JoinWith(sep, p) == j + [sep] + p[|p| - 1];
    }
  }

  /** Adding an empty last part adds one delimiter to the joined text. */
  lemma JoinWithEmptyLast(sep: char, p: seq<string>)
    requires |p| >= 1
    ensures JoinWith(sep, p + [""]) == JoinWith(sep, p) + [sep]
  {
    assert (p + [""])[..|p|] == p;
  }

  /** Splitting then joining gives the text back. */
  lemma {:induction false} JoinSplit(sep: char, s: string)
    ensures JoinWith(sep, Split(sep, s)) == s
    decreases |s|
  {
    if s != [] {
      var init := s[..|s| - 1];
      var p := Split(sep, init);
      JoinSplit(sep, init);
      assert init + [s[|s| - 1]] == s;
      if s[|s| - 1] == sep {
        JoinWithEmptyLast(sep, p);
      } else {
        JoinWithExtendLast(sep, p, s[|s| - 1]);
      }
    }
  }
}
