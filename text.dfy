/** Python's string helpers used by the pipeline: `str(n)`, `int(s)`, `s.split(c)`,
    `s.startswith(p)`, `s.endswith(p)` and `s.replace(p, '')`. */
module Text {
  import opened Common

  predicate IsDigit(c: char) { '0' <= c <= '9' }

  predicate IsDigits(s: string) { forall i :: 0 <= i < |s| ==> IsDigit(s[i]) }

  function DigitChar(d: nat): (c: char)
    requires d < 10
    ensures IsDigit(c)
  {
    (('0' as int) + d) as char
  }

  function DigitValue(c: char): (d: nat)
    requires IsDigit(c)
    ensures d < 10
  {
    (c as int) - ('0' as int)
  }

  /** `str(n)` for a natural number: its shortest decimal form. */
  function NatToString(n: nat): (s: string)
    ensures |s| > 0 && IsDigits(s)
  {
    if n < 10 then [DigitChar(n)] else NatToString(n / 10) + [DigitChar(n % 10)]
  }

  /** `str(i)` for any integer. */
  function IntToString(i: int): (s: string)
    ensures |s| > 0
    ensures i >= 0 ==> IsDigits(s)
    ensures i < 0 ==> s[0] == '-' && IsDigits(s[1..])
  {
    if i < 0 then "-" + NatToString(-i) else NatToString(i)
  }

  /** The value of a string of decimal digits (leading zeros allowed). */
  function DigitsValue(s: string): nat
    requires IsDigits(s)
  {
    if s == [] then 0 else DigitsValue(s[..|s| - 1]) * 10 + DigitValue(s[|s| - 1])
  }

  /** `int(s)` restricted to unsigned decimal digits. */
  function ParseNat(s: string): (r: Option<nat>)
    ensures r.Some? <==> |s| > 0 && IsDigits(s)
  {
    if |s| > 0 && IsDigits(s) then Some(DigitsValue(s)) else None
  }

  /** `int(s)`: an optional sign followed by decimal digits. */
  function ParseInt(s: string): (r: Option<int>)
    ensures |s| > 0 && IsDigits(s) ==> r.Some? && r.value >= 0
  {
    if |s| > 0 && (s[0] == '-' || s[0] == '+') then
      match ParseNat(s[1..])
      case None => None
      case Some(v) => Some(if s[0] == '-' then -(v as int) else v as int)
    else
      match ParseNat(s)
      case None => None
      case Some(v) => Some(v)
  }

  lemma {:induction false} NatRoundTrip(n: nat)
    ensures ParseNat(NatToString(n)) == Some(n)
  {
    if n >= 10 {
      NatRoundTrip(n / 10);
      var s := NatToString(n / 10);
      var t := s + [DigitChar(n % 10)];
      assert t[..|t| - 1] == s;
      assert DigitValue(DigitChar(n % 10)) == n % 10;
      assert DigitsValue(s) == n / 10;
      assert DigitsValue(t) == DigitsValue(s) * 10 + n % 10;
      assert DigitsValue(t) == n;
    } else {
      var t := [DigitChar(n)];
      assert t[..0] == [];
      assert DigitsValue(t) == DigitValue(DigitChar(n));
    }
  }

  lemma IntRoundTrip(i: int)
    ensures ParseInt(IntToString(i)) == Some(i)
  {
    if i < 0 {
      NatRoundTrip(-i);
      assert IntToString(i)[1..] == NatToString(-i);
    } else {
      NatRoundTrip(i);
    }
  }

  /** Different integers have different decimal forms. */
  lemma IntToStringInjective(a: int, b: int)
    requires IntToString(a) == IntToString(b)
    ensures a == b
  {
    IntRoundTrip(a);
    IntRoundTrip(b);
  }

  // ---------------------------------------------------------------------------

  function IndexOf(s: string, c: char): (i: nat)
    requires c in s
    ensures i < |s| && s[i] == c && c !in s[..i]
  {
    if s[0] == c then 0 else 1 + IndexOf(s[1..], c)
  }

  lemma {:induction false} IndexOfAfter(p: string, c: char, rest: string)
    requires c !in p
    ensures IndexOf(p + [c] + rest, c) == |p|
  {
    if p != [] {
      assert (p + [c] + rest)[1..] == p[1..] + [c] + rest;
      IndexOfAfter(p[1..], c, rest);
    }
  }

  /** `s.split(sep)` with an explicit one-character separator: the pieces between
      separators, empty pieces included, never an empty list. */
  function Split(s: string, sep: char): (parts: seq<string>)
    ensures |parts| >= 1
    ensures forall k :: 0 <= k < |parts| ==> sep !in parts[k]
    decreases |s|
  {
    if sep !in s then [s]
    else
      var i := IndexOf(s, sep);
      [s[..i]] + Split(s[i + 1..], sep)
  }

  /** `sep.join(parts)`. */
  function Join(parts: seq<string>, sep: char): string
    requires |parts| >= 1
  {
    if |parts| == 1 then parts[0] else parts[0] + [sep] + Join(parts[1..], sep)
  }

  /** A piece free of the separator, then the separator, splits off first. */
  lemma SplitCons(p: string, sep: char, rest: string)
    requires sep !in p
    ensures Split(p + [sep] + rest, sep) == [p] + Split(rest, sep)
  {
    var s := p + [sep] + rest;
    assert s[|p|] == sep;
    IndexOfAfter(p, sep, rest);
    assert s[..|p|] == p;
    assert s[|p| + 1..] == rest;
  }

  /** Splitting undoes joining when no piece holds the separator. */
  lemma {:induction false} SplitJoin(parts: seq<string>, sep: char)
    requires |parts| >= 1
    requires forall k :: 0 <= k < |parts| ==> sep !in parts[k]
    ensures Split(Join(parts, sep), sep) == parts
  {
    if |parts| > 1 {
      assert sep !in parts[0];
      SplitCons(parts[0], sep, Join(parts[1..], sep));
      assert forall k :: 0 <= k < |parts[1..]| ==> parts[1..][k] == parts[k + 1];
      SplitJoin(parts[1..], sep);
      assert parts == [parts[0]] + parts[1..];
    }
  }

  predicate StartsWith(s: string, prefix: string) {
    |prefix| <= |s| && s[..|prefix|] == prefix
  }

  predicate EndsWith(s: string, suffix: string) {
    |suffix| <= |s| && s[|s| - |suffix|..] == suffix
  }

  /** `pat` occurs in `s` starting at index `i`. */
  predicate OccursAt(s: string, pat: string, i: int) {
    0 <= i && i + |pat| <= |s| && s[i..i + |pat|] == pat
  }

  /** `s.replace(pat, '')`: every non-overlapping occurrence, found from the left,
      is removed. */
  function RemoveAll(s: string, pat: string): string
    requires |pat| > 0
    decreases |s|
  {
    if |s| < |pat| then s
    else if s[..|pat|] == pat then RemoveAll(s[|pat|..], pat)
    else [s[0]] + RemoveAll(s[1..], pat)
  }

  /** Removing a pattern that was appended once gives back the original string,
      provided no occurrence starts inside it. */
  lemma {:induction false} RemoveAppended(s: string, pat: string)
    requires |pat| > 0
    requires forall i :: 0 <= i < |s| ==> !OccursAt(s + pat, pat, i)
    ensures RemoveAll(s + pat, pat) == s
  {
    var t := s + pat;
    if s == [] {
      assert t == pat;
      assert t[|pat|..] == [];
    } else {
      assert !OccursAt(t, pat, 0);
      assert t[..|pat|] != pat;
      forall i | 0 <= i < |s[1..]|
        ensures !OccursAt(s[1..] + pat, pat, i)
      {
        assert !OccursAt(t, pat, i + 1);
        assert (s[1..] + pat)[i..i + |pat|] == t[i + 1..i + 1 + |pat|];
      }
      RemoveAppended(s[1..], pat);
      assert t[1..] == s[1..] + pat;
    }
  }

  /** `pat` occurs nowhere in `s`. */
  predicate Lacks(s: string, pat: string) {
    forall i :: 0 <= i <= |s| - |pat| ==> !OccursAt(s, pat, i)
  }

  /** A string without the pattern is left as it is. */
  lemma {:induction false} RemoveAbsent(s: string, pat: string)
    requires |pat| > 0 && Lacks(s, pat)
    ensures RemoveAll(s, pat) == s
  {
    if |s| >= |pat| {
      assert !OccursAt(s, pat, 0);
      forall i | 0 <= i <= |s[1..]| - |pat| ensures !OccursAt(s[1..], pat, i) {
        assert !OccursAt(s, pat, i + 1);
        assert s[1..][i..i + |pat|] == s[i + 1..i + 1 + |pat|];
      }
      RemoveAbsent(s[1..], pat);
      assert s == [s[0]] + s[1..];
    }
  }

  /** A character that is not part of the pattern splits the removal in two. */
  lemma {:induction false} RemoveAllAround(u: string, c: char, v: string, pat: string)
    requires |pat| > 0 && c !in pat
    ensures RemoveAll(u + [c] + v, pat) == RemoveAll(u, pat) + [c] + RemoveAll(v, pat)
    decreases |u|
  {
    var t := u + [c] + v;
    if |t| < |pat| {
      assert RemoveAll(v, pat) == v;
      assert RemoveAll(u, pat) == u;
    } else if u == [] {
      assert t[0] == c && t[..|pat|][0] == c;
      assert t[..|pat|] != pat by { assert pat[0] != c; }
      assert t[1..] == v;
    } else if |u| >= |pat| && u[..|pat|] == pat {
      assert t[..|pat|] == pat;
      assert t[|pat|..] == u[|pat|..] + [c] + v;
      RemoveAllAround(u[|pat|..], c, v, pat);
    } else {
      assert t[..|pat|] != pat by {
        if |u| >= |pat| {
          assert t[..|pat|] == u[..|pat|];
        } else {
          assert t[..|pat|][|u|] == c;
          assert c !in pat;
        }
      }
      assert t[1..] == u[1..] + [c] + v;
      RemoveAllAround(u[1..], c, v, pat);
      if |u| < |pat| {
        assert RemoveAll(u, pat) == u;
        assert RemoveAll(u[1..], pat) == u[1..];
        assert u == [u[0]] + u[1..];
      }
    }
  }

  /** The decimal form of an integer is made of digits and at most a leading minus. */
  lemma IntToStringChars(i: int, c: char)
    requires c != '-' && !IsDigit(c)
    ensures c !in IntToString(i)
  {
    var s := IntToString(i);
    if i < 0 {
      assert s == [s[0]] + s[1..];
    }
  }

  /** A string without the first character of a pattern holds no occurrence of it,
      not even one running into the pattern appended to it. */
  lemma LacksFirstChar(s: string, pat: string)
    requires |pat| > 0 && pat[0] !in s
    ensures Lacks(s, pat)
    ensures forall i :: 0 <= i < |s| ==> !OccursAt(s + pat, pat, i)
  {
    forall i | 0 <= i < |s| ensures !OccursAt(s + pat, pat, i) {
      assert s[i] != pat[0];
      assert i + |pat| <= |s + pat| && (s + pat)[i..i + |pat|][0] == s[i];
    }
    forall i | 0 <= i <= |s| - |pat| ensures !OccursAt(s, pat, i) {
      assert s[i] != pat[0];
      assert s[i..i + |pat|][0] == s[i];
    }
  }
}
