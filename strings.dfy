/**
 * The handful of PHP string functions the core relies on: integer to string
 * conversion, implode, trim with a character list, strpos used as a
 * containment test and str_replace with an empty replacement.
 */
module Strings {

  predicate IsDigit(c: char) { '0' <= c <= '9' }

  function DigitChar(d: nat): (c: char)
    requires d < 10
    ensures IsDigit(c)
  {
    ('0' as int + d) as char
  }

  /** The string PHP produces when an integer is used as a string. */
  function Decimal(n: nat): (s: string)
    ensures |s| > 0
    ensures forall i :: 0 <= i < |s| ==> IsDigit(s[i])
    decreases n
  {
    if n < 10 then [DigitChar(n)] else Decimal(n / 10) + [DigitChar(n % 10)]
  }

  /** The value of a string of decimal digits; the inverse of Decimal. */
  function DecimalValue(s: string): nat
    decreases |s|
  {
    if s == [] then 0
    else 10 * DecimalValue(s[..|s| - 1]) + (if IsDigit(s[|s| - 1]) then s[|s| - 1] as int - '0' as int else 0)
  }

  lemma {:induction false} DecimalRoundTrip(n: nat)
    ensures DecimalValue(Decimal(n)) == n
    decreases n
  {
    if n >= 10 {
      DecimalRoundTrip(n / 10);
      var s := Decimal(n);
      assert s[..|s| - 1] == Decimal(n / 10);
    }
  }

  /** PHP implode(sep, parts). */
  function Join(sep: string, parts: seq<string>): string
    decreases |parts|
  {
    if parts == [] then ""
    else if |parts| == 1 then parts[0]
    else Join(sep, parts[..|parts| - 1]) + sep + parts[|parts| - 1]
  }

  function TrimLeft(s: string, c: char): (r: string)
    decreases |s|
  {
    if s != [] && s[0] == c then TrimLeft(s[1..], c) else s
  }

  function TrimRight(s: string, c: char): (r: string)
    decreases |s|
  {
    if s != [] && s[|s| - 1] == c then TrimRight(s[..|s| - 1], c) else s
  }

  /** PHP trim(s, c) for a single character c. */
  function Trim(s: string, c: char): string {
    TrimRight(TrimLeft(s, c), c)
  }

  /** n copies of c. */
  function Run<T>(c: T, n: nat): (r: seq<T>)
    ensures |r| == n && forall i :: 0 <= i < n ==> r[i] == c
  {
    seq(n, _ => c)
  }

  /** Trim removes exactly the leading and trailing runs of c, and nothing in between. */
  lemma {:induction false} TrimSplits(s: string, c: char)
    ensures var r := Trim(s, c);
      (r == [] || (r[0] != c && r[|r| - 1] != c)) &&
      exists a: nat, b: nat {:trigger Run(c, a), Run(c, b)} :: s == Run(c, a) + r + Run(c, b)
  {
    var a := TrimLeftSplits(s, c);
    var l := TrimLeft(s, c);
    var b := TrimRightSplits(l, c);
    var r := TrimRight(l, c);
    assert s == Run(c, a) + r + Run(c, b);
    if r != [] {
      assert l[0] != c by { assert l != []; }
      assert r[0] == l[0];
    }
  }

  lemma {:induction false} TrimLeftSplits(s: string, c: char) returns (a: nat)
    ensures s == Run(c, a) + TrimLeft(s, c)
    ensures TrimLeft(s, c) == [] || TrimLeft(s, c)[0] != c
    decreases |s|
  {
    if s != [] && s[0] == c {
      var a' := TrimLeftSplits(s[1..], c);
      a := a' + 1;
      assert Run(c, a) == [c] + Run(c, a');
    } else {
      a := 0;
      assert Run(c, 0) == [];
    }
  }

  lemma {:induction false} TrimRightSplits(s: string, c: char) returns (b: nat)
    ensures s == TrimRight(s, c) + Run(c, b)
    ensures TrimRight(s, c) == [] || TrimRight(s, c)[|TrimRight(s, c)| - 1] != c
    ensures s != [] && s[0] != c ==> TrimRight(s, c) != [] && TrimRight(s, c)[0] == s[0]
    decreases |s|
  {
    if s != [] && s[|s| - 1] == c {
      var b' := TrimRightSplits(s[..|s| - 1], c);
      b := b' + 1;
      assert Run(c, b) == Run(c, b') + [c];
      assert s == s[..|s| - 1] + [c];
    } else {
      b := 0;
      assert Run(c, 0) == [];
    }
  }

  /** strpos(hay, needle) !== false; an empty needle is found at position 0. */
  predicate Contains(hay: string, needle: string)
    decreases |hay|
  {
    if |hay| < |needle| then false
    else hay[..|needle|] == needle || Contains(hay[1..], needle)
  }

  /** needle occurs in hay starting at index i. */
  predicate OccursAt(hay: string, needle: string, i: int) {
    0 <= i && i + |needle| <= |hay| && hay[i..i + |needle|] == needle
  }

  /** Contains agrees with the textbook definition: some window of hay equals needle. */
  lemma {:induction false} ContainsAt(hay: string, needle: string)
    ensures Contains(hay, needle) <==> exists i :: OccursAt(hay, needle, i)
    decreases |hay|
  {
    if |hay| < |needle| {
    } else if hay[..|needle|] == needle {
      assert OccursAt(hay, needle, 0);
    } else {
      ContainsAt(hay[1..], needle);
      if Contains(hay[1..], needle) {
        var i :| OccursAt(hay[1..], needle, i);
        assert hay[1..][i..i + |needle|] == hay[i + 1..i + 1 + |needle|];
        assert OccursAt(hay, needle, i + 1);
      }
      if exists i :: OccursAt(hay, needle, i) {
        var i :| OccursAt(hay, needle, i);
        assert i != 0;
        assert hay[1..][i - 1..i - 1 + |needle|] == hay[i..i + |needle|];
        assert OccursAt(hay[1..], needle, i - 1);
      }
    }
  }

  /** str_replace(pat, "", s): every occurrence of pat, scanned left to right, removed. */
  function RemoveAll(s: string, pat: string): (r: string)
    ensures |r| <= |s|
    decreases |s|
  {
    if pat == [] || |s| < |pat| then s
    else if s[..|pat|] == pat then RemoveAll(s[|pat|..], pat)
    else [s[0]] + RemoveAll(s[1..], pat)
  }

  /** A string without an occurrence of pat is left as it is. */
  lemma {:induction false} RemoveAllAbsent(s: string, pat: string)
    requires !Contains(s, pat)
    ensures RemoveAll(s, pat) == s
    decreases |s|
  {
    if pat == [] || |s| < |pat| {
    } else {
      RemoveAllAbsent(s[1..], pat);
    }
  }
}
