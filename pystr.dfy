/**
 * The parts of Python's `str` type that the backend relies on: `lower()`,
 * `isspace()`, `strip()`, `split()` with no separator, `endswith()` and the
 * decimal rendering of an `int` in an f-string. Strings are sequences of
 * Unicode scalar values; `lower()` is modelled on ASCII letters only.
 */
module PyStr {

  predicate IsAsciiUpper(c: char) { 'A' <= c <= 'Z' }

  predicate IsAsciiLower(c: char) { 'a' <= c <= 'z' }

  predicate IsAsciiLetter(c: char) { IsAsciiUpper(c) || IsAsciiLower(c) }

  predicate IsDigit(c: char) { '0' <= c <= '9' }

  /** `str.lower()` on one character, for ASCII letters. */
  function LowerChar(c: char): (d: char)
    ensures !IsAsciiUpper(d)
    ensures IsAsciiLetter(d) <==> IsAsciiLetter(c)
    ensures !IsAsciiUpper(c) ==> d == c
  {
    if IsAsciiUpper(c) then (c as int - 'A' as int + 'a' as int) as char else c
  }

  /** `s.lower()`: same length, no upper-case ASCII letter left, everything else unchanged. */
  function Lower(s: string): (r: string)
    ensures |r| == |s|
    ensures forall i :: 0 <= i < |s| ==> r[i] == LowerChar(s[i])
    ensures forall i :: 0 <= i < |r| ==> !IsAsciiUpper(r[i])
  {
    seq(|s|, i requires 0 <= i < |s| => LowerChar(s[i]))
  }

  /** Lower-casing twice is lower-casing once. */
  lemma LowerIdempotent(s: string)
    ensures Lower(Lower(s)) == Lower(s)
  {
  }

  /**
   * `str.isspace()` on one character: the ASCII whitespace and separator
   * controls and the Unicode space, line and paragraph separators.
   */
  predicate IsSpace(c: char) {
    c == ' ' || '\t' <= c <= '\r' || '\U{1C}' <= c <= '\U{1F}'
    || c == '\U{85}' || c == '\U{A0}' || c == '\U{1680}'
    || '\U{2000}' <= c <= '\U{200A}' || c == '\U{2028}' || c == '\U{2029}'
    || c == '\U{202F}' || c == '\U{205F}' || c == '\U{3000}'
  }

  predicate AllSpace(s: string) {
    forall i :: 0 <= i < |s| ==> IsSpace(s[i])
  }

  predicate NoSpace(s: string) {
    forall i :: 0 <= i < |s| ==> !IsSpace(s[i])
  }

  /** `s.lstrip()`: drops the leading whitespace and nothing else. */
  function StripLeft(s: string): (r: string)
    ensures |r| <= |s| && r == s[|s| - |r|..]
    ensures AllSpace(s[..|s| - |r|])
    ensures r == [] || !IsSpace(r[0])
    decreases |s|
  {
    if s != [] && IsSpace(s[0]) then StripLeft(s[1..]) else s
  }

  /** `s.rstrip()`: drops the trailing whitespace and nothing else. */
  function StripRight(s: string): (r: string)
    ensures |r| <= |s| && r == s[..|r|]
    ensures AllSpace(s[|r|..])
    ensures r == [] || !IsSpace(r[|r| - 1])
    decreases |s|
  {
    if s != [] && IsSpace(s[|s| - 1]) then
      var r := StripRight(s[..|s| - 1]);
      assert s[|r|..] == s[..|s| - 1][|r|..] + [s[|s| - 1]];
      r
    else s
  }

  /**
   * `s.strip()`: neither starts nor ends with whitespace, and is empty
   * exactly when `s` is all whitespace.
   */
  function Strip(s: string): (r: string)
    ensures |r| <= |s|
    ensures r != [] ==> !IsSpace(r[0]) && !IsSpace(r[|r| - 1])
    ensures r == [] <==> AllSpace(s)
  {
    StripEmptyIffAllSpace(s);
    StripRight(StripLeft(s))
  }

  lemma StripEmptyIffAllSpace(s: string)
    ensures StripRight(StripLeft(s)) == [] <==> AllSpace(s)
  {
    var l := StripLeft(s);
    var a := |s| - |l|;
    if StripRight(l) == [] {
      if l != [] {
        assert false;
      }
      assert s[..a] == s;
    } else {
      assert l == s[a..];
      assert l[0] == s[a];
    }
  }

  /** What `s.strip()` keeps is one slice of `s`, starting where `lstrip` stopped. */
  lemma StripIsSlice(s: string)
    ensures var a := |s| - |StripLeft(s)|; var r := Strip(s);
      a + |r| <= |s| && r == s[a..a + |r|]
  {
    var l := StripLeft(s);
    var a := |s| - |l|;
    assert l == s[a..];
  }

  /** What `s.strip()` cuts off on either side is whitespace. */
  lemma StripCutsOnlySpaces(s: string)
    ensures var a := |s| - |StripLeft(s)|; var r := Strip(s);
      a + |r| <= |s| && AllSpace(s[..a]) && AllSpace(s[a + |r|..])
  {
    var l := StripLeft(s);
    var r := StripRight(l);
    var a := |s| - |l|;
    var t := s[a + |r|..];
    forall i | 0 <= i < |t| ensures IsSpace(t[i]) {
      assert t[i] == s[a + |r| + i] == l[|r| + i] == l[|r|..][i];
    }
  }

  /** The end of the run of non-whitespace characters that starts at `i`. */
  function NonSpaceRunEnd(s: string, i: nat): (e: nat)
    requires i <= |s|
    ensures i <= e <= |s|
    ensures forall k :: i <= k < e ==> !IsSpace(s[k])
    ensures e == |s| || IsSpace(s[e])
    decreases |s| - i
  {
    if i < |s| && !IsSpace(s[i]) then NonSpaceRunEnd(s, i + 1) else i
  }

  /**
   * `s.split()` with no separator: the maximal runs of non-whitespace
   * characters, in order. Every field is non-empty and holds no whitespace.
   */
  function SplitWs(s: string): (fields: seq<string>)
    ensures forall f :: f in fields ==> f != [] && NoSpace(f)
    decreases |s|
  {
    if s == [] then []
    else if IsSpace(s[0]) then SplitWs(s[1..])
    else
      var e := NonSpaceRunEnd(s, 0);
      [s[..e]] + SplitWs(s[e..])
  }

  /** The characters of `s` that are not whitespace, in order. */
  function DropSpaces(s: string): string
    decreases |s|
  {
    if s == [] then [] else (if IsSpace(s[0]) then [] else [s[0]]) + DropSpaces(s[1..])
  }

  function Concat(fields: seq<string>): string
    decreases |fields|
  {
    if fields == [] then [] else fields[0] + Concat(fields[1..])
  }

  /** `" ".join(fields)` */
  function JoinWithSpace(fields: seq<string>): string
    decreases |fields|
  {
    if fields == [] then []
    else if |fields| == 1 then fields[0]
    else fields[0] + " " + JoinWithSpace(fields[1..])
  }

  lemma {:induction false} DropSpacesAppend(a: string, b: string)
    ensures DropSpaces(a + b) == DropSpaces(a) + DropSpaces(b)
    decreases |a|
  {
    if a != [] {
      assert (a + b)[1..] == a[1..] + b;
      DropSpacesAppend(a[1..], b);
    } else {
      assert a + b == b;
    }
  }

  lemma {:induction false} DropSpacesOfNoSpace(a: string)
    requires NoSpace(a)
    ensures DropSpaces(a) == a
    decreases |a|
  {
    if a != [] {
      DropSpacesOfNoSpace(a[1..]);
    }
  }

  /** Splitting loses exactly the whitespace: the fields, glued together, are `s` without its whitespace. */
  lemma {:induction false} SplitWsLosesOnlySpaces(s: string)
    ensures Concat(SplitWs(s)) == DropSpaces(s)
    decreases |s|
  {
    if s == [] {
    } else if IsSpace(s[0]) {
      SplitWsLosesOnlySpaces(s[1..]);
    } else {
      var e := NonSpaceRunEnd(s, 0);
      SplitWsLosesOnlySpaces(s[e..]);
      assert s == s[..e] + s[e..];
      DropSpacesAppend(s[..e], s[e..]);
      DropSpacesOfNoSpace(s[..e]);
      assert SplitWs(s)[1..] == SplitWs(s[e..]);
    }
  }

  /** A string that is not all whitespace has at least one field, so its word count is positive. */
  lemma {:induction false} SplitWsNonEmpty(s: string)
    requires !AllSpace(s)
    ensures |SplitWs(s)| >= 1
    decreases |s|
  {
    if IsSpace(s[0]) {
      assert !AllSpace(s[1..]) by {
        var k :| 0 <= k < |s| && !IsSpace(s[k]);
        assert s[1..][k - 1] == s[k];
      }
      SplitWsNonEmpty(s[1..]);
    }
  }

  lemma {:induction false} AllSpaceSplitsToNothing(s: string)
    requires AllSpace(s)
    ensures SplitWs(s) == []
    decreases |s|
  {
    if s != [] {
      assert AllSpace(s[1..]) by {
        forall i | 0 <= i < |s[1..]| ensures IsSpace(s[1..][i]) {
          assert s[1..][i] == s[i + 1];
        }
      }
      AllSpaceSplitsToNothing(s[1..]);
    }
  }

  /** `s.split()` is empty exactly when `s` is all whitespace. */
  lemma SplitWsEmptyIffAllSpace(s: string)
    ensures SplitWs(s) == [] <==> AllSpace(s)
  {
    if AllSpace(s) {
      AllSpaceSplitsToNothing(s);
    } else {
      SplitWsNonEmpty(s);
    }
  }

  lemma {:induction false} SplitWsOfFieldThenRest(f: string, rest: string)
    requires f != [] && NoSpace(f)
    requires rest == [] || IsSpace(rest[0])
    ensures SplitWs(f + rest) == [f] + SplitWs(rest)
  {
    var s := f + rest;
    assert !IsSpace(s[0]);
    var e := NonSpaceRunEnd(s, 0);
    assert forall k :: 0 <= k < |f| ==> s[k] == f[k];
    assert rest != [] ==> s[|f|] == rest[0];
    assert e == |f|;
    assert s[..e] == f;
    assert s[e..] == rest;
  }

  /** A non-empty run without whitespace is one field. */
  lemma SplitWsOfWord(w: string)
    requires w != [] && NoSpace(w)
    ensures SplitWs(w) == [w]
  {
    assert w + [] == w;
    SplitWsOfFieldThenRest(w, []);
  }

  lemma CutBeforeSpace(a: string, e: nat, c: char, b: string)
    requires e <= |a|
    ensures a + [c] + b == a[..e] + (a[e..] + [c] + b)
  {
    assert a == a[..e] + a[e..];
  }

  /** A text that starts with a non-whitespace character starts with its first field. */
  lemma SplitWsFirstField(a: string)
    requires a != [] && !IsSpace(a[0])
    ensures var e := NonSpaceRunEnd(a, 0);
      && a[..e] != [] && NoSpace(a[..e])
      && (e == |a| || IsSpace(a[e]))
      && SplitWs(a) == [a[..e]] + SplitWs(a[e..])
  {
  }

  /**
   * A whitespace character separates fields: the fields of `a + [c] + b` are
   * the fields of `a` followed by those of `b`, whatever whitespace runs `a`
   * and `b` hold. With `SplitWsOfWord` and `SplitWs("") == []` this fixes
   * the fields of every text: they are its maximal runs of non-whitespace.
   */
  lemma {:induction false} SplitWsAtSpace(a: string, c: char, b: string)
    requires IsSpace(c)
    ensures SplitWs(a + [c] + b) == SplitWs(a) + SplitWs(b)
    decreases |a|
  {
    var s := a + [c] + b;
    if a == [] {
      assert s[1..] == b;
    } else if IsSpace(a[0]) {
      assert s[1..] == a[1..] + [c] + b;
      SplitWsAtSpace(a[1..], c, b);
    } else {
      var e := NonSpaceRunEnd(a, 0);
      var f := a[..e];
      var tail := a[e..];
      var rest := tail + [c] + b;
      SplitWsFirstField(a);
      CutBeforeSpace(a, e, c, b);
      assert rest[0] == if tail == [] then c else tail[0];
      calc {
        SplitWs(s);
      == { SplitWsOfFieldThenRest(f, rest); }
        [f] + SplitWs(rest);
      == { SplitWsAtSpace(tail, c, b); }
        [f] + (SplitWs(tail) + SplitWs(b));
      ==
        ([f] + SplitWs(tail)) + SplitWs(b);
      }
    }
  }

  /** Joining non-empty, whitespace-free fields with single spaces and splitting again gives the fields back. */
  lemma {:induction false} SplitWsJoinRoundTrip(fields: seq<string>)
    requires forall f :: f in fields ==> f != [] && NoSpace(f)
    ensures SplitWs(JoinWithSpace(fields)) == fields
    decreases |fields|
  {
    if |fields| == 1 {
      assert fields[0] + [] == fields[0];
      assert fields[0] in fields;
      SplitWsOfFieldThenRest(fields[0], []);
    } else if |fields| > 1 {
      var tail := JoinWithSpace(fields[1..]);
      assert fields[0] in fields;
      assert forall f :: f in fields[1..] ==> f in fields;
      SplitWsJoinRoundTrip(fields[1..]);
      assert fields[0] + " " + tail == fields[0] + (" " + tail);
      SplitWsOfFieldThenRest(fields[0], " " + tail);
      assert (" " + tail)[1..] == tail;
    }
  }

  /** `s.endswith(suffix)` */
  predicate EndsWith(s: string, suffix: string) {
    |suffix| <= |s| && s[|s| - |suffix|..] == suffix
  }

  function DigitChar(d: nat): (c: char)
    requires d < 10
    ensures IsDigit(c)
  {
    ('0' as int + d) as char
  }

  /** A decimal numeral as `str` writes one: digits only, and no leading zero unless it is `"0"`. */
  predicate Numeral(s: string) {
    && s != []
    && (forall i :: 0 <= i < |s| ==> IsDigit(s[i]))
    && (s[0] == '0' ==> |s| == 1)
  }

  /** The decimal rendering `str(n)` of a non-negative integer: a numeral, which starts with `0` only for 0. */
  function NatToString(n: nat): (r: string)
    ensures Numeral(r)
    ensures r[0] == '0' <==> n == 0
    decreases n
  {
    if n < 10 then [DigitChar(n)] else NatToString(n / 10) + [DigitChar(n % 10)]
  }

  /** `int(s)` for a string of decimal digits (0 for the empty string). */
  function DigitsValue(s: string): nat
    requires forall i :: 0 <= i < |s| ==> IsDigit(s[i])
    decreases |s|
  {
    if s == [] then 0
    else
      assert IsDigit(s[|s| - 1]);
      DigitsValue(s[..|s| - 1]) * 10 + (s[|s| - 1] as int - '0' as int)
  }

  /** Reading back the decimal rendering of `n` gives `n`. */
  lemma {:induction false} NatToStringRoundTrip(n: nat)
    ensures DigitsValue(NatToString(n)) == n
    decreases n
  {
    if n >= 10 {
      var s := NatToString(n);
      NatToStringRoundTrip(n / 10);
      assert s[..|s| - 1] == NatToString(n / 10);
    }
  }

  /** A numeral whose first digit is not `0` stands for a positive number. */
  lemma {:induction false} LeadingDigitPositive(s: string)
    requires s != [] && (forall i :: 0 <= i < |s| ==> IsDigit(s[i])) && s[0] != '0'
    ensures DigitsValue(s) > 0
    decreases |s|
  {
    if |s| > 1 {
      var p := s[..|s| - 1];
      assert p[0] == s[0];
      LeadingDigitPositive(p);
    }
  }

  /**
   * Every numeral is the rendering of the number it stands for: with
   * `NatToStringRoundTrip`, numerals and naturals correspond one to one.
   */
  lemma {:induction false} NumeralUnique(s: string)
    requires Numeral(s)
    ensures NatToString(DigitsValue(s)) == s
    decreases |s|
  {
    var v := DigitsValue(s);
    var d := s[|s| - 1] as int - '0' as int;
    assert DigitChar(d) == s[|s| - 1];
    if |s| == 1 {
      assert s[..0] == [];
      assert DigitsValue(s) == DigitsValue(s[..0]) * 10 + d;
    } else {
      var p := s[..|s| - 1];
      assert p[0] == s[0];
      assert Numeral(p);
      LeadingDigitPositive(p);
      NumeralUnique(p);
      assert v == DigitsValue(p) * 10 + d;
      assert v / 10 == DigitsValue(p) && v % 10 == d;
      assert s == p + [s[|s| - 1]];
    }
  }
}
