/** String helpers shared by the modules: the parts of Python's `str` that the
    back end relies on (split, join, replace, startswith, lower, upper,
    capitalize, strip, int() and str() on integers). Letters, digits and
    whitespace are the ASCII ones: lower, upper and capitalize map only
    A-Z and a-z, and int() reads only the digits 0-9. */
module Strs {
  import opened Wrappers

  predicate IsLower(c: char) { 'a' <= c <= 'z' }
  predicate IsUpper(c: char) { 'A' <= c <= 'Z' }
  predicate IsLetter(c: char) { IsLower(c) || IsUpper(c) }
  predicate IsDigit(c: char) { '0' <= c <= '9' }
  predicate IsAlnum(c: char) { IsLetter(c) || IsDigit(c) }

  function ToLowerChar(c: char): (r: char)
    ensures IsUpper(c) ==> IsLower(r)
    ensures !IsUpper(c) ==> r == c
  {
    if IsUpper(c) then (c as int + 32) as char else c
  }

  function ToUpperChar(c: char): (r: char)
    ensures IsLower(c) ==> IsUpper(r) && ToLowerChar(r) == c
    ensures !IsLower(c) ==> r == c
  {
    if IsLower(c) then (c as int - 32) as char else c
  }

  /** Python's `str.lower()` on ASCII text. */
  function Lower(s: string): (r: string)
    ensures |r| == |s|
    ensures forall i :: 0 <= i < |s| ==> r[i] == ToLowerChar(s[i])
  {
    if s == [] then [] else [ToLowerChar(s[0])] + Lower(s[1..])
  }

  /** Python's `str.upper()` on ASCII text. */
  function Upper(s: string): (r: string)
    ensures |r| == |s|
    ensures forall i :: 0 <= i < |s| ==> r[i] == ToUpperChar(s[i])
  {
    if s == [] then [] else [ToUpperChar(s[0])] + Upper(s[1..])
  }

  /** Python's `str.capitalize()`: first character upper case, the rest lower case. */
  function Capitalize(s: string): (r: string)
    ensures |r| == |s|
    ensures |s| > 0 ==> r[0] == ToUpperChar(s[0]) && r[1..] == Lower(s[1..])
  {
    if s == [] then [] else [ToUpperChar(s[0])] + Lower(s[1..])
  }

  predicate StartsWith(s: string, prefix: string) {
    |prefix| <= |s| && s[..|prefix|] == prefix
  }

  /** True when `sep` occurs in `s` at position `i`. */
  predicate OccursAt(s: string, sep: string, i: int) {
    0 <= i && i + |sep| <= |s| && s[i..i + |sep|] == sep
  }

  predicate Contains(s: string, sub: string) {
    exists i :: 0 <= i <= |s| - |sub| && OccursAt(s, sub, i)
  }

  lemma OccursShift(s: string, sep: string, j: int)
    requires 1 <= j && |s| >= 1
    ensures OccursAt(s, sep, j) == OccursAt(s[1..], sep, j - 1)
  {
    if j + |sep| <= |s| {
      var a := s[j..j + |sep|];
      var b := s[1..][j - 1..j - 1 + |sep|];
      assert |a| == |b|;
      forall t | 0 <= t < |a| ensures a[t] == b[t] {
        assert a[t] == s[j + t];
        assert b[t] == s[1..][j - 1 + t];
      }
      assert a == b;
    }
  }

  /** Concatenation regrouped; stated once so that long proofs need not
      rediscover it. */
  lemma AppendAssoc<T>(a: seq<T>, b: seq<T>, c: seq<T>)
    ensures (a + b) + c == a + (b + c)
  {
  }

  /** Index of the first occurrence of `sep` in `s` (Python `str.find`, with None for -1). */
  function IndexOf(s: string, sep: string): (r: Option<nat>)
    requires |sep| > 0
    ensures r.Some? ==> r.value + |sep| <= |s|
    decreases |s|
  {
    if |s| < |sep| then None
    else if s[..|sep|] == sep then Some(0)
    else match IndexOf(s[1..], sep)
      case None => None
      case Some(k) => Some(k + 1)
  }

  /** `IndexOf` finds the first occurrence, and None means there is none. */
  lemma {:induction false} IndexOfMeaning(s: string, sep: string)
    requires |sep| > 0
    ensures IndexOf(s, sep).Some? ==> OccursAt(s, sep, IndexOf(s, sep).value)
    ensures IndexOf(s, sep).Some? ==> forall j :: 0 <= j < IndexOf(s, sep).value ==> !OccursAt(s, sep, j)
    ensures IndexOf(s, sep).None? ==> forall j :: 0 <= j <= |s| - |sep| ==> !OccursAt(s, sep, j)
    decreases |s|
  {
    if |s| >= |sep| {
      if s[..|sep|] == sep {
        assert s[0..|sep|] == s[..|sep|];
      } else {
        assert !OccursAt(s, sep, 0) by { assert s[0..|sep|] == s[..|sep|]; }
        IndexOfMeaning(s[1..], sep);
        match IndexOf(s[1..], sep)
        case None =>
          forall j | 1 <= j <= |s| - |sep| ensures !OccursAt(s, sep, j) { OccursShift(s, sep, j); }
        case Some(k) =>
          OccursShift(s, sep, k + 1);
          forall j | 1 <= j < k + 1 ensures !OccursAt(s, sep, j) { OccursShift(s, sep, j); }
      }
    }
  }

  /** Python's `str.split(sep)` for a non-empty separator. */
  function Split(s: string, sep: string): (r: seq<string>)
    requires |sep| > 0
    ensures |r| >= 1
    decreases |s|
  {
    match IndexOf(s, sep)
    case None => [s]
    case Some(i) => [s[..i]] + Split(s[i + |sep|..], sep)
  }

  /** Python's `sep.join(xs)`. */
  function Join(xs: seq<string>, sep: string): string {
    if |xs| == 0 then ""
    else if |xs| == 1 then xs[0]
    else xs[0] + sep + Join(xs[1..], sep)
  }

  lemma {:induction false} IndexOfAbsent(x: string, c: char)
    requires c !in x
    ensures IndexOf(x, [c]) == None
  {
    if |x| >= 1 {
      assert x[..1] == [x[0]];
      IndexOfAbsent(x[1..], c);
    }
  }

  lemma {:induction false} IndexOfFirst(x: string, c: char, rest: string)
    requires c !in x
    ensures IndexOf(x + [c] + rest, [c]) == Some(|x|)
  {
    var s := x + [c] + rest;
    if |x| == 0 {
      assert s[..1] == [c];
    } else {
      assert s[..1] == [x[0]];
      assert s[1..] == x[1..] + [c] + rest;
      IndexOfFirst(x[1..], c, rest);
    }
  }

  /** Splitting a join gives the parts back when no part contains the separator. */
  lemma {:induction false} SplitJoin(xs: seq<string>, c: char)
    requires |xs| > 0
    requires forall k :: 0 <= k < |xs| ==> c !in xs[k]
    ensures Split(Join(xs, [c]), [c]) == xs
  {
    if |xs| == 1 {
      IndexOfAbsent(xs[0], c);
    } else {
      var rest := Join(xs[1..], [c]);
      IndexOfFirst(xs[0], c, rest);
      var s := xs[0] + [c] + rest;
      assert s[..|xs[0]|] == xs[0];
      assert s[|xs[0]| + 1..] == rest;
      SplitJoin(xs[1..], c);
    }
  }

  /** Joining a split gives the string back. */
  lemma {:induction false} JoinSplit(s: string, sep: string)
    requires |sep| > 0
    ensures Join(Split(s, sep), sep) == s
    decreases |s|
  {
    var idx := IndexOf(s, sep);
    IndexOfMeaning(s, sep);
    if idx.Some? {
      var i := idx.value;
      var tail := s[i + |sep|..];
      var parts := Split(tail, sep);
      assert Split(s, sep) == [s[..i]] + parts;
      JoinSplit(tail, sep);
      assert Join(Split(s, sep), sep) == s[..i] + sep + Join(parts, sep);
      assert s == s[..i] + s[i..i + |sep|] + tail;
    }
  }

  /** No part of a split on one character contains that character. */
  lemma {:induction false} SplitParts(s: string, c: char)
    ensures forall k :: 0 <= k < |Split(s, [c])| ==> c !in Split(s, [c])[k]
    decreases |s|
  {
    IndexOfMeaning(s, [c]);
    match IndexOf(s, [c])
    case None =>
      forall j | 0 <= j < |s| ensures s[j] != c {
        assert !OccursAt(s, [c], j);
        assert s[j..j + 1] == [s[j]];
      }
    case Some(i) =>
      SplitParts(s[i + 1..], c);
      forall j | 0 <= j < i ensures s[..i][j] != c {
        assert !OccursAt(s, [c], j);
        assert s[j..j + 1] == [s[j]];
      }
  }

  /** Python's `s.replace(pat, rep)` for a non-empty `pat`: every non-overlapping
      occurrence, scanning left to right. */
  function ReplaceAll(s: string, pat: string, rep: string): string
    requires |pat| > 0
    decreases |s|
  {
    if |s| < |pat| then s
    else if s[..|pat|] == pat then rep + ReplaceAll(s[|pat|..], pat, rep)
    else [s[0]] + ReplaceAll(s[1..], pat, rep)
  }

  function DigitChar(d: nat): (c: char)
    requires d < 10
    ensures IsDigit(c)
  {
    ('0' as int + d) as char
  }

  /** Python's `str(n)` for a natural number. */
  function NatToString(n: nat): (r: string)
    ensures |r| > 0
    ensures forall i :: 0 <= i < |r| ==> IsDigit(r[i])
  {
    if n < 10 then [DigitChar(n)] else NatToString(n / 10) + [DigitChar(n % 10)]
  }

  /** Python's `str(i)` for an integer. */
  function IntToString(i: int): string {
    if i < 0 then "-" + NatToString(-i) else NatToString(i)
  }

  predicate AllDigits(s: string) {
    forall i :: 0 <= i < |s| ==> IsDigit(s[i])
  }

  /** The value of a string of decimal digits. */
  function DigitsValue(s: string): nat
    requires AllDigits(s)
  {
    if s == [] then 0 else DigitsValue(s[..|s| - 1]) * 10 + (s[|s| - 1] as int - '0' as int)
  }

  lemma {:induction false} DigitsValueOfNatToString(n: nat)
    ensures DigitsValue(NatToString(n)) == n
  {
    var r := NatToString(n);
    if n >= 10 {
      assert r[..|r| - 1] == NatToString(n / 10);
      DigitsValueOfNatToString(n / 10);
    }
  }

  /** The ASCII characters Python's `str.isspace()` accepts, which `int()`
      strips from both ends: tab, line feed, vertical tab, form feed, carriage
      return, the separators 0x1c to 0x1f and the space. */
  predicate IsSpace(c: char) {
    c == ' ' || 9 <= c as int <= 13 || 28 <= c as int <= 31
  }

  /** `s.lstrip()`. */
  function TrimLeft(s: string): (r: string)
    ensures |r| <= |s|
  {
    if s != [] && IsSpace(s[0]) then TrimLeft(s[1..]) else s
  }

  /** `s.rstrip()`. */
  function TrimRight(s: string): (r: string)
    ensures |r| <= |s|
  {
    if s != [] && IsSpace(s[|s| - 1]) then TrimRight(s[..|s| - 1]) else s
  }

  /** `s.strip()`. */
  function Trim(s: string): string {
    TrimRight(TrimLeft(s))
  }

  /** A non-empty run of decimal digits in which single underscores may stand
      between two digits, as Python's `int()` allows ("1_000"). */
  predicate DigitGroups(s: string) {
    |s| > 0 && forall i :: 0 <= i < |s| ==> GroupedAt(s, i)
  }

  /** Position i of `s` holds a digit, or an underscore between two digits. */
  predicate GroupedAt(s: string, i: nat)
    requires i < |s|
  {
    IsDigit(s[i]) || (s[i] == '_' && 0 < i < |s| - 1 && IsDigit(s[i - 1]) && IsDigit(s[i + 1]))
  }

  /** The characters of `s` other than '_', in order. */
  function DropUnderscores(s: string): (r: string)
    ensures (forall i :: 0 <= i < |s| ==> IsDigit(s[i]) || s[i] == '_') ==> AllDigits(r)
    ensures AllDigits(s) ==> r == s
  {
    if s == [] then [] else (if s[0] == '_' then [] else [s[0]]) + DropUnderscores(s[1..])
  }

  /** `int()` on text already stripped: an optional sign and digit groups. */
  function ParseDigits(t: string): Option<int> {
    if DigitGroups(t) then
      assert forall i :: 0 <= i < |t| ==> IsDigit(t[i]) || t[i] == '_' by {
        forall i | 0 <= i < |t| ensures IsDigit(t[i]) || t[i] == '_' { assert GroupedAt(t, i); }
      }
      Some(DigitsValue(DropUnderscores(t))) 
    else if |t| > 1 && (t[0] == '-' || t[0] == '+') && DigitGroups(t[1..]) then
      var u := t[1..];
      assert forall i :: 0 <= i < |u| ==> IsDigit(u[i]) || u[i] == '_' by {
        forall i | 0 <= i < |u| ensures IsDigit(u[i]) || u[i] == '_' { assert GroupedAt(u, i); }
      }
      var mag: int := DigitsValue(DropUnderscores(t[1..]));
      Some(if t[0] == '-' then 0 - mag else mag)
    else None
  }

  /** Python's `int(s)` on ASCII text: surrounding whitespace is stripped, then
      an optional sign and decimal digits, single underscores allowed between
      digits, must remain; None stands for the ValueError raised otherwise. */
  function ParseInt(s: string): (r: Option<int>)
    ensures r.Some? ==> |s| > 0
    ensures |s| > 0 && AllDigits(s) ==> r == Some(DigitsValue(s))
  {
    ParseDigits(Trim(s))
  }

  lemma ParseIntOfNatToString(n: nat)
    ensures ParseInt(NatToString(n)) == Some(n)
  {
    DigitsValueOfNatToString(n);
  }

  /** Whitespace around the text does not change what `int()` reads. */
  lemma ParseIntIgnoresSpace(before: string, s: string, after: string)
    requires forall i :: 0 <= i < |before| ==> IsSpace(before[i])
    requires forall i :: 0 <= i < |after| ==> IsSpace(after[i])
    requires s != [] ==> !IsSpace(s[0]) && !IsSpace(s[|s| - 1])
    ensures ParseInt(before + s + after) == ParseInt(s)
  {
    TrimAround(before, s, after);
  }

  lemma TrimAround(before: string, s: string, after: string)
    requires forall i :: 0 <= i < |before| ==> IsSpace(before[i])
    requires forall i :: 0 <= i < |after| ==> IsSpace(after[i])
    requires s != [] ==> !IsSpace(s[0]) && !IsSpace(s[|s| - 1])
    ensures Trim(before + s + after) == Trim(s)
  {
    var w := before + s + after;
    assert w == before + (s + after);
    LeftSpaces(before, s + after);
    if s == [] {
      assert s + after == after + [];
      LeftSpaces(after, []);
      assert Trim(w) == [] == Trim(s);
    } else {
      var u := s + after;
      assert u[0] == s[0];
      assert TrimLeft(u) == u;
      RightSpaces(s, after);
      assert TrimLeft(s) == s;
      assert TrimRight(s) == s by { assert s[|s| - 1] == s[|s| - 1]; }
      assert Trim(w) == s == Trim(s);
    }
  }

  lemma {:induction false} LeftSpaces(ws: string, t: string)
    requires forall i :: 0 <= i < |ws| ==> IsSpace(ws[i])
    ensures TrimLeft(ws + t) == TrimLeft(t)
  {
    if ws != [] {
      var w := ws + t;
      assert w[0] == ws[0] && IsSpace(w[0]);
      assert w[1..] == ws[1..] + t;
      assert TrimLeft(w) == TrimLeft(w[1..]);
      LeftSpaces(ws[1..], t);
    } else {
      assert ws + t == t;
    }
  }

  lemma {:induction false} RightSpaces(t: string, ws: string)
    requires forall i :: 0 <= i < |ws| ==> IsSpace(ws[i])
    ensures TrimRight(t + ws) == TrimRight(t)
  {
    if ws != [] {
      var w := t + ws;
      assert w[|w| - 1] == ws[|ws| - 1] && IsSpace(w[|w| - 1]);
      assert w[..|w| - 1] == t + ws[..|ws| - 1];
      assert TrimRight(w) == TrimRight(w[..|w| - 1]);
      RightSpaces(t, ws[..|ws| - 1]);
    } else {
      assert t + ws == t;
    }
  }

  /** `int()` strips surrounding whitespace: " 2" is 2. */
  lemma ParseIntSpaced()
    ensures ParseInt(" 2") == Some(2)
  {
    assert TrimLeft(" 2") == "2" by { assert " 2"[1..] == "2"; }
    assert TrimRight("2") == "2";
    assert DigitGroups("2") by { assert GroupedAt("2", 0); }
    assert DigitsValue("2") == 2 by { assert "2"[..0] == ""; }
  }

  /** A trailing line feed is whitespace too: "-1\n" is -1. */
  lemma ParseIntNewline()
    ensures ParseInt("-1\n") == Some(-1)
  {
    assert TrimLeft("-1\n") == "-1\n";
    assert TrimRight("-1\n") == "-1" by { assert "-1\n"[..2] == "-1"; }
    assert !DigitGroups("-1") by { assert !GroupedAt("-1", 0); }
    assert "-1"[1..] == "1";
    assert DigitGroups("1") by { assert GroupedAt("1", 0); }
    assert DigitsValue("1") == 1 by { assert "1"[..0] == ""; }
  }

  /** A single underscore between digits is allowed: "1_0" is 10. */
  lemma ParseIntUnderscore()
    ensures ParseInt("1_0") == Some(10)
  {
    assert TrimLeft("1_0") == "1_0";
    assert TrimRight("1_0") == "1_0";
    assert DigitGroups("1_0") by {
      assert GroupedAt("1_0", 0) && GroupedAt("1_0", 1) && GroupedAt("1_0", 2);
    }
    assert DropUnderscores("1_0") == "10" by {
      assert "1_0"[1..] == "_0";
      assert "_0"[1..] == "0";
      assert DropUnderscores("0") == "0";
    }
    assert DigitsValue("10") == 10 by {
      assert "10"[..1] == "1";
      assert DigitsValue("1") == 1 by { assert "1"[..0] == ""; }
    }
  }

  /** What `int()` refuses: doubled, leading or trailing underscores, blank
      text and a space after the sign. */
  lemma ParseIntRefuses()
    ensures ParseInt("1__0") == None && ParseInt("_1") == None && ParseInt("1_") == None
    ensures ParseInt(" ") == None && ParseInt("- 1") == None
  {
    assert !GroupedAt("1__0", 1);
    assert !GroupedAt("_1", 0);
    assert !GroupedAt("1_", 1);
    assert !GroupedAt(" 1", 0);
    assert Trim("- 1") == "- 1";
    assert !GroupedAt("- 1", 0);
    assert Trim(" ") == "" by { assert " "[1..] == ""; }
  }
}
