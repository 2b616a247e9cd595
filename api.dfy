/** The version setter of `apis/api.py`: `NexusVersion._check`, which accepts
    a dotted version number, optionally prefixed by 'V' or 'v', or the word
    "develop" in any case, and refuses everything else with a 400 error. */
module Api {
  import opened Wrappers
  import opened Strs

  /** The error `_check` raises. */
  const InvalidVersion := DevOps(400, "api_version is not valid")

  /** `\d+(\.\d+)*` matched against the whole of `s`, scanned left to right. */
  predicate DottedDigits(s: string)
    decreases |s|
  {
    |s| > 0 && IsDigit(s[0]) &&
    (|s| == 1 || (IsDigit(s[1]) && DottedDigits(s[1..])) || (s[1] == '.' && DottedDigits(s[2..])))
  }

  /** `[Vv]?\d+(\.\d+)*` matched against the whole of `s`. */
  predicate VersionPattern(s: string) {
    DottedDigits(s) || (|s| > 0 && (s[0] == 'V' || s[0] == 'v') && DottedDigits(s[1..]))
  }

  /** `re.match(r"^[Vv]?\d+(\.\d+)*$", s)` succeeds: Python's `$` also matches
      just before a final newline. */
  predicate VersionRegexMatches(s: string) {
    VersionPattern(s) || (|s| > 0 && s[|s| - 1] == '\n' && VersionPattern(s[..|s| - 1]))
  }

  /** `_check`: the string back unchanged when it is a version or "develop"
      in any case, the 400 error otherwise. */
  function Check(check: string): (r: Result<string>)
    ensures r.Ok? ==> r.value == check
    ensures r.Err? ==> r.error == InvalidVersion
    ensures Lower(check) == "develop" ==> r == Ok(check)
  {
    if !VersionRegexMatches(check) && Lower(check) != "develop" then Err(InvalidVersion)
    else Ok(check)
  }

  // ---------------------------------------------------------------------
  // The pattern as dot-separated digit groups
  // ---------------------------------------------------------------------

  /** A non-empty run of decimal digits. */
  predicate DigitRun(p: string) {
    |p| > 0 && forall i :: 0 <= i < |p| ==> IsDigit(p[i])
  }

  /** Every part is a non-empty run of digits. */
  predicate AllRuns(parts: seq<string>) {
    forall k :: 0 <= k < |parts| ==> DigitRun(parts[k])
  }

  /** A version number: one or more digit groups joined by single dots. */
  predicate DigitGroups(s: string) {
    AllRuns(Split(s, "."))
  }

  lemma SplitDot(t: string)
    ensures Split(['.'] + t, ".") == [""] + Split(t, ".")
  {
    var s := ['.'] + t;
    assert s[..1] == ".";
    assert s[1..] == t;
  }

  lemma SplitCons(c: char, t: string)
    requires c != '.'
    ensures var p := Split(t, ".");
      Split([c] + t, ".") == [[c] + p[0]] + p[1..]
  {
    var s := [c] + t;
    assert s[..1] != ".";
    assert s[1..] == t;
    match IndexOf(t, ".")
    case None =>
    case Some(k) =>
      assert IndexOf(s, ".") == Some(k + 1);
      assert s[..k + 1] == [c] + t[..k];
      assert s[k + 2..] == t[k + 1..];
  }

  lemma GroupsSingle(s: string)
    requires |s| == 1 && IsDigit(s[0])
    ensures DigitGroups(s)
  {
    assert s == [s[0]] + [];
    SplitCons(s[0], []);
    assert Split([], ".") == [""];
  }

  lemma GroupsStartBad(s: string)
    requires |s| > 0 && !IsDigit(s[0])
    ensures !DigitGroups(s)
  {
    assert s == [s[0]] + s[1..];
    if s[0] == '.' {
      SplitDot(s[1..]);
      assert Split(s, ".")[0] == "";
    } else {
      SplitCons(s[0], s[1..]);
      assert Split(s, ".")[0][0] == s[0];
    }
  }

  lemma GroupsSecondBad(s: string)
    requires |s| > 1 && IsDigit(s[0]) && !IsDigit(s[1]) && s[1] != '.'
    ensures !DigitGroups(s)
  {
    var t := s[1..];
    assert s == [s[0]] + t;
    assert t == [t[0]] + t[1..];
    SplitCons(s[0], t);
    SplitCons(t[0], t[1..]);
    assert Split(s, ".")[0][1] == s[1];
  }

  lemma GroupsDigitDigit(s: string)
    requires |s| > 1 && IsDigit(s[0]) && IsDigit(s[1])
    ensures DigitGroups(s) <==> DigitGroups(s[1..])
  {
    var t := s[1..];
    assert s == [s[0]] + t;
    assert t == [t[0]] + t[1..];
    SplitCons(s[0], t);
    SplitCons(t[0], t[1..]);
    AllRunsCons(s[0], Split(t, "."));
  }

  lemma GroupsDigitDot(s: string)
    requires |s| > 1 && IsDigit(s[0]) && s[1] == '.'
    ensures DigitGroups(s) <==> DigitGroups(s[2..])
  {
    var t := s[1..];
    assert s == [s[0]] + t;
    assert t == ['.'] + s[2..];
    SplitCons(s[0], t);
    SplitDot(s[2..]);
    assert Split(s, ".") == [[s[0]]] + Split(s[2..], ".");
    assert DigitRun([s[0]]);
    AllRunsHead([s[0]], Split(s[2..], "."));
  }

  /** The scanner accepts exactly the dot-separated digit groups. */
  lemma {:induction false} DottedDigitsGroups(s: string)
    ensures DottedDigits(s) <==> DigitGroups(s)
    decreases |s|
  {
    if s == [] {
      assert Split(s, ".") == [""];
      assert !DigitRun(Split(s, ".")[0]);
    } else if !IsDigit(s[0]) {
      GroupsStartBad(s);
    } else if |s| == 1 {
      GroupsSingle(s);
    } else if IsDigit(s[1]) {
      DottedDigitsGroups(s[1..]);
      GroupsDigitDigit(s);
    } else if s[1] == '.' {
      DottedDigitsGroups(s[2..]);
      GroupsDigitDot(s);
    } else {
      GroupsSecondBad(s);
    }
  }

  lemma AllRunsHead(h: string, rest: seq<string>)
    requires DigitRun(h)
    ensures AllRuns([h] + rest) <==> AllRuns(rest)
  {
    assert forall k :: 0 <= k < |rest| ==> ([h] + rest)[k + 1] == rest[k];
  }

  lemma AllRunsCons(c: char, p: seq<string>)
    requires IsDigit(c) && |p| > 0 && |p[0]| > 0
    ensures AllRuns([[c] + p[0]] + p[1..]) <==> AllRuns(p)
  {
    var q := [[c] + p[0]] + p[1..];
    assert forall k :: 1 <= k < |p| ==> q[k] == p[k];
    assert DigitRun(q[0]) <==> DigitRun(p[0]) by {
      assert forall i :: 0 <= i < |p[0]| ==> q[0][i + 1] == p[0][i];
    }
  }

  /** What `_check` accepts, stated without the scanner: a version of dotted
      digit groups, optionally after a 'V' or 'v' and before one final
      newline, or "develop" in any letter case. */
  predicate Acceptable(s: string) {
    var body := if |s| > 0 && s[|s| - 1] == '\n' then s[..|s| - 1] else s;
    DigitGroups(s) || DigitGroups(body) ||
    (|body| > 0 && (body[0] == 'V' || body[0] == 'v') && DigitGroups(body[1..])) ||
    (|s| > 0 && (s[0] == 'V' || s[0] == 'v') && DigitGroups(s[1..])) ||
    Lower(s) == "develop"
  }

  /** `_check` returns its argument exactly on the acceptable strings and
      raises the 400 error on all others. */
  lemma CheckAccepts(s: string)
    ensures Check(s) == (if Acceptable(s) then Ok(s) else Err(InvalidVersion))
  {
    DottedDigitsGroups(s);
    if |s| > 0 {
      DottedDigitsGroups(s[1..]);
      DottedDigitsGroups(s[..|s| - 1]);
      if |s| > 1 {
        assert s[..|s| - 1][1..] == s[1..][..|s| - 2];
        DottedDigitsGroups(s[..|s| - 1][1..]);
      }
    }
  }

  /** Strings with an empty digit group, a leading or trailing dot, or a
      leading letter other than 'V'/'v' are refused. */
  lemma CheckRefuses()
    ensures Check("") == Err(InvalidVersion)
    ensures Check("1.") == Err(InvalidVersion)
    ensures Check(".1") == Err(InvalidVersion)
    ensures Check("1..2") == Err(InvalidVersion)
    ensures Check("x1") == Err(InvalidVersion)
  {
    assert Lower("1.")[0] == '1';
    assert Lower(".1")[0] == '.';
    assert Lower("1..2")[0] == '1';
    assert Lower("x1")[0] == 'x';
    assert !DottedDigits("1."[2..]);
    assert !DottedDigits("1..2"[2..]);
  }

  /** Examples of accepted strings. */
  lemma CheckAcceptsExamples()
    ensures Check("v1.22.0") == Ok("v1.22.0")
    ensures Check("DEVELOP") == Ok("DEVELOP")
  {
    assert DottedDigits("0");
    assert "2.0"[2..] == "0";
    assert DottedDigits("2.0");
    assert "22.0"[1..] == "2.0";
    assert DottedDigits("22.0");
    assert "1.22.0"[2..] == "22.0";
    assert DottedDigits("1.22.0");
    assert "v1.22.0"[1..] == "1.22.0";
    assert Lower("DEVELOP") == "develop";
  }
}
