/** Issue text for failed automated tests (`apis/resources/test_generated_issue.py`):
    the issue subject for a test script and the per-execution summary of a
    Postman run. */
module TestGeneratedIssue {
  import opened Wrappers
  import opened Strs

  /** `SOFTWARE_ISSUE_TITLE`; an unknown software name raises KeyError. */
  function SoftwareTitle(softwareName: string): Option<string> {
    if softwareName == "sideex" then Some("SideeX")
    else if softwareName == "postman" then Some("Postman")
    else if softwareName == "zap" then Some("Zap")
    else if softwareName == "webinspect" then Some("WebInspect")
    else if softwareName == "sonarqube" then Some("SonarQube")
    else if softwareName == "checkmarx" then Some("CheckMarx")
    else None
  }

  const FailedSuffix := "_測試失敗"

  /** The script name a subject shows: Postman scripts are collections. */
  function FullFileName(filename: string, softwareName: string): string {
    if softwareName != "postman" then filename
    else if filename == "" then "postman_collection"
    else filename + ".postman_collection"
  }

  /** `_get_issue_subject`. */
  function IssueSubject(filename: string, softwareName: string): (r: Result<string>)
    ensures r.Err? <==> SoftwareTitle(softwareName).None?
    ensures r.Ok? ==> r.value == "[" + SoftwareTitle(softwareName).value + "] Script: " +
                                 FullFileName(filename, softwareName) + FailedSuffix
  {
    match SoftwareTitle(softwareName)
    case None => Err(Crash("KeyError: " + softwareName))
    case Some(title) =>
      if softwareName == "postman" then
        var full := if filename == "" then "postman_collection" else filename + ".postman_collection";
        Ok("[" + title + "] Script: " + full + FailedSuffix)
      else Ok("[" + title + "] Script: " + filename + FailedSuffix)
  }

  lemma PostmanFullFileNameInjective(f: string, g: string)
    requires FullFileName(f, "postman") == FullFileName(g, "postman")
    ensures f == g
  {
    if f != "" && g != "" {
      assert f == FullFileName(f, "postman")[..|f|];
    }
  }

  /** Different scripts of one tool get different subjects, so a subject
      names its script. */
  lemma IssueSubjectInjective(f: string, g: string, softwareName: string)
    requires IssueSubject(f, softwareName).Ok?
    requires IssueSubject(f, softwareName) == IssueSubject(g, softwareName)
    ensures f == g
  {
    var head := "[" + SoftwareTitle(softwareName).value + "] Script: ";
    var a := FullFileName(f, softwareName);
    var b := FullFileName(g, softwareName);
    assert |a| == |b|;
    assert a == (head + a + FailedSuffix)[|head|..|head| + |a|];
    assert b == (head + b + FailedSuffix)[|head|..|head| + |b|];
    if softwareName == "postman" {
      PostmanFullFileNameInjective(f, g);
    }
  }

  /** A Postman assertion and the error message it failed with, if any. */
  datatype Assertion = Assertion(text: string, errorMessage: Option<string>)

  /** The texts of the failed assertions, in order. */
  function FailedTexts(assertions: seq<Assertion>): seq<string> {
    if assertions == [] then []
    else
      var last := assertions[|assertions| - 1];
      FailedTexts(assertions[..|assertions| - 1]) + (if last.errorMessage.Some? then [last.text] else [])
  }

  /** One summary line: "\n\tCase <case>:<number>.<assertion>". */
  function CaseLine(caseNum: int, num: int, text: string): string {
    "\n\tCase " + IntToString(caseNum) + ":" + IntToString(num) + "." + text
  }

  /** The lines of the failed assertions, numbered from `start`. */
  function Numbered(texts: seq<string>, caseNum: int, start: int): string
    decreases |texts|
  {
    if texts == [] then "" else CaseLine(caseNum, start, texts[0]) + Numbered(texts[1..], caseNum, start + 1)
  }

  /** `check_postman_execution_status`, as a value: no assertions gives
      (True, ""); otherwise the status says whether none failed and the
      line is "<case>-<name>" followed by the numbered failures. */
  function ExecutionStatus(name: string, assertions: seq<Assertion>, caseNum: int): (r: (bool, string))
    ensures r.0 <==> FailedTexts(assertions) == []
    ensures assertions == [] ==> r.1 == ""
  {
    if assertions == [] then (true, "")
    else (FailedTexts(assertions) == [],
          IntToString(caseNum) + "-" + name + Numbered(FailedTexts(assertions), caseNum, 1))
  }

  /** `check_postman_execution_status`. */
  method CheckPostmanExecutionStatus(name: string, assertions: seq<Assertion>, caseNum: int)
    returns (status: bool, line: string)
    ensures (status, line) == ExecutionStatus(name, assertions, caseNum)
  {
    status := true;
    line := "";
    if |assertions| == 0 {
      return;
    }
    var num := 1;
    line := IntToString(caseNum) + "-" + name;
    ghost var head := line;
    for i := 0 to |assertions|
      invariant line == head + Numbered(FailedTexts(assertions[..i]), caseNum, 1)
      invariant num == |FailedTexts(assertions[..i])| + 1
      invariant status <==> FailedTexts(assertions[..i]) == []
    {
      FailedStep(assertions, i);
      if assertions[i].errorMessage.Some? {
        LineStep(head, FailedTexts(assertions[..i]), assertions[i].text, caseNum);
        line := line + CaseLine(caseNum, num, assertions[i].text);
        status := false;
        num := num + 1;
      }
    }
    assert assertions[..|assertions|] == assertions;
  }

  lemma FailedStep(assertions: seq<Assertion>, i: nat)
    requires i < |assertions|
    ensures assertions[i].errorMessage.Some? ==>
              FailedTexts(assertions[..i + 1]) == FailedTexts(assertions[..i]) + [assertions[i].text]
    ensures assertions[i].errorMessage.None? ==> FailedTexts(assertions[..i + 1]) == FailedTexts(assertions[..i])
  {
    assert assertions[..i + 1][..i] == assertions[..i];
    assert FailedTexts(assertions[..i]) + [] == FailedTexts(assertions[..i]);
  }

  lemma LineStep(head: string, before: seq<string>, text: string, caseNum: int)
    ensures head + Numbered(before, caseNum, 1) + CaseLine(caseNum, |before| + 1, text) ==
            head + Numbered(before + [text], caseNum, 1)
  {
    NumberedAppend(before, text, caseNum, 1);
  }

  lemma {:induction false} NumberedAppend(texts: seq<string>, text: string, caseNum: int, start: int)
    ensures Numbered(texts + [text], caseNum, start) ==
            Numbered(texts, caseNum, start) + CaseLine(caseNum, start + |texts|, text)
    decreases |texts|
  {
    var last := CaseLine(caseNum, start + |texts|, text);
    if texts == [] {
      assert texts + [text] == [text];
      assert Numbered([text], caseNum, start) == last + Numbered([], caseNum, start + 1);
      assert last + "" == last && "" + last == last;
    } else {
      var first := CaseLine(caseNum, start, texts[0]);
      assert (texts + [text])[1..] == texts[1..] + [text] && (texts + [text])[0] == texts[0];
      NumberedAppend(texts[1..], text, caseNum, start + 1);
      var mid := Numbered(texts[1..], caseNum, start + 1);
      assert Numbered(texts + [text], caseNum, start) == first + (mid + last);
      assert Numbered(texts, caseNum, start) == first + mid;
      AppendAssoc(first, mid, last);
    }
  }

  /** Every failed assertion `k`, in order, gets the line numbered `k + 1`:
      the lines before it, then its own, start the summary. */
  lemma {:induction false} NumberedInOrder(texts: seq<string>, caseNum: int, k: nat)
    requires k < |texts|
    ensures StartsWith(Numbered(texts, caseNum, 1),
                       Numbered(texts[..k], caseNum, 1) + CaseLine(caseNum, k + 1, texts[k]))
    decreases |texts|
  {
    var init, lastText := texts[..|texts| - 1], texts[|texts| - 1];
    assert texts == init + [lastText];
    NumberedAppend(init, lastText, caseNum, 1);
    var whole, tail := Numbered(init, caseNum, 1), CaseLine(caseNum, 1 + |init|, lastText);
    assert Numbered(texts, caseNum, 1) == whole + tail;
    if k == |texts| - 1 {
      assert texts[..k] == init;
      assert (whole + tail)[..|whole + tail|] == whole + tail;
    } else {
      NumberedInOrder(init, caseNum, k);
      assert init[..k] == texts[..k] && init[k] == texts[k];
      PrefixExtended(whole, Numbered(texts[..k], caseNum, 1) + CaseLine(caseNum, k + 1, texts[k]), tail);
    }
  }

  /** A prefix of `a` is a prefix of `a + b`. */
  lemma PrefixExtended(a: string, p: string, b: string)
    requires StartsWith(a, p)
    ensures StartsWith(a + b, p)
  {
    assert (a + b)[..|p|] == a[..|p|];
  }

  /** The failed texts are exactly the texts of the assertions that carry an
      error message, in order. */
  lemma {:induction false} FailedTextsMeaning(assertions: seq<Assertion>)
    ensures |FailedTexts(assertions)| <= |assertions|
    ensures FailedTexts(assertions) == [] <==> forall k :: 0 <= k < |assertions| ==> assertions[k].errorMessage.None?
    ensures forall k :: 0 <= k < |assertions| && assertions[k].errorMessage.Some? ==>
              assertions[k].text in FailedTexts(assertions)
  {
    if assertions != [] {
      var init := assertions[..|assertions| - 1];
      FailedTextsMeaning(init);
      assert forall k :: 0 <= k < |init| ==> init[k] == assertions[k];
    }
  }

  /** The status is true exactly when no assertion failed, and then the line
      is the bare header (or "" when there are no assertions). */
  lemma ExecutionStatusMeaning(name: string, assertions: seq<Assertion>, caseNum: int)
    ensures assertions == [] ==> ExecutionStatus(name, assertions, caseNum) == (true, "")
    ensures ExecutionStatus(name, assertions, caseNum).0 <==>
              forall k :: 0 <= k < |assertions| ==> assertions[k].errorMessage.None?
    ensures ExecutionStatus(name, assertions, caseNum).0 && assertions != [] ==>
              ExecutionStatus(name, assertions, caseNum).1 == IntToString(caseNum) + "-" + name
    ensures !ExecutionStatus(name, assertions, caseNum).0 ==>
              StartsWith(ExecutionStatus(name, assertions, caseNum).1, IntToString(caseNum) + "-" + name + CaseLine(caseNum, 1, FailedTexts(assertions)[0]))
  {
    FailedTextsMeaning(assertions);
    var head := IntToString(caseNum) + "-" + name;
    var t := FailedTexts(assertions);
    if t != [] {
      var first, rest := CaseLine(caseNum, 1, t[0]), Numbered(t[1..], caseNum, 2);
      assert Numbered(t, caseNum, 1) == first + rest;
      HeadOfJoin(head, first, rest);
    } else {
      assert Numbered(t, caseNum, 1) == "" && head + "" == head;
    }
  }

  /** `a + b` starts `a + (b + c)`. */
  lemma HeadOfJoin(a: string, b: string, c: string)
    ensures StartsWith(a + (b + c), a + b)
  {
    assert (a + (b + c))[..|a + b|] == a + b;
  }
}
