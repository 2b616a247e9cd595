/** The user rules of `apis/resources/user.py`: the Redmine role and token
    lifetime chosen from a role, the password-change checker, the login name
    and password rules of user creation, and the per-server password status
    list. Regular expressions are written out as predicates over ASCII
    characters. */
module User {
  import opened Wrappers
  import opened Strs
  import Role

  // ---------------------------------------------------------------------
  // to_redmine_role_id, get_token_expires
  // ---------------------------------------------------------------------

  /** `to_redmine_role_id`: Redmine role 3 for an engineer, 4 for everybody else. */
  function ToRedmineRoleId(roleId: int): (r: int)
    ensures r == 3 <==> roleId == Role.Rd.id
    ensures r == 4 <==> roleId != Role.Rd.id
  {
    if roleId == Role.Rd.id then 3
    else if roleId == Role.Pm.id then 4
    else if roleId == Role.Admin.id then 4
    else if roleId == Role.Bot.id then 4
    else 4
  }

  /** `get_token_expires`, in days: an administrator's token lives 36500
      days, everybody else's one day. */
  function GetTokenExpires(roleId: int): (days: int)
    ensures days == 36500 <==> roleId == Role.Admin.id
    ensures days == 1 <==> roleId != Role.Admin.id
  {
    var expires := 1;
    if roleId == 5 then 36500 else expires
  }

  // ---------------------------------------------------------------------
  // checker
  // ---------------------------------------------------------------------

  /** The k-th letter of `string.ascii_uppercase` / `string.ascii_lowercase`. */
  function UpperAt(k: nat): (c: char)
    requires k < 26
    ensures IsUpper(c)
  {
    (('A' as int) + k) as char
  }

  function LowerAt(k: nat): (c: char)
    requires k < 26
    ensures IsLower(c)
  {
    (('a' as int) + k) as char
  }

  /** Three `c` in a row start at `p`. */
  predicate RunAt(s: string, c: char, p: nat) {
    p + 3 <= |s| && s[p] == c && s[p + 1] == c && s[p + 2] == c
  }

  /** `re.search("c{3,}", s)`. */
  predicate HasRun(s: string, c: char) {
    exists p :: 0 <= p < |s| && RunAt(s, c, p)
  }

  predicate LetterBefore(s: string, c: char, p: nat) {
    p + 1 < |s| && IsLetter(s[p]) && RunAt(s, c, p + 1)
  }

  predicate LetterAfter(s: string, c: char, p: nat) {
    RunAt(s, c, p) && p + 3 < |s| && IsLetter(s[p + 3])
  }

  /** `re.search("[A-Za-z]c{3,}", s) or re.search("c{3,}[A-Za-z]", s)`: the
      neighbouring letter may be a fourth `c`. */
  predicate LetterRun(s: string, c: char) {
    exists p :: 0 <= p < |s| && (LetterBefore(s, c, p) || LetterAfter(s, c, p))
  }

  const NoUpperMessage := "password didn't contain uppercase letter"
  const UpperMessage := "check pass"
  const RunMessage := "exist only 3 continuouslly letter"
  const ShortMessage := "password less than nine word"
  const SameMessage := "new password same as old password"

  /** Some letter of `string.ascii_uppercase` occurs in `s`. */
  predicate HasUpper(s: string) {
    exists k :: 0 <= k < 26 && UpperAt(k) in s
  }

  /** The continuity value the lowercase loop leaves after letters `0..n`:
      the verdict on the last of them that occurs three times in a row. */
  function LowerRun(s: string, n: nat): Option<bool>
    requires n <= 26
  {
    if n == 0 then None
    else if HasRun(s, LowerAt(n - 1)) then Some(LetterRun(s, LowerAt(n - 1)))
    else LowerRun(s, n - 1)
  }

  /** The lowercase loop sets the run message for some letter among `0..n`. */
  predicate LowerMessage(s: string, n: nat)
    requires n <= 26
  {
    exists k :: 0 <= k < n && HasRun(s, LowerAt(k)) && !LetterRun(s, LowerAt(k))
  }

  /** The uppercase loop sets the run message before it breaks. */
  predicate UpperMessageSet(s: string) {
    exists k :: 0 <= k < 26 && HasRun(s, UpperAt(k)) && !LetterRun(s, UpperAt(k)) &&
                forall j :: 0 <= j < k ==> !LetterRun(s, UpperAt(j))
  }

  /** The "continuouslly_check" entry: absent (`None`) unless some letter
      occurs three times in a row; an uppercase letter decides before a
      lowercase one. */
  function Continuity(s: string): Option<bool> {
    if exists k :: 0 <= k < 26 && LetterRun(s, UpperAt(k)) then Some(true)
    else if exists k :: 0 <= k < 26 && HasRun(s, UpperAt(k)) then Some(false)
    else LowerRun(s, 26)
  }

  /** The message `checker` returns: the last check that failed, else the
      uppercase verdict. */
  function CheckerMessage(newPwd: string, oldPwd: string): string {
    if newPwd == oldPwd then SameMessage
    else if |newPwd| < 8 then ShortMessage
    else if LowerMessage(newPwd, 26) || UpperMessageSet(newPwd) then RunMessage
    else if HasUpper(newPwd) then UpperMessage
    else NoUpperMessage
  }

  /** The verdict of `checker`: every entry of `valid_dict` is true. */
  predicate CheckerValid(newPwd: string, oldPwd: string) {
    HasUpper(newPwd) && Continuity(newPwd) != Some(false) && |newPwd| >= 8 && newPwd != oldPwd
  }

  /** The uppercase loop: the first uppercase letter found ends it. */
  method CheckUppercase(s: string) returns (upper: bool, msg: string)
    ensures upper <==> HasUpper(s)
    ensures msg == if upper then UpperMessage else NoUpperMessage
  {
    upper := false;
    msg := "check";
    var k := 0;
    while k < 26
      invariant 0 <= k <= 26
      invariant forall j :: 0 <= j < k ==> UpperAt(j) !in s
      invariant !upper && (k > 0 ==> msg == NoUpperMessage)
    {
      if UpperAt(k) in s {
        upper := true;
        msg := UpperMessage;
        break;
      }
      upper := false;
      msg := NoUpperMessage;
      k := k + 1;
    }
  }

  /** The lowercase loop: every letter with a run overwrites the verdict. */
  method CheckLowerRuns(s: string, msg0: string) returns (cont: Option<bool>, msg: string)
    ensures cont == LowerRun(s, 26)
    ensures msg == if LowerMessage(s, 26) then RunMessage else msg0
  {
    cont := None;
    msg := msg0;
    for k := 0 to 26
      invariant cont == LowerRun(s, k)
      invariant msg == if LowerMessage(s, k) then RunMessage else msg0
    {
      var c := LowerAt(k);
      if HasRun(s, c) {
        if LetterRun(s, c) {
          cont := Some(true);
        } else {
          cont := Some(false);
          msg := RunMessage;
        }
      }
      assert LowerMessage(s, k + 1) <==> LowerMessage(s, k) || (HasRun(s, c) && !LetterRun(s, c));
    }
  }

  /** The uppercase run loop: the first letter-adjacent run ends it. */
  method CheckUpperRuns(s: string, cont0: Option<bool>, msg0: string) returns (cont: Option<bool>, msg: string)
    ensures cont == if exists k :: 0 <= k < 26 && LetterRun(s, UpperAt(k)) then Some(true)
                    else if exists k :: 0 <= k < 26 && HasRun(s, UpperAt(k)) then Some(false)
                    else cont0
    ensures msg == if UpperMessageSet(s) then RunMessage else msg0
  {
    cont := cont0;
    msg := msg0;
    var k := 0;
    while k < 26
      invariant 0 <= k <= 26
      invariant forall j :: 0 <= j < k ==> !LetterRun(s, UpperAt(j))
      invariant cont == if exists j :: 0 <= j < k && HasRun(s, UpperAt(j)) then Some(false) else cont0
      invariant msg == if exists j :: 0 <= j < k && HasRun(s, UpperAt(j)) && !LetterRun(s, UpperAt(j))
                       then RunMessage else msg0
    {
      var c := UpperAt(k);
      if HasRun(s, c) {
        if LetterRun(s, c) {
          cont := Some(true);
          assert UpperMessageSet(s) <==> exists j :: 0 <= j < k && HasRun(s, UpperAt(j)) && !LetterRun(s, UpperAt(j));
          return;
        } else {
          cont := Some(false);
          msg := RunMessage;
        }
      }
      k := k + 1;
    }
  }

  /** `all(valid_dict.values())`, scanning the entries in insertion order. */
  method AllPass(checks: seq<(string, bool)>) returns (valid: bool)
    ensures valid <==> forall k :: 0 <= k < |checks| ==> checks[k].1
  {
    valid := true;
    for k := 0 to |checks|
      invariant valid <==> forall j :: 0 <= j < k ==> checks[j].1
    {
      if !checks[k].1 {
        valid := false;
        return;
      }
      valid := true;
    }
  }

  /** `checker`: the verdict, the message and the entries of `valid_dict`
      in insertion order. */
  method Checker(newPwd: string, oldPwd: string) returns (valid: bool, msg: string, checks: seq<(string, bool)>)
    ensures valid <==> CheckerValid(newPwd, oldPwd)
    ensures msg == CheckerMessage(newPwd, oldPwd)
    ensures Continuity(newPwd).None? ==>
              checks == [("uppercase_check", HasUpper(newPwd)), ("nine_word_check", |newPwd| >= 8),
                         ("same_password_check", newPwd != oldPwd)]
    ensures Continuity(newPwd).Some? ==>
              checks == [("uppercase_check", HasUpper(newPwd)), ("continuouslly_check", Continuity(newPwd).value),
                         ("nine_word_check", |newPwd| >= 8), ("same_password_check", newPwd != oldPwd)]
  {
    var upper, msg1 := CheckUppercase(newPwd);
    var lower, msg2 := CheckLowerRuns(newPwd, msg1);
    var cont, msg3 := CheckUpperRuns(newPwd, lower, msg2);
    assert cont == Continuity(newPwd);
    msg := msg3;
    checks := [("uppercase_check", upper)];
    if cont.Some? {
      checks := checks + [("continuouslly_check", cont.value)];
    }
    var nine := |newPwd| >= 8;
    if !nine {
      msg := ShortMessage;
    }
    checks := checks + [("nine_word_check", nine)];
    var same := newPwd != oldPwd;
    if !same {
      msg := SameMessage;
    }
    checks := checks + [("same_password_check", same)];
    valid := AllPass(checks);
    AllPassCases(checks, upper, cont, nine, same);
  }

  /** The entries of `valid_dict` are all true exactly when each check passed. */
  lemma AllPassCases(checks: seq<(string, bool)>, upper: bool, cont: Option<bool>, nine: bool, same: bool)
    requires cont.None? ==> checks == [("uppercase_check", upper), ("nine_word_check", nine), ("same_password_check", same)]
    requires cont.Some? ==> checks == [("uppercase_check", upper), ("continuouslly_check", cont.value),
                                       ("nine_word_check", nine), ("same_password_check", same)]
    ensures (forall k :: 0 <= k < |checks| ==> checks[k].1) <==> upper && cont != Some(false) && nine && same
  {
    if cont.None? {
      assert checks[0].1 == upper && checks[1].1 == nine && checks[2].1 == same;
    } else {
      assert checks[0].1 == upper && checks[1].1 == cont.value && checks[2].1 == nine && checks[3].1 == same;
    }
  }

  lemma UpperIndex(c: char)
    requires IsUpper(c)
    ensures 0 <= c as int - 'A' as int < 26 && UpperAt(c as int - 'A' as int) == c
  {
  }

  lemma LowerIndex(c: char)
    requires IsLower(c)
    ensures 0 <= c as int - 'a' as int < 26 && LowerAt(c as int - 'a' as int) == c
  {
  }

  lemma {:induction false} LowerRunNone(s: string, n: nat)
    requires n <= 26
    ensures LowerRun(s, n).None? <==> forall k :: 0 <= k < n ==> !HasRun(s, LowerAt(k))
  {
    if n > 0 {
      LowerRunNone(s, n - 1);
    }
  }

  lemma LetterRunHasRun(s: string, c: char)
    requires LetterRun(s, c)
    ensures HasRun(s, c)
  {
    var p :| 0 <= p < |s| && (LetterBefore(s, c, p) || LetterAfter(s, c, p));
    if LetterBefore(s, c, p) {
      assert RunAt(s, c, p + 1);
    }
  }

  /** `checker` leaves "continuouslly_check" out exactly when no letter
      occurs three times in a row. */
  lemma ContinuityAbsent(s: string)
    ensures Continuity(s).None? <==> forall c :: IsLetter(c) ==> !HasRun(s, c)
  {
    LowerRunNone(s, 26);
    if Continuity(s).None? {
      forall c | IsLetter(c) ensures !HasRun(s, c) {
        if IsUpper(c) {
          UpperIndex(c);
        } else {
          LowerIndex(c);
        }
      }
    } else if exists k :: 0 <= k < 26 && LetterRun(s, UpperAt(k)) {
      var k :| 0 <= k < 26 && LetterRun(s, UpperAt(k));
      LetterRunHasRun(s, UpperAt(k));
      assert IsLetter(UpperAt(k));
    } else if exists k :: 0 <= k < 26 && HasRun(s, UpperAt(k)) {
      var k :| 0 <= k < 26 && HasRun(s, UpperAt(k));
      assert IsLetter(UpperAt(k));
    } else {
      var k :| 0 <= k < 26 && HasRun(s, LowerAt(k));
      assert IsLetter(LowerAt(k));
    }
  }

  /** The continuity check fails only for a run of exactly three identical
      letters with no letter on either side: a run of four passes, since
      the neighbour may be the letter itself. */
  lemma ContinuityExamples()
    ensures Continuity("Ab-aaa-1x") == Some(false) && !CheckerValid("Ab-aaa-1x", "")
    ensures LetterRun("aaaa", 'a')
  {
    IsolatedRun("Ab-aaa-1x");
    assert LetterAfter("aaaa", 'a', 0);
  }

  /** In "Ab-aaa-1x" the only run is the isolated "aaa". */
  lemma IsolatedRun(s: string)
    requires s == "Ab-aaa-1x"
    ensures Continuity(s) == Some(false)
  {
    assert RunAt(s, 'a', 3);
    forall c | c != 'a' ensures !HasRun(s, c) {
    }
    assert !LetterRun(s, 'a') by {
      forall p | 0 <= p < |s| ensures !LetterBefore(s, 'a', p) && !LetterAfter(s, 'a', p) {
        if RunAt(s, 'a', p + 1) { assert p + 1 == 3; }
        if RunAt(s, 'a', p) { assert p == 3; }
      }
    }
    assert forall k :: 0 <= k < 26 ==> UpperAt(k) != 'a';
    LowerRunFirst(s, 26);
  }

  /** When only 'a' has a run, the lowercase loop's verdict is the one on 'a'. */
  lemma {:induction false} LowerRunFirst(s: string, n: nat)
    requires 0 < n <= 26
    requires forall c :: c != 'a' ==> !HasRun(s, c)
    requires HasRun(s, 'a')
    ensures LowerRun(s, n) == Some(LetterRun(s, 'a'))
  {
    if n > 1 {
      assert LowerAt(n - 1) != 'a';
      LowerRunFirst(s, n - 1);
    }
  }

  /** A password of exactly eight characters passes although the message
      speaks of nine. */
  lemma EightCharactersPass()
    ensures CheckerValid("Abcdefg1", "")
  {
    var s := "Abcdefg1";
    assert UpperAt(0) in s;
    forall c | IsLetter(c) ensures !HasRun(s, c) {
    }
    ContinuityAbsent(s);
  }

  // ---------------------------------------------------------------------
  // create_user checks
  // ---------------------------------------------------------------------

  /** `[a-zA-Z0-9_.-]`. */
  predicate LoginMiddleChar(c: char) {
    IsAlnum(c) || c == '_' || c == '.' || c == '-'
  }

  /** `re.fullmatch(r"^[a-zA-Z0-9][a-zA-Z0-9_.-]{0,58}[a-zA-Z0-9]$", s)`. */
  predicate LoginNameValid(s: string) {
    2 <= |s| <= 60 && IsAlnum(s[0]) && IsAlnum(s[|s| - 1]) &&
    forall i :: 0 < i < |s| - 1 ==> LoginMiddleChar(s[i])
  }

  /** The character class of the password pattern: `\w` and the listed
      punctuation. */
  predicate PasswordChar(c: char) {
    IsAlnum(c) || c == '_' || c in "!@#$%^&*()+|{}[]`~-'\";:/?.\\>,<"
  }

  /** The password pattern: 8 to 20 allowed characters with at least one
      digit, one lowercase and one uppercase letter. */
  predicate PasswordValid(s: string) {
    8 <= |s| <= 20 && (forall i :: 0 <= i < |s| ==> PasswordChar(s[i])) &&
    (exists i :: 0 <= i < |s| && IsDigit(s[i])) &&
    (exists i :: 0 <= i < |s| && IsLower(s[i])) &&
    (exists i :: 0 <= i < |s| && IsUpper(s[i]))
  }

  /** The exception `create_user` raises for a refused name or password. */
  const CreateUserError := DevOps(400, "Error when creating new user")

  /** The `error=` detail that comes with `CreateUserError`: code 2002,
      `invalid_user_name`, naming the refused login, or code 2003,
      `invalid_user_password`. */
  datatype UserRefusal = NameRefused(name: string) | PasswordRefused

  /** The rule `create_user` applies to the requested name, then to the
      password unless the account comes from AD: `None` when both pass,
      otherwise the detail of the `CreateUserError` raised. */
  function CreateUserCheck(login: string, password: string, fromAd: bool): (r: Option<UserRefusal>)
    ensures r.None? <==> LoginNameValid(login) && (fromAd || PasswordValid(password))
    ensures r == Some(NameRefused(login)) <==> !LoginNameValid(login)
    ensures r == Some(PasswordRefused) <==> LoginNameValid(login) && !fromAd && !PasswordValid(password)
    ensures fromAd ==> (r.None? <==> LoginNameValid(login))
  {
    var needPasswordCheck := !fromAd;
    if !LoginNameValid(login) then Some(NameRefused(login))
    else if needPasswordCheck && !PasswordValid(password) then Some(PasswordRefused)
    else None
  }

  /** A two-character alphanumeric name and a password with a digit, a
      lowercase and an uppercase letter pass. */
  lemma CreateUserAccepts()
    ensures CreateUserCheck("ab", "Passw0rd", false) == None
  {
    assert IsDigit("Passw0rd"[5]) && IsLower("Passw0rd"[1]) && IsUpper("Passw0rd"[0]);
  }

  /** One character, or a name ending in '_', is refused. */
  lemma CreateUserRefusesNames()
    ensures CreateUserCheck("a", "Passw0rd", false) == Some(NameRefused("a"))
    ensures CreateUserCheck("a_", "Passw0rd", false) == Some(NameRefused("a_"))
  {
  }

  /** A password without an uppercase letter is refused unless the account
      comes from AD. */
  lemma CreateUserNeedsUpper()
    ensures CreateUserCheck("ab", "password1", false) == Some(PasswordRefused)
    ensures CreateUserCheck("ab", "password1", true) == None
  {
    assert forall i :: 0 <= i < |"password1"| ==> !IsUpper("password1"[i]);
  }

  /** A space is not an allowed password character. */
  lemma CreateUserRefusesSpace()
    ensures CreateUserCheck("ab", "Pass w0rd", false) == Some(PasswordRefused)
  {
    assert !PasswordChar("Pass w0rd"[4]);
  }

  // ---------------------------------------------------------------------
  // get_decode_password
  // ---------------------------------------------------------------------

  /** A stored update_password_error row; `password` is the already decoded
      text (base 64 is not modelled). */
  datatype PasswordRow = PasswordRow(server: string, password: string)

  /** One entry of the returned list: status 0 with the password for a stored
      row, status 1 without one for a server that has none. */
  datatype ServerStatus = ServerStatus(server: string, status: int, password: Option<string>)

  const Servers := ["redmine", "gitlab", "harbor", "sonarqube"]

  /** Some stored row belongs to server `x`. */
  predicate Stored(rows: seq<PasswordRow>, x: string) {
    exists k :: 0 <= k < |rows| && rows[k].server == x
  }

  /** The servers of `servers` without a stored row, in order. */
  function Missing(rows: seq<PasswordRow>, servers: seq<string>): (r: seq<string>)
    ensures forall x :: x in r <==> x in servers && !Stored(rows, x)
  {
    if servers == [] then []
    else
      var init := Missing(rows, servers[..|servers| - 1]);
      var x := servers[|servers| - 1];
      assert servers == servers[..|servers| - 1] + [x];
      if Stored(rows, x) then init else init + [x]
  }

  /** A list that holds the stored rows' servers and then the missing ones
      names every server. */
  lemma EveryServerReported(rows: seq<PasswordRow>, servers: seq<string>, ret: seq<ServerStatus>)
    requires |ret| == |rows| + |Missing(rows, servers)|
    requires forall k :: 0 <= k < |rows| ==> ret[k].server == rows[k].server
    requires forall k :: 0 <= k < |Missing(rows, servers)| ==> ret[|rows| + k].server == Missing(rows, servers)[k]
    ensures forall x :: x in servers ==> exists k :: 0 <= k < |ret| && ret[k].server == x
  {
    forall x | x in servers ensures exists k :: 0 <= k < |ret| && ret[k].server == x {
      if Stored(rows, x) {
        var k :| 0 <= k < |rows| && rows[k].server == x;
        assert ret[k].server == x;
      } else {
        var m := Missing(rows, servers);
        assert x in m;
        var j :| 0 <= j < |m| && m[j] == x;
        assert ret[|rows| + j].server == x;
      }
    }
  }

  /** `get_decode_password`: one status-0 entry per stored row, in order,
      then a status-1 entry for each of the four servers that has none, so
      every server is reported. */
  method GetDecodePassword(rows: seq<PasswordRow>) returns (ret: seq<ServerStatus>)
    ensures |ret| == |rows| + |Missing(rows, Servers)|
    ensures forall k :: 0 <= k < |rows| ==> ret[k] == ServerStatus(rows[k].server, 0, Some(rows[k].password))
    ensures forall k :: 0 <= k < |Missing(rows, Servers)| ==>
              ret[|rows| + k] == ServerStatus(Missing(rows, Servers)[k], 1, None)
    ensures forall x :: x in Servers ==> exists k :: 0 <= k < |ret| && ret[k].server == x
  {
    ret := [];
    for k := 0 to |rows|
      invariant |ret| == k
      invariant forall j :: 0 <= j < k ==> ret[j] == ServerStatus(rows[j].server, 0, Some(rows[j].password))
    {
      ret := ret + [ServerStatus(rows[k].server, 0, Some(rows[k].password))];
    }
    var serverList := set j | 0 <= j < |ret| :: ret[j].server;
    assert forall x :: x in serverList <==> Stored(rows, x);
    for k := 0 to |Servers|
      invariant |ret| == |rows| + |Missing(rows, Servers[..k])|
      invariant forall j :: 0 <= j < |rows| ==> ret[j] == ServerStatus(rows[j].server, 0, Some(rows[j].password))
      invariant forall j :: 0 <= j < |Missing(rows, Servers[..k])| ==>
                  ret[|rows| + j] == ServerStatus(Missing(rows, Servers[..k])[j], 1, None)
    {
      assert Servers[..k + 1][..k] == Servers[..k];
      if Servers[k] !in serverList {
        ret := ret + [ServerStatus(Servers[k], 1, None)];
      }
    }
    assert Servers[..|Servers|] == Servers;
    EveryServerReported(rows, Servers, ret);
  }
}
