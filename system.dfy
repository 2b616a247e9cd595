/** The merge-permission test of `apis/resources/system.py` that decides who
    is notified about an open merge request. */
module System {
  import opened Wrappers

  /** A GitLab protected branch and its merge access levels. */
  datatype ProtectedBranch = ProtectedBranch(name: string, mergeAccessLevels: seq<int>)

  /** The scan as a value: the first protected branch named like the target
      whose first merge level the member reaches decides; a matching branch
      without levels raises IndexError. */
  function MergeScan(accessLevel: int, targetBranch: string, branches: seq<ProtectedBranch>): (r: Result<bool>)
    ensures (forall k :: 0 <= k < |branches| ==> branches[k].name != targetBranch) ==> r == Ok(false)
    ensures r == Ok(true) ==> exists k :: 0 <= k < |branches| && Allows(branches[k], accessLevel, targetBranch)
  {
    if branches == [] then Ok(false)
    else if branches[0].name == targetBranch then
      if branches[0].mergeAccessLevels == [] then Err(Crash("list index out of range"))
      else if accessLevel >= branches[0].mergeAccessLevels[0] then Ok(true)
      else MergeScan(accessLevel, targetBranch, branches[1..])
    else MergeScan(accessLevel, targetBranch, branches[1..])
  }

  /** `verify_user_can_merge_into_this_branch`. */
  method VerifyUserCanMerge(accessLevel: int, targetBranch: string, branches: seq<ProtectedBranch>)
    returns (r: Result<bool>)
    ensures branches == [] ==> r == Ok(true)
    ensures branches != [] ==> r == MergeScan(accessLevel, targetBranch, branches)
  {
    if |branches| > 0 {
      for i := 0 to |branches|
        invariant MergeScan(accessLevel, targetBranch, branches) == MergeScan(accessLevel, targetBranch, branches[i..])
      {
        assert branches[i..][1..] == branches[i + 1..];
        var b := branches[i];
        if b.name == targetBranch {
          if b.mergeAccessLevels == [] {
            return Err(Crash("list index out of range"));
          }
          if accessLevel >= b.mergeAccessLevels[0] {
            return Ok(true);
          }
        }
      }
      return Ok(false);
    }
    return Ok(true);
  }

  predicate Allows(b: ProtectedBranch, accessLevel: int, targetBranch: string) {
    b.name == targetBranch && b.mergeAccessLevels != [] && accessLevel >= b.mergeAccessLevels[0]
  }

  /** The scan allows the merge exactly when some branch named like the
      target admits the member and no earlier such branch lacks levels; it
      raises exactly when such a branch without levels comes first. */
  lemma {:induction false} MergeScanMeaning(accessLevel: int, targetBranch: string, branches: seq<ProtectedBranch>)
    ensures MergeScan(accessLevel, targetBranch, branches) == Ok(true) <==>
              exists k :: 0 <= k < |branches| && Allows(branches[k], accessLevel, targetBranch) &&
                forall j :: 0 <= j < k && branches[j].name == targetBranch ==> branches[j].mergeAccessLevels != []
    ensures (forall k :: 0 <= k < |branches| ==> branches[k].name != targetBranch) ==>
              MergeScan(accessLevel, targetBranch, branches) == Ok(false)
    decreases |branches|
  {
    if branches != [] {
      var t := branches[1..];
      MergeScanMeaning(accessLevel, targetBranch, t);
      assert forall k :: 0 <= k < |t| ==> t[k] == branches[k + 1];
      if branches[0].name == targetBranch && branches[0].mergeAccessLevels != [] &&
         accessLevel < branches[0].mergeAccessLevels[0] {
        if MergeScan(accessLevel, targetBranch, t) == Ok(true) {
          var k :| 0 <= k < |t| && Allows(t[k], accessLevel, targetBranch) &&
                   forall j :: 0 <= j < k && t[j].name == targetBranch ==> t[j].mergeAccessLevels != [];
          assert Allows(branches[k + 1], accessLevel, targetBranch);
        }
      }
      if branches[0].name != targetBranch && MergeScan(accessLevel, targetBranch, t) == Ok(true) {
        var k :| 0 <= k < |t| && Allows(t[k], accessLevel, targetBranch) &&
                 forall j :: 0 <= j < k && t[j].name == targetBranch ==> t[j].mergeAccessLevels != [];
        assert Allows(branches[k + 1], accessLevel, targetBranch);
      }
    }
  }

  /** As written, once any branch is protected a merge into a branch that is
      not protected is refused. */
  lemma UnprotectedTargetRefused(accessLevel: int, targetBranch: string, branches: seq<ProtectedBranch>)
    requires branches != [] && forall k :: 0 <= k < |branches| ==> branches[k].name != targetBranch
    ensures MergeScan(accessLevel, targetBranch, branches) == Ok(false)
  {
    MergeScanMeaning(accessLevel, targetBranch, branches);
  }

  /** A higher access level never loses a permission a lower one has. */
  lemma {:induction false} MergeScanMonotone(low: int, high: int, targetBranch: string, branches: seq<ProtectedBranch>)
    requires low <= high && MergeScan(low, targetBranch, branches) == Ok(true)
    ensures MergeScan(high, targetBranch, branches) == Ok(true)
    decreases |branches|
  {
    if branches != [] && !(branches[0].name == targetBranch && high >= branches[0].mergeAccessLevels[0]) {
      MergeScanMonotone(low, high, targetBranch, branches[1..]);
    }
  }
}
