/** The schema migration driver of `apis/migrate/__init__.py`: the list of
    migration versions, the version order, the per-version upgrade action and
    the loop that brings the recorded api version up to date. */
module Migrate {
  import opened Wrappers
  import opened Strs

  /** The version `current_version` reports for a server without a record. */
  const FRESH_SERVER_VERSION := "1.22.9.9"

  // ---------------------------------------------------------------------
  // needs_upgrade
  // ---------------------------------------------------------------------

  /** What `needs_upgrade`'s loop returns from component `i` on: it reads the
      target's component and then the current one, each through `int()`, and
      decides on the first difference; four equal components give false. */
  function NeededFrom(r: seq<string>, c: seq<string>, i: nat): (res: Result<bool>)
    requires i <= 4
    decreases 4 - i
  {
    if i == 4 then Ok(false)
    else if i >= |c| then Err(Crash("list index out of range"))
    else match ParseInt(c[i])
      case None => Err(ValueErr("invalid literal for int() with base 10"))
      case Some(cv) =>
        if i >= |r| then Err(Crash("list index out of range"))
        else match ParseInt(r[i])
          case None => Err(ValueErr("invalid literal for int() with base 10"))
          case Some(rv) =>
            if cv > rv then Ok(true) else if cv < rv then Ok(false) else NeededFrom(r, c, i + 1)
  }

  /** The first dotted component is there and is an integer. */
  predicate ParsesFirst(parts: seq<string>) {
    |parts| > 0 && ParseInt(parts[0]).Some?
  }

  /** Whether `target` is newer than `current`, as `needs_upgrade` decides it. */
  function UpgradeNeeded(current: string, target: string): (r: Result<bool>)
    ensures r.Ok? ==> ParsesFirst(Split(target, ".")) && ParsesFirst(Split(current, "."))
  {
    NeededFrom(Split(current, "."), Split(target, "."), 0)
  }

  /** `needs_upgrade`: its loop over the four components. */
  method NeedsUpgrade(current: string, target: string) returns (res: Result<bool>)
    ensures res == UpgradeNeeded(current, target)
  {
    var r := Split(current, ".");
    var c := Split(target, ".");
    for i := 0 to 4
      invariant NeededFrom(r, c, i) == NeededFrom(r, c, 0)
    {
      if i >= |c| {
        return Err(Crash("list index out of range"));
      }
      var cv := ParseInt(c[i]);
      if cv.None? {
        return Err(ValueErr("invalid literal for int() with base 10"));
      }
      if i >= |r| {
        return Err(Crash("list index out of range"));
      }
      var rv := ParseInt(r[i]);
      if rv.None? {
        return Err(ValueErr("invalid literal for int() with base 10"));
      }
      if cv.value > rv.value {
        assert NeededFrom(r, c, i) == Ok(true);
        return Ok(true);
      } else if cv.value < rv.value {
        assert NeededFrom(r, c, i) == Ok(false);
        return Ok(false);
      }
      assert NeededFrom(r, c, i) == NeededFrom(r, c, i + 1);
    }
    return Ok(false);
  }

  /** A four-part version number. */
  datatype Version = Version(major: nat, minor: nat, patch: nat, build: nat)

  function Part(v: Version, i: nat): nat
    requires i < 4
  {
    if i == 0 then v.major else if i == 1 then v.minor else if i == 2 then v.patch else v.build
  }

  /** Strict lexicographic order of the four parts from part `i` on. */
  predicate NewerFrom(c: Version, r: Version, i: nat)
    requires i <= 4
    decreases 4 - i
  {
    i < 4 && (Part(c, i) > Part(r, i) || (Part(c, i) == Part(r, i) && NewerFrom(c, r, i + 1)))
  }

  /** `c` is a strictly later version than `r`. */
  predicate Newer(c: Version, r: Version) {
    NewerFrom(c, r, 0)
  }

  /** `v` splits on '.' into at least four parts whose first four read as `ver`. */
  predicate ParsesAs(v: string, ver: Version) {
    var parts := Split(v, ".");
    |parts| >= 4 && forall i :: 0 <= i < 4 ==> ParseInt(parts[i]) == Some(Part(ver, i) as int)
  }

  lemma {:induction false} NeededFromOrder(r: seq<string>, c: seq<string>, rv: Version, cv: Version, i: nat)
    requires |r| >= 4 && |c| >= 4 && i <= 4
    requires forall k :: 0 <= k < 4 ==> ParseInt(r[k]) == Some(Part(rv, k) as int) && ParseInt(c[k]) == Some(Part(cv, k) as int)
    ensures NeededFrom(r, c, i) == Ok(NewerFrom(cv, rv, i))
    decreases 4 - i
  {
    if i < 4 && Part(cv, i) == Part(rv, i) {
      NeededFromOrder(r, c, rv, cv, i + 1);
    }
  }

  /** On versions that parse, an upgrade is needed exactly when the target is
      lexicographically greater in its first four components. */
  lemma UpgradeNeededOrder(current: string, target: string, cv: Version, tv: Version)
    requires ParsesAs(current, cv) && ParsesAs(target, tv)
    ensures UpgradeNeeded(current, target) == Ok(Newer(tv, cv))
  {
    NeededFromOrder(Split(current, "."), Split(target, "."), cv, tv, 0);
  }

  lemma {:induction false} NeededFromIrreflexive(r: seq<string>, i: nat)
    requires i <= 4
    ensures NeededFrom(r, r, i) != Ok(true)
    decreases 4 - i
  {
    if i < 4 && i < |r| && ParseInt(r[i]).Some? {
      NeededFromIrreflexive(r, i + 1);
    }
  }

  /** No version needs an upgrade to itself, whatever the string. */
  lemma UpgradeIrreflexive(v: string)
    ensures UpgradeNeeded(v, v) != Ok(true)
  {
    NeededFromIrreflexive(Split(v, "."), 0);
  }

  lemma {:induction false} NeededFromAsymmetric(r: seq<string>, c: seq<string>, i: nat)
    requires i <= 4
    requires NeededFrom(r, c, i) == Ok(true)
    ensures NeededFrom(c, r, i) == Ok(false)
    decreases 4 - i
  {
    if ParseInt(c[i]).value == ParseInt(r[i]).value {
      NeededFromAsymmetric(r, c, i + 1);
    }
  }

  /** When `b` is newer than `a`, `a` is not newer than `b`, whatever the strings. */
  lemma UpgradeAsymmetric(a: string, b: string)
    requires UpgradeNeeded(a, b) == Ok(true)
    ensures UpgradeNeeded(b, a) == Ok(false)
  {
    NeededFromAsymmetric(Split(a, "."), Split(b, "."), 0);
  }

  lemma {:induction false} NewerTransitive(a: Version, b: Version, c: Version, i: nat)
    requires i <= 4
    requires NewerFrom(b, a, i) && NewerFrom(c, b, i)
    ensures NewerFrom(c, a, i)
    decreases 4 - i
  {
    if Part(a, i) == Part(b, i) && Part(b, i) == Part(c, i) {
      NewerTransitive(a, b, c, i + 1);
    }
  }

  // ---------------------------------------------------------------------
  // The version lists
  // ---------------------------------------------------------------------

  /** The dotted text of a version, "1.22.0.1" for Version(1, 22, 0, 1). */
  function VersionText(v: Version): string {
    NatToString(v.major) + "." + NatToString(v.minor) + "." + NatToString(v.patch) + "." + NatToString(v.build)
  }

  /** The dotted texts of a list of versions. */
  function Texts(ns: seq<Version>): (r: seq<string>)
    ensures |r| == |ns|
    ensures forall i :: 0 <= i < |ns| ==> r[i] == VersionText(ns[i])
  {
    if ns == [] then [] else [VersionText(ns[0])] + Texts(ns[1..])
  }

  /** The migration versions, oldest first. */
  const VersionList: seq<Version> := [
    Version(1, 22, 0, 1), Version(1, 22, 0, 2), Version(1, 22, 0, 3), Version(1, 22, 0, 4),
    Version(1, 22, 0, 5), Version(1, 23, 0, 1), Version(1, 23, 0, 2), Version(1, 24, 0, 1),
    Version(1, 24, 0, 2), Version(1, 25, 0, 1), Version(1, 25, 0, 3), Version(1, 25, 0, 4),
    Version(1, 25, 0, 5), Version(1, 25, 0, 6), Version(1, 25, 0, 7), Version(1, 26, 0, 1),
    Version(1, 26, 0, 2)
  ]

  /** The versions whose migration is an alembic schema upgrade only. */
  const OnlyDbList: seq<Version> := [
    Version(1, 22, 0, 1), Version(1, 22, 0, 2), Version(1, 22, 0, 3), Version(1, 23, 0, 2),
    Version(1, 24, 0, 1), Version(1, 24, 0, 2), Version(1, 25, 0, 3), Version(1, 25, 0, 4),
    Version(1, 25, 0, 5), Version(1, 25, 0, 6), Version(1, 25, 0, 7), Version(1, 26, 0, 1)
  ]

  /** VERSIONS, "1.22.0.1" to "1.26.0.2". */
  const VERSIONS: seq<string> := Texts(VersionList)

  /** ONLY_UPDATE_DB_MODELS. */
  const ONLY_UPDATE_DB_MODELS: seq<string> := Texts(OnlyDbList)

  lemma Join4(p: seq<string>, sep: string)
    requires |p| == 4
    ensures Join(p, sep) == p[0] + sep + p[1] + sep + p[2] + sep + p[3]
  {
    assert p[1..][1..] == p[2..];
    assert p[2..][1..] == p[3..];
    assert Join(p[2..], sep) == p[2] + sep + p[3];
    assert Join(p[1..], sep) == p[1] + sep + (p[2] + sep + p[3]);
  }

  /** The dotted text of a version parses back to it. */
  lemma VersionTextParses(v: Version)
    ensures ParsesAs(VersionText(v), v)
  {
    var parts := [NatToString(v.major), NatToString(v.minor), NatToString(v.patch), NatToString(v.build)];
    forall k | 0 <= k < 4 ensures '.' !in parts[k] && ParseInt(parts[k]) == Some(Part(v, k) as int) {
      ParseIntOfNatToString(Part(v, k));
    }
    Join4(parts, ".");
    SplitJoin(parts, '.');
  }

  /** Different versions have different texts. */
  lemma VersionTextInjective(a: Version, b: Version)
    requires VersionText(a) == VersionText(b)
    ensures a == b
  {
    VersionTextParses(a);
    VersionTextParses(b);
    var parts := Split(VersionText(a), ".");
    assert ParseInt(parts[0]) == Some(a.major as int) == Some(b.major as int);
    assert ParseInt(parts[1]) == Some(a.minor as int) == Some(b.minor as int);
    assert ParseInt(parts[2]) == Some(a.patch as int) == Some(b.patch as int);
    assert ParseInt(parts[3]) == Some(a.build as int) == Some(b.build as int);
  }

  /** Two versions have the same text exactly when they are the same. */
  lemma SameText(a: Version, b: Version)
    ensures VersionText(a) == VersionText(b) <==> a == b
  {
    if VersionText(a) == VersionText(b) {
      VersionTextInjective(a, b);
    }
  }

  lemma TextIn(v: Version, ns: seq<Version>)
    requires v in ns
    ensures VersionText(v) in Texts(ns)
  {
    var i :| 0 <= i < |ns| && ns[i] == v;
    assert Texts(ns)[i] == VersionText(v);
  }

  lemma TextNotIn(v: Version, ns: seq<Version>)
    requires v !in ns
    ensures VersionText(v) !in Texts(ns)
  {
    forall i | 0 <= i < |ns| ensures Texts(ns)[i] != VersionText(v) {
      SameText(ns[i], v);
    }
  }

  /** Every listed version parses to its numbers. */
  lemma VersionsParse()
    ensures |VERSIONS| == |VersionList|
    ensures forall i :: 0 <= i < |VERSIONS| ==> ParsesAs(VERSIONS[i], VersionList[i])
  {
    forall i | 0 <= i < |VERSIONS| ensures ParsesAs(VERSIONS[i], VersionList[i]) {
      VersionTextParses(VersionList[i]);
    }
  }

  /** Consecutive entries of `ns` are strictly increasing. */
  predicate Increasing(ns: seq<Version>) {
    forall i, j :: 0 <= i < |ns| && j == i + 1 && j < |ns| ==> Newer(ns[j], ns[i])
  }

  lemma ListIncreasingLow()
    ensures forall i :: 0 <= i < 8 ==> Newer(VersionList[i + 1], VersionList[i])
  {
    assert Newer(VersionList[1], VersionList[0]);
    assert Newer(VersionList[2], VersionList[1]);
    assert Newer(VersionList[3], VersionList[2]);
    assert Newer(VersionList[4], VersionList[3]);
    assert Newer(VersionList[5], VersionList[4]);
    assert Newer(VersionList[6], VersionList[5]);
    assert Newer(VersionList[7], VersionList[6]);
    assert Newer(VersionList[8], VersionList[7]);
  }

  lemma ListIncreasingHigh()
    ensures forall i :: 8 <= i < 16 ==> Newer(VersionList[i + 1], VersionList[i])
  {
    assert Newer(VersionList[9], VersionList[8]);
    assert Newer(VersionList[10], VersionList[9]);
    assert Newer(VersionList[11], VersionList[10]);
    assert Newer(VersionList[12], VersionList[11]);
    assert Newer(VersionList[13], VersionList[12]);
    assert Newer(VersionList[14], VersionList[13]);
    assert Newer(VersionList[15], VersionList[14]);
    assert Newer(VersionList[16], VersionList[15]);
  }

  lemma ListIncreasing()
    ensures Increasing(VersionList)
  {
    ListIncreasingLow();
    ListIncreasingHigh();
  }

  lemma {:induction false} IncreasingOrdered(ns: seq<Version>, i: nat, j: nat)
    requires Increasing(ns) && i < j < |ns|
    ensures Newer(ns[j], ns[i])
    decreases j - i
  {
    if j > i + 1 {
      IncreasingOrdered(ns, i, j - 1);
      NewerTransitive(ns[i], ns[j - 1], ns[j], 0);
    }
  }

  /** VERSIONS is strictly increasing: every later entry needs an upgrade
      from every earlier one. */
  lemma VersionsIncreasing(i: nat, j: nat)
    requires i < j < |VERSIONS|
    ensures UpgradeNeeded(VERSIONS[i], VERSIONS[j]) == Ok(true)
  {
    VersionsParse();
    ListIncreasing();
    IncreasingOrdered(VersionList, i, j);
    UpgradeNeededOrder(VERSIONS[i], VERSIONS[j], VersionList[i], VersionList[j]);
  }

  /** Where each alembic-only version sits in VERSIONS. */
  const OnlyDbPositions: seq<nat> := [0, 1, 2, 6, 7, 8, 10, 11, 12, 13, 14, 15]

  lemma OnlyDbPositioned()
    ensures |OnlyDbPositions| == |OnlyDbList|
    ensures forall i :: 0 <= i < |OnlyDbList| ==> OnlyDbPositions[i] < |VersionList| && VersionList[OnlyDbPositions[i]] == OnlyDbList[i]
  {
  }

  lemma TextsSubset(sub: seq<Version>, ns: seq<Version>)
    requires forall v :: v in sub ==> v in ns
    ensures forall t :: t in Texts(sub) ==> t in Texts(ns)
  {
    forall t | t in Texts(sub) ensures t in Texts(ns) {
      var i :| 0 <= i < |sub| && Texts(sub)[i] == t;
      TextIn(sub[i], ns);
    }
  }

  /** Every alembic-only version is one of VERSIONS. */
  lemma OnlyDbModelsListed()
    ensures forall v :: v in ONLY_UPDATE_DB_MODELS ==> v in VERSIONS
  {
    OnlyDbPositioned();
    forall v | v in OnlyDbList ensures v in VersionList {
      var i :| 0 <= i < |OnlyDbList| && OnlyDbList[i] == v;
      assert VersionList[OnlyDbPositions[i]] == v;
    }
    TextsSubset(OnlyDbList, VersionList);
  }

  // ---------------------------------------------------------------------
  // upgrade
  // ---------------------------------------------------------------------

  /** What `upgrade(version)` does. */
  datatype Action =
    | AlembicUpgrade        // the alembic schema upgrade
    | RecreateUiRoute       // rebuild the UI route table and re-hide disabled plugins
    | AddUploadFileSize     // insert the upload_file_size parameter when missing
    | DeleteAlert303        // delete the open notifications of alert service 303
    | NoAction

  /** `upgrade`: the alembic-only list first, then the special versions. */
  function UpgradeAction(version: string): (a: Action)
    ensures a == AlembicUpgrade <==> version in ONLY_UPDATE_DB_MODELS
  {
    if version in ONLY_UPDATE_DB_MODELS then AlembicUpgrade
    else if version == VersionText(Version(1, 22, 0, 4)) then RecreateUiRoute
    else if version == VersionText(Version(1, 22, 0, 5)) then AddUploadFileSize
    else if version == VersionText(Version(1, 23, 0, 1)) then RecreateUiRoute
    else if version == VersionText(Version(1, 25, 0, 1)) then DeleteAlert303
    else if version == VersionText(Version(1, 26, 0, 2)) then RecreateUiRoute
    else NoAction
  }

  /** What upgrading to the text of `v` does, decided on its four numbers. */
  function ActionOf(v: Version): Action {
    if v in OnlyDbList then AlembicUpgrade
    else if v == Version(1, 22, 0, 4) || v == Version(1, 23, 0, 1) || v == Version(1, 26, 0, 2) then RecreateUiRoute
    else if v == Version(1, 22, 0, 5) then AddUploadFileSize
    else if v == Version(1, 25, 0, 1) then DeleteAlert303
    else NoAction
  }

  /** `upgrade` acts on the version the text spells, whatever its spelling:
      alembic for the alembic-only versions, the UI route rebuild for
      1.22.0.4, 1.23.0.1 and 1.26.0.2, the upload size parameter for
      1.22.0.5, the alert clean-up for 1.25.0.1 and nothing otherwise. */
  lemma UpgradeDispatch(v: Version)
    ensures UpgradeAction(VersionText(v)) == ActionOf(v)
  {
    if v in OnlyDbList {
      TextIn(v, OnlyDbList);
    } else {
      TextNotIn(v, OnlyDbList);
      SameText(v, Version(1, 22, 0, 4));
      SameText(v, Version(1, 22, 0, 5));
      SameText(v, Version(1, 23, 0, 1));
      SameText(v, Version(1, 25, 0, 1));
      SameText(v, Version(1, 26, 0, 2));
    }
  }

  /** The listed versions that are not alembic-only. */
  lemma SpecialVersions(j: nat)
    requires j < |VersionList| && j !in OnlyDbPositions
    ensures VersionList[j] in [Version(1, 22, 0, 4), Version(1, 22, 0, 5), Version(1, 23, 0, 1), Version(1, 25, 0, 1), Version(1, 26, 0, 2)]
  {
  }

  lemma ListedActs(j: nat)
    requires j < |VersionList|
    ensures ActionOf(VersionList[j]) != NoAction
  {
    if j in OnlyDbPositions {
      OnlyDbPositioned();
      var i :| 0 <= i < |OnlyDbPositions| && OnlyDbPositions[i] == j;
      assert VersionList[j] == OnlyDbList[i];
    } else {
      SpecialVersions(j);
    }
  }

  lemma TextsAct(ns: seq<Version>)
    requires forall j :: 0 <= j < |ns| ==> ActionOf(ns[j]) != NoAction
    ensures forall v :: v in Texts(ns) ==> UpgradeAction(v) != NoAction
  {
    forall v | v in Texts(ns) ensures UpgradeAction(v) != NoAction {
      var j :| 0 <= j < |ns| && Texts(ns)[j] == v;
      UpgradeDispatch(ns[j]);
    }
  }

  /** Every listed version does something when it is applied. */
  lemma EveryVersionActs()
    ensures forall v :: v in VERSIONS ==> UpgradeAction(v) != NoAction
  {
    forall j | 0 <= j < |VersionList| ensures ActionOf(VersionList[j]) != NoAction {
      ListedActs(j);
    }
    TextsAct(VersionList);
  }

  // ---------------------------------------------------------------------
  // run
  // ---------------------------------------------------------------------

  /** The versions `run` upgrades to, in order, starting from `current`, and
      the error that stops it, if any. */
  function Upgrades(current: string, vs: seq<string>): (r: (seq<string>, Option<Error>))
    ensures |r.0| <= |vs|
    decreases |vs|
  {
    if vs == [] then ([], None)
    else match UpgradeNeeded(current, vs[0])
      case Err(e) => ([], Some(e))
      case Ok(true) => var rest := Upgrades(vs[0], vs[1..]); ([vs[0]] + rest.0, rest.1)
      case Ok(false) => Upgrades(current, vs[1..])
  }

  /** The version `run` ends at. */
  function Reached(current: string, applied: seq<string>): string {
    if applied == [] then current else applied[|applied| - 1]
  }

  /** Each version of `a` is newer than the one before it, the first newer
      than `current`. */
  predicate Climbs(current: string, a: seq<string>)
    decreases |a|
  {
    a == [] || (UpgradeNeeded(current, a[0]) == Ok(true) && Climbs(a[0], a[1..]))
  }

  /** The recorded version never goes down: each version applied is newer
      than the one before it, the first newer than the starting version. */
  lemma {:induction false} UpgradesIncrease(current: string, vs: seq<string>)
    ensures Climbs(current, Upgrades(current, vs).0)
    decreases |vs|
  {
    if vs != [] {
      var n := UpgradeNeeded(current, vs[0]);
      if n == Ok(true) {
        UpgradesIncrease(vs[0], vs[1..]);
        var a := Upgrades(current, vs).0;
        assert a == [vs[0]] + Upgrades(vs[0], vs[1..]).0;
        assert a[1..] == Upgrades(vs[0], vs[1..]).0;
      } else if n == Ok(false) {
        UpgradesIncrease(current, vs[1..]);
      }
    }
  }

  /** Only listed versions are applied. */
  lemma {:induction false} UpgradesListed(current: string, vs: seq<string>)
    ensures var a := Upgrades(current, vs).0;
      forall k :: 0 <= k < |a| ==> a[k] in vs
    decreases |vs|
  {
    if vs != [] {
      var n := UpgradeNeeded(current, vs[0]);
      if n == Ok(true) {
        UpgradesListed(vs[0], vs[1..]);
        assert Upgrades(current, vs).0 == [vs[0]] + Upgrades(vs[0], vs[1..]).0;
        assert forall x :: x in vs[1..] ==> x in vs;
      } else if n == Ok(false) {
        UpgradesListed(current, vs[1..]);
        assert Upgrades(current, vs).0 == Upgrades(current, vs[1..]).0;
        assert forall x :: x in vs[1..] ==> x in vs;
      }
    }
  }

  /** `vs` lists the texts of the increasing versions `ns`. */
  predicate Spelled(vs: seq<string>, ns: seq<Version>) {
    |vs| == |ns| && Increasing(ns) && forall i :: 0 <= i < |vs| ==> ParsesAs(vs[i], ns[i])
  }

  lemma SpelledTail(vs: seq<string>, ns: seq<Version>, k: nat)
    requires Spelled(vs, ns) && k <= |vs|
    ensures Spelled(vs[k..], ns[k..])
  {
    assert forall i :: 0 <= i < |vs| - k ==> vs[k..][i] == vs[k + i] && ns[k..][i] == ns[k + i];
  }

  /** A first version that is not newer is skipped. */
  lemma SkipOne(current: string, cv: Version, vs: seq<string>, ns: seq<Version>)
    requires ParsesAs(current, cv) && Spelled(vs, ns) && |vs| > 0 && !Newer(ns[0], cv)
    ensures Upgrades(current, vs) == Upgrades(current, vs[1..])
  {
    UpgradeNeededOrder(current, vs[0], cv, ns[0]);
  }

  lemma {:induction false} SkipOlder(current: string, cv: Version, vs: seq<string>, ns: seq<Version>, k: nat)
    requires ParsesAs(current, cv) && Spelled(vs, ns)
    requires k <= |vs|
    requires forall j :: 0 <= j < k ==> !Newer(ns[j], cv)
    ensures Upgrades(current, vs) == Upgrades(current, vs[k..])
    decreases k
  {
    if k > 0 {
      SkipOne(current, cv, vs, ns);
      SpelledTail(vs, ns, 1);
      var tail, later := vs[1..], ns[1..];
      assert forall j :: 0 <= j < k - 1 ==> later[j] == ns[j + 1];
      SkipOlder(current, cv, tail, later, k - 1);
      assert tail[k - 1..] == vs[k..];
    }
  }

  lemma {:induction false} TakeRest(vs: seq<string>, ns: seq<Version>)
    requires Spelled(vs, ns) && |vs| > 0
    ensures Upgrades(vs[0], vs[1..]) == (vs[1..], None)
    decreases |vs|
  {
    if |vs| > 1 {
      UpgradeNeededOrder(vs[0], vs[1], ns[0], ns[1]);
      SpelledTail(vs, ns, 1);
      TakeRest(vs[1..], ns[1..]);
      assert vs[1..][0] == vs[1] && vs[1..][1..] == vs[2..];
      assert Newer(ns[1], ns[0]);
      assert Upgrades(vs[0], vs[1..]) == ([vs[1]] + Upgrades(vs[1], vs[2..]).0, Upgrades(vs[1], vs[2..]).1);
      assert [vs[1]] + vs[2..] == vs[1..];
    }
  }

  /** Once a version of an increasing list is taken, all later ones are. */
  lemma TakeAll(current: string, vs: seq<string>, ns: seq<Version>)
    requires Spelled(vs, ns) && |vs| > 0
    requires UpgradeNeeded(current, vs[0]) == Ok(true)
    ensures Upgrades(current, vs) == (vs, None)
  {
    TakeRest(vs, ns);
    assert Upgrades(current, vs) == ([vs[0]] + Upgrades(vs[0], vs[1..]).0, Upgrades(vs[0], vs[1..]).1);
    assert [vs[0]] + vs[1..] == vs;
  }

  /** From a version that parses, `run` goes through an increasing list
      without error, taking exactly the versions newer than it: all those
      from the first newer one `k` on. */
  lemma UpgradesFromParsedList(current: string, cv: Version, vs: seq<string>, ns: seq<Version>, k: nat)
    requires ParsesAs(current, cv) && Spelled(vs, ns)
    requires k <= |vs|
    requires forall i :: 0 <= i < k ==> !Newer(ns[i], cv)
    requires k < |vs| ==> Newer(ns[k], cv)
    ensures Upgrades(current, vs) == (vs[k..], None)
  {
    SkipOlder(current, cv, vs, ns, k);
    if k < |vs| {
      UpgradeNeededOrder(current, vs[k], cv, ns[k]);
      SpelledTail(vs, ns, k);
      assert vs[k..][0] == vs[k];
      TakeAll(current, vs[k..], ns[k..]);
    }
  }

  /** The same for VERSIONS itself. */
  lemma UpgradesFromParsed(current: string, cv: Version, k: nat)
    requires ParsesAs(current, cv)
    requires k <= |VERSIONS|
    requires forall i :: 0 <= i < k ==> !Newer(VersionList[i], cv)
    requires k < |VERSIONS| ==> Newer(VersionList[k], cv)
    ensures Upgrades(current, VERSIONS) == (VERSIONS[k..], None)
  {
    VersionsParse();
    ListIncreasing();
    UpgradesFromParsedList(current, cv, VERSIONS, VersionList, k);
  }

  /** The state of `run`'s loop after it has gone through `vs`: the versions
      upgraded to, the version reached and the error that stopped it. */
  function Walked(current: string, vs: seq<string>): (r: (seq<string>, string, Option<Error>))
    decreases |vs|
  {
    if vs == [] then ([], current, None)
    else
      var p := Walked(current, vs[..|vs| - 1]);
      var v := vs[|vs| - 1];
      if p.2.Some? then p
      else match UpgradeNeeded(p.1, v)
        case Err(e) => (p.0, p.1, Some(e))
        case Ok(true) => (p.0 + [v], v, None)
        case Ok(false) => p
  }

  /** Splitting off the last element of `vs` in front of `w`. */
  lemma LastInFront<T>(vs: seq<T>, w: seq<T>)
    requires |vs| > 0
    ensures vs[..|vs| - 1] + ([vs[|vs| - 1]] + w) == vs + w
    ensures ([vs[|vs| - 1]] + w)[0] == vs[|vs| - 1] && ([vs[|vs| - 1]] + w)[1..] == w
  {
    assert vs == vs[..|vs| - 1] + [vs[|vs| - 1]];
    AppendAssoc(vs[..|vs| - 1], [vs[|vs| - 1]], w);
  }

  /** Going through `vs` and then `w` from the front is what `Upgrades`
      describes from the back: the versions taken in `vs` followed by those
      taken in `w` from where `vs` left off, or the error met in `vs`. */
  lemma {:induction false} WalkedUpgrades(current: string, vs: seq<string>, w: seq<string>)
    ensures Walked(current, vs).2.None? ==>
      Upgrades(current, vs + w) == (Walked(current, vs).0 + Upgrades(Walked(current, vs).1, w).0,
                                    Upgrades(Walked(current, vs).1, w).1)
    ensures Walked(current, vs).2.Some? ==> Upgrades(current, vs + w) == (Walked(current, vs).0, Walked(current, vs).2)
    decreases |vs|
  {
    if vs == [] {
      assert vs + w == w && [] + Upgrades(current, w).0 == Upgrades(current, w).0;
    } else {
      var init, v := vs[..|vs| - 1], vs[|vs| - 1];
      WalkedUpgrades(current, init, [v] + w);
      LastInFront(vs, w);
      var p := Walked(current, init);
      if p.2.None? {
        match UpgradeNeeded(p.1, v) {
          case Err(e) =>
            assert p.0 + [] == p.0;
          case Ok(true) =>
            AppendAssoc(p.0, [v], Upgrades(v, w).0);
          case Ok(false) =>
        }
      }
    }
  }

  /** One step of `run`'s loop at position `i`, with `need` the answer of
      `needs_upgrade` there. */
  lemma WalkStep(current: string, vs: seq<string>, i: nat, applied: seq<string>, cur: string, need: Result<bool>)
    requires i < |vs| && Walked(current, vs[..i]) == (applied, cur, None)
    requires need == UpgradeNeeded(cur, vs[i])
    ensures need.Err? ==> Walked(current, vs[..i + 1]) == (applied, cur, Some(need.error))
    ensures need == Ok(true) ==> Walked(current, vs[..i + 1]) == (applied + [vs[i]], vs[i], None)
    ensures need == Ok(false) ==> Walked(current, vs[..i + 1]) == (applied, cur, None)
  {
    assert vs[..i + 1][..i] == vs[..i] && vs[..i + 1][i] == vs[i];
  }

  /** An error at position `i` ends `run` with what was upgraded before it. */
  lemma WalkStopped(current: string, vs: seq<string>, i: nat, applied: seq<string>, e: Error)
    requires i < |vs|
    requires Walked(current, vs[..i + 1]).0 == applied && Walked(current, vs[..i + 1]).2 == Some(e)
    ensures Upgrades(current, vs) == (applied, Some(e))
  {
    WalkedUpgrades(current, vs[..i + 1], vs[i + 1..]);
    assert vs[..i + 1] + vs[i + 1..] == vs;
  }

  /** The end of `run`'s loop: the whole list was gone through without error. */
  lemma WalkDone(current: string, vs: seq<string>, applied: seq<string>, cur: string)
    requires Walked(current, vs[..|vs|]) == (applied, cur, None)
    ensures Upgrades(current, vs) == (applied, None)
  {
    assert vs[..|vs|] == vs && vs + [] == vs;
    WalkedUpgrades(current, vs, []);
    assert applied + [] == applied;
  }

  /** The migration state `run` works on: the NexusVersion row and the
      upgrades performed. */
  class Migration {
    /** `NexusVersion.api_version`. */
    var apiVersion: string
    /** `NexusVersion.deploy_version`. */
    var deployVersion: string
    /** The versions whose `upgrade` has been carried out, in order. */
    var upgraded: seq<string>

    constructor (apiVersion: string, deployVersion: string)
      ensures this.apiVersion == apiVersion && this.deployVersion == deployVersion && upgraded == []
    {
      this.apiVersion := apiVersion;
      this.deployVersion := deployVersion;
      upgraded := [];
    }

    /** `run`: from `current` (what `current_version` read), records and
        applies each newer listed version in turn; `deploy` is the configured
        DEPLOY_VERSION. An unreadable version stops it with that error. */
    method Run(current: string, deploy: string) returns (r: Outcome)
      modifies this
      ensures var u := Upgrades(current, VERSIONS);
        (r.Fail? <==> u.1.Some?) && (r.Fail? ==> r.error == u.1.value) &&
        upgraded == old(upgraded) + u.0 &&
        (u.0 == [] ==> apiVersion == old(apiVersion) && deployVersion == old(deployVersion)) &&
        (u.0 != [] ==> apiVersion == Reached(current, u.0) && deployVersion == deploy)
    {
      r := RunOver(current, deploy, VERSIONS);
    }

    /** The loop of `run` over the version list `versions`. */
    method RunOver(current: string, deploy: string, versions: seq<string>) returns (r: Outcome)
      modifies this
      ensures var u := Upgrades(current, versions);
        (r.Fail? <==> u.1.Some?) && (r.Fail? ==> r.error == u.1.value) &&
        upgraded == old(upgraded) + u.0 &&
        (u.0 == [] ==> apiVersion == old(apiVersion) && deployVersion == old(deployVersion)) &&
        (u.0 != [] ==> apiVersion == Reached(current, u.0) && deployVersion == deploy)
    {
      var cur := current;
      ghost var applied: seq<string> := [];
      for i := 0 to |versions|
        invariant Walked(current, versions[..i]) == (applied, cur, None)
        invariant cur == Reached(current, applied)
        invariant upgraded == old(upgraded) + applied
        invariant applied == [] ==> apiVersion == old(apiVersion) && deployVersion == old(deployVersion)
        invariant applied != [] ==> apiVersion == cur && deployVersion == deploy
      {
        var need := NeedsUpgrade(cur, versions[i]);
        WalkStep(current, versions, i, applied, cur, need);
        if need.Err? {
          WalkStopped(current, versions, i, applied, need.error);
          return Fail(need.error);
        }
        if need.value {
          cur := versions[i];
          deployVersion := deploy;
          apiVersion := cur;
          upgraded := upgraded + [cur];
          applied := applied + [cur];
        }
      }
      WalkDone(current, versions, applied, cur);
      return Pass;
    }
  }
}
