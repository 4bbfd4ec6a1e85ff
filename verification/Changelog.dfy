/** The check of the version list of a changelog. The lines are given as parsed records. */
module Changelog {
  import opened Lines

  /** `beta` is 255 for a version without a beta part. */
  datatype Version = Version(major: nat, minor: nat, patch: nat, beta: nat)

  /** The patch number from which on a version is a preliminary one of the next line. */
  const PRELIMINARY: nat := 90

  predicate Less(a: Version, b: Version) {
    if a.major != b.major then a.major < b.major
    else if a.minor != b.minor then a.minor < b.minor
    else if a.patch != b.patch then a.patch < b.patch
    else a.beta < b.beta
  }

  predicate SameKind(a: Version, b: Version) {
    a.patch < PRELIMINARY <==> b.patch < PRELIMINARY
  }

  /** The next patch, the first patch of the next minor version, or a new major version. */
  predicate IsSuccessor(a: Version, b: Version) {
    || (b.major == a.major && b.minor == a.minor && b.patch == a.patch + 1)
    || (b.major == a.major && b.minor == a.minor + 1 && b.patch == 0)
    || (b.major > a.major && b.minor == 0 && b.patch == 0)
  }

  /** What the check lets through. A first entry that is preliminary makes it stop with an
      index error, since its guard then looks at the entry before the first. */
  ghost predicate Accepted(entries: seq<Version>) {
    && |entries| > 0
    && (forall i | 0 <= i < |entries| :: entries[i].major <= 2)
    && entries[0].patch < PRELIMINARY
    && (forall i | 0 < i < |entries| ::
      SameKind(entries[i - 1], entries[i]) ==> IsSuccessor(entries[i - 1], entries[i]))
  }

  /** The oldest and the newest version, or no result where the check raises an exception. */
  method GetChangelogVersion(entries: seq<Version>) returns (r: Option<(Version, Version)>)
    ensures r.Some? <==> Accepted(entries)
    ensures r.Some? ==> r.value == (entries[0], entries[|entries| - 1])
  {
    var versions: seq<Version> := [];
    for i := 0 to |entries|
      invariant versions == entries[..i]
      invariant i > 0 ==> Accepted(entries[..i])
    {
      var version := entries[i];
      ghost var now := entries[..i + 1];
      assert now == versions + [version];
      if version.major !in [0, 1, 2] {
        assert now[i].major > 2;
        return None;
      }
      if |versions| == 0 && version.patch >= PRELIMINARY {
        return None;
      }
      if |versions| > 0 {
        var last := versions[|versions| - 1];
        if (version.patch < PRELIMINARY && last.patch < PRELIMINARY) ||
          (version.patch >= PRELIMINARY && last.patch >= PRELIMINARY) {
          assert SameKind(entries[i - 1], entries[i]);
          if !Less(last, version) {
            return None;
          }
          if last.major == version.major && last.minor == version.minor && last.patch + 1 != version.patch {
            return None;
          }
          if last.major == version.major && last.minor != version.minor && last.minor + 1 != version.minor {
            return None;
          }
          if last.minor != version.minor && version.patch != 0 {
            return None;
          }
          if last.major != version.major && (version.minor != 0 || version.patch != 0) {
            return None;
          }
        }
      }
      versions := versions + [version];
      assert forall k | 0 < k < |now| :: SameKind(now[k - 1], now[k]) ==> IsSuccessor(now[k - 1], now[k]);
    }
    assert entries[..|entries|] == entries;
    if |versions| == 0 {
      return None;
    }
    return Some((versions[0], versions[|versions| - 1]));
  }

  // ---------------------------------------------------------------------------------------

  /** The entries from `i` to `j` are all regular or all preliminary. */
  ghost predicate IsRun(entries: seq<Version>, i: nat, j: nat) {
    i <= j < |entries| && forall k | i <= k <= j :: SameKind(entries[i], entries[k])
  }

  lemma {:induction false} RunStep(entries: seq<Version>, i: nat, j: nat)
    requires Accepted(entries) && IsRun(entries, i, j) && i < j
    ensures IsRun(entries, i, j - 1) && IsSuccessor(entries[j - 1], entries[j])
  {
    assert SameKind(entries[i], entries[j - 1]) && SameKind(entries[i], entries[j]);
  }

  /** In a run, versions strictly increase. */
  lemma {:induction false} RunIncreases(entries: seq<Version>, i: nat, j: nat)
    requires Accepted(entries) && IsRun(entries, i, j) && i < j
    ensures Less(entries[i], entries[j])
    decreases j
  {
    RunStep(entries, i, j);
    if i < j - 1 {
      RunIncreases(entries, i, j - 1);
    }
  }

  predicate SameLine(a: Version, b: Version) {
    a.major == b.major && a.minor == b.minor
  }

  /** Two entries of the same line in a run differ in patch by their distance in the list. */
  lemma {:induction false} PatchIsDistance(entries: seq<Version>, i: nat, j: nat)
    requires Accepted(entries) && IsRun(entries, i, j)
    requires SameLine(entries[i], entries[j])
    ensures entries[j].patch == entries[i].patch + (j - i)
    decreases j
  {
    if i < j {
      RunStep(entries, i, j);
      if i < j - 1 {
        RunIncreases(entries, i, j - 1);
      }
      PatchIsDistance(entries, i, j - 1);
    }
  }

  /** So no patch between them is missing. */
  lemma {:induction false} NoPatchIsMissing(entries: seq<Version>, i: nat, j: nat, patch: nat)
    requires Accepted(entries) && IsRun(entries, i, j)
    requires SameLine(entries[i], entries[j]) && entries[i].patch <= patch <= entries[j].patch
    ensures var k := i + (patch - entries[i].patch);
      i <= k <= j && SameLine(entries[i], entries[k]) && entries[k].patch == patch
  {
    PatchIsDistance(entries, i, j);
    var k := i + (patch - entries[i].patch);
    assert IsRun(entries, i, k);
    assert IsRun(entries, k, j) by {
      assert SameKind(entries[i], entries[k]);
    }
    if i < k {
      RunIncreases(entries, i, k);
    }
    if k < j {
      RunIncreases(entries, k, j);
    }
    PatchIsDistance(entries, i, k);
  }

  /** A run of preliminary versions stays in one line. */
  lemma {:induction false} PreliminaryRunIsOneLine(entries: seq<Version>, i: nat, j: nat)
    requires Accepted(entries) && IsRun(entries, i, j) && entries[i].patch >= PRELIMINARY
    ensures SameLine(entries[i], entries[j]) && entries[j].patch == entries[i].patch + (j - i)
    decreases j
  {
    if i < j {
      RunStep(entries, i, j);
      assert SameKind(entries[i], entries[j]);
      PreliminaryRunIsOneLine(entries, i, j - 1);
    }
  }

  ghost predicate Increases(entries: seq<Version>) {
    forall i, j | 0 <= i < j < |entries| :: Less(entries[i], entries[j])
  }

  /** Nothing relates the entries on both sides of a change of kind: a changelog may repeat a
      version after a preliminary one. */
  lemma {:induction false} RepeatedVersionIsAccepted()
    ensures var entries := [Version(1, 0, 0, 255), Version(1, 0, 90, 255), Version(1, 0, 0, 255)];
      Accepted(entries) && !Increases(entries)
  {
    var entries := [Version(1, 0, 0, 255), Version(1, 0, 90, 255), Version(1, 0, 0, 255)];
    assert !Less(entries[0], entries[2]);
  }

  lemma {:induction false} LessIsTransitive(a: Version, b: Version, c: Version)
    requires Less(a, b) && Less(b, c)
    ensures Less(a, c)
  {
  }

  /** An accepted changelog increases throughout exactly when it does at each change of kind. */
  lemma {:induction false} IncreasesExactly(entries: seq<Version>)
    requires Accepted(entries)
    ensures Increases(entries) <==>
      forall i | 0 < i < |entries| && !SameKind(entries[i - 1], entries[i]) :: Less(entries[i - 1], entries[i])
  {
    if forall i | 0 < i < |entries| && !SameKind(entries[i - 1], entries[i]) :: Less(entries[i - 1], entries[i]) {
      forall i, j | 0 <= i < j < |entries| ensures Less(entries[i], entries[j]) {
        StepsIncrease(entries, i, j);
      }
    }
  }

  lemma {:induction false} StepsIncrease(entries: seq<Version>, i: nat, j: nat)
    requires Accepted(entries) && i < j < |entries|
    requires forall i | 0 < i < |entries| && !SameKind(entries[i - 1], entries[i]) :: Less(entries[i - 1], entries[i])
    ensures Less(entries[i], entries[j])
    decreases j
  {
    assert Less(entries[j - 1], entries[j]);
    if i < j - 1 {
      StepsIncrease(entries, i, j - 1);
      LessIsTransitive(entries[i], entries[j - 1], entries[j]);
    }
  }
}
