/**
 The release list of a package (fluvio-package-index, package.rs): sorted on every insertion, at most
 one release per version.  The order on versions is a parameter.
 */
module PackageReleases {
  import opened Wrappers

  type Target = string

  datatype Version = Version(major: nat, minor: nat, patch: nat, pre: string, build: string)

  datatype Release = Release(version: Version, yanked: bool, targets: seq<Target>)

  datatype IndexError = NoReleases | MissingTarget

  type Order = (Version, Version) -> bool

  // A strict total order that agrees with equality.
  ghost predicate TotalOrder(less: Order) {
    && (forall a: Version :: !less(a, a))
    && (forall a: Version, b: Version :: a == b || less(a, b) || less(b, a))
    && (forall a: Version, b: Version, c: Version :: less(a, b) && less(b, c) ==> less(a, c))
  }

  ghost predicate Increasing(less: Order, s: seq<Release>) {
    forall i, j :: 0 <= i < j < |s| ==> less(s[i].version, s[j].version)
  }

  predicate NoRepeats(targets: seq<Target>) {
    forall i, j :: 0 <= i < j < |targets| ==> targets[i] != targets[j]
  }

  // The (version, target) pairs of a list of releases.
  ghost function Pairs(s: seq<Release>): set<(Version, Target)> {
    set r, t | r in s && t in r.targets :: (r.version, t)
  }

  // ----- the stable sort, as insertion after everything that is not greater -----

  function InsertStable(less: Order, s: seq<Release>, r: Release): seq<Release> {
    if s != [] && less(r.version, s[|s| - 1].version)
    then InsertStable(less, s[..|s| - 1], r) + [s[|s| - 1]]
    else s + [r]
  }

  function SortBy(less: Order, s: seq<Release>): seq<Release> {
    if s == [] then [] else InsertStable(less, SortBy(less, s[..|s| - 1]), s[|s| - 1])
  }

  lemma {:induction false} InsertPermutes(less: Order, s: seq<Release>, r: Release)
    ensures multiset(InsertStable(less, s, r)) == multiset(s + [r])
  {
    if s != [] && less(r.version, s[|s| - 1].version) {
      InsertPermutes(less, s[..|s| - 1], r);
      assert s == s[..|s| - 1] + [s[|s| - 1]];
    }
  }

  lemma {:induction false} SortPermutes(less: Order, s: seq<Release>)
    ensures multiset(SortBy(less, s)) == multiset(s)
  {
    hide InsertStable;
    if s != [] {
      var n := |s| - 1;
      var front := SortBy(less, s[..n]);
      SortPermutes(less, s[..n]);
      InsertPermutes(less, front, s[n]);
      assert multiset(front + [s[n]]) == multiset(front) + multiset{s[n]};
      assert s == s[..n] + [s[n]];
    }
  }

  // What is not smaller than the last release goes behind it.
  lemma {:induction false} InsertLast(less: Order, s: seq<Release>, r: Release)
    requires s != [] ==> !less(r.version, s[|s| - 1].version)
    ensures InsertStable(less, s, r) == s + [r]
  {
  }

  lemma {:induction false} SortLast(less: Order, s: seq<Release>)
    requires s != []
    ensures SortBy(less, s) == InsertStable(less, SortBy(less, s[..|s| - 1]), s[|s| - 1])
  {
    hide InsertStable;
  }

  lemma {:induction false} SortNothing(less: Order)
    ensures SortBy(less, []) == []
  {
  }

  lemma {:induction false} SortSorted(less: Order, s: seq<Release>)
    requires TotalOrder(less) && Increasing(less, s)
    ensures SortBy(less, s) == s
  {
    hide SortBy, InsertStable;
    if s == [] {
      SortNothing(less);
    } else {
      var n := |s| - 1;
      SortSorted(less, s[..n]);
      SortLast(less, s);
      assert n > 0 ==> less(s[n - 1].version, s[n].version);
      InsertLast(less, s[..n], s[n]);
      assert s == s[..n] + [s[n]];
    }
  }

  lemma {:induction false} MemberOfPermutation<T>(a: seq<T>, b: seq<T>, x: T)
    requires multiset(a) == multiset(b)
    ensures x in a <==> x in b
  {
    assert x in a <==> x in multiset(a);
    assert x in b <==> x in multiset(b);
  }

  lemma {:induction false} IncreasingPush(less: Order, s: seq<Release>, r: Release)
    requires Increasing(less, s) && forall x :: x in s ==> less(x.version, r.version)
    ensures Increasing(less, s + [r])
  {
    var p := s + [r];
    forall i, j | 0 <= i < j < |p| ensures less(p[i].version, p[j].version) {
      assert p[i] in s;
    }
  }

  // The last release is the greatest.
  lemma {:induction false} LastIsGreatest(less: Order, s: seq<Release>)
    requires Increasing(less, s) && s != []
    ensures var n := |s| - 1;
            Increasing(less, s[..n]) && forall x :: x in s[..n] ==> less(x.version, s[n].version)
  {
  }

  lemma {:induction false} InsertIncreasing(less: Order, s: seq<Release>, r: Release)
    requires TotalOrder(less) && Increasing(less, s)
    requires forall x :: x in s ==> x.version != r.version
    ensures Increasing(less, InsertStable(less, s, r))
  {
    if s == [] {
      IncreasingPush(less, s, r);
    } else {
      var n := |s| - 1;
      var front, last := s[..n], s[n];
      LastIsGreatest(less, s);
      hide Increasing;
      assert last in s;
      if less(r.version, last.version) {
        InsertIncreasing(less, front, r);
        InsertPermutes(less, front, r);
        forall x | x in InsertStable(less, front, r) ensures less(x.version, last.version) {
          MemberOfPermutation(InsertStable(less, front, r), front + [r], x);
        }
        IncreasingPush(less, InsertStable(less, front, r), last);
      } else {
        assert less(last.version, r.version);
        forall x | x in s ensures less(x.version, r.version) {
          assert x == last || x in front;
        }
        IncreasingPush(less, s, r);
      }
    }
  }

  // Pushing a new version on an increasing list and sorting gives an increasing list of the same
  // releases.
  lemma {:induction false} PushSort(less: Order, s: seq<Release>, r: Release)
    requires TotalOrder(less) && Increasing(less, s)
    requires forall x :: x in s ==> x.version != r.version
    ensures Increasing(less, SortBy(less, s + [r]))
    ensures forall x :: x in SortBy(less, s + [r]) <==> x in s || x == r
  {
    hide SortBy, InsertStable;
    var pushed := s + [r];
    assert SortBy(less, pushed) == InsertStable(less, s, r) by {
      SortPushed(less, s, r);
    }
    InsertIncreasing(less, s, r);
    SortPermutes(less, pushed);
    forall x ensures x in SortBy(less, pushed) <==> x in s || x == r {
      MemberOfPermutation(SortBy(less, pushed), pushed, x);
    }
  }

  lemma {:induction false} SortPushed(less: Order, s: seq<Release>, r: Release)
    requires TotalOrder(less) && Increasing(less, s)
    ensures SortBy(less, s + [r]) == InsertStable(less, s, r)
  {
    hide InsertStable;
    SortSorted(less, s);
    assert (s + [r])[..|s|] == s;
  }

  // ----- the package -----

  function WithTarget(r: Release, target: Target): Release {
    if target in r.targets then r else r.(targets := r.targets + [target])
  }

  class Package {
    const less: Order
    var releases: seq<Release>

    ghost predicate Valid()
      reads this
    {
      && TotalOrder(less)
      && Increasing(less, releases)
      && forall r :: r in releases ==> r.targets != [] && NoRepeats(r.targets)
    }

    constructor (less: Order)
      requires TotalOrder(less)
      ensures Valid() && releases == [] && this.less == less
    {
      this.less := less;
      releases := [];
    }

    // Index of the release with exactly this version.
    method FindVersion(version: Version) returns (k: Option<nat>)
      ensures k.Some? ==> k.value < |releases| && releases[k.value].version == version
      ensures k.None? ==> forall r :: r in releases ==> r.version != version
    {
      for i := 0 to |releases|
        invariant forall j :: 0 <= j < i ==> releases[j].version != version
      {
        if releases[i].version == version {
          return Some(i);
        }
      }
      return None;
    }

    // The package holds the pair in addition to what it held; releases stay strictly sorted.
    method AddRelease(version: Version, target: Target)
      requires Valid()
      modifies this
      ensures Valid()
      ensures Pairs(releases) == old(Pairs(releases)) + {(version, target)}
      ensures forall r :: r in old(releases) && r.version != version ==> r in releases
      ensures forall r :: r in releases && r.version != version ==> r in old(releases)
      ensures forall r :: r in old(releases) && r.version == version ==> WithTarget(r, target) in releases
      ensures (forall r :: r in old(releases) ==> r.version != version) ==>
              Release(version, false, [target]) in releases
    {
      hide TotalOrder, Increasing, NoRepeats, Pairs, SortBy;
      var k := FindVersion(version);
      if k.Some? {
        UpdateRelease(less, releases, k.value, target);
        releases := releases[k.value := WithTarget(releases[k.value], target)];
      } else {
        var release := Release(version, false, [target]);
        PushSort(less, releases, release);
        PairsAdded(releases, release, SortBy(less, releases + [release]));
        SingleTarget(target);
        releases := releases + [release];
        releases := SortBy(less, releases);
      }
    }

    method LatestRelease() returns (r: Result<Release, IndexError>)
      requires Valid()
      ensures r == Err(NoReleases) <==> releases == []
      ensures r.Ok? ==> r.value in releases
      ensures r.Ok? ==> forall x :: x in releases && x != r.value ==> less(x.version, r.value.version)
      ensures r.Err? ==> r.error == NoReleases
    {
      if releases == [] {
        r := Err(NoReleases);
      } else {
        r := Ok(releases[|releases| - 1]);
      }
    }

    // The greatest version with the target, without prerelease the greatest that has neither a prerelease
    // tag nor build metadata, and an error if and only if there is none.
    method LatestReleaseForTarget(target: Target, prerelease: bool) returns (r: Result<Release, IndexError>)
      requires Valid()
      ensures r.Ok? ==> r.value in releases && target in r.value.targets
      ensures r.Ok? && !prerelease ==> r.value.version.pre == "" && r.value.version.build == ""
      ensures r.Ok? ==>
              forall x ::
                && x in releases && target in x.targets && x != r.value
                && (prerelease || (x.version.pre == "" && x.version.build == ""))
                ==> less(x.version, r.value.version)
      ensures r.Err? ==>
              forall x :: x in releases && target in x.targets ==>
                !prerelease && (x.version.pre != "" || x.version.build != "")
      ensures r.Err? ==> r.error == MissingTarget
    {
      var i := |releases|;
      while i > 0
        invariant 0 <= i <= |releases|
        invariant forall j :: i <= j < |releases| ==> !Eligible(releases[j], target, prerelease)
      {
        i := i - 1;
        if Eligible(releases[i], target, prerelease) {
          return Ok(releases[i]);
        }
      }
      return Err(MissingTarget);
    }
  }

  predicate Eligible(r: Release, target: Target, prerelease: bool) {
    (prerelease || (r.version.pre == "" && r.version.build == "")) && target in r.targets
  }

  lemma {:induction false} SingleTarget(target: Target)
    ensures NoRepeats([target])
  {
  }

  lemma {:induction false} UpdateRelease(less: Order, s: seq<Release>, k: nat, target: Target)
    requires k < |s| && TotalOrder(less) && Increasing(less, s)
    requires forall r :: r in s ==> r.targets != [] && NoRepeats(r.targets)
    ensures var s' := s[k := WithTarget(s[k], target)];
            && Increasing(less, s')
            && (forall r :: r in s' ==> r.targets != [] && NoRepeats(r.targets))
            && Pairs(s') == Pairs(s) + {(s[k].version, target)}
            && (forall r :: r in s && r.version != s[k].version ==> r in s')
            && (forall r :: r in s' && r.version != s[k].version ==> r in s)
            && (forall r :: r in s && r.version == s[k].version ==> WithTarget(r, target) in s')
  {
    var w := WithTarget(s[k], target);
    var s' := s[k := w];
    assert s[k] in s && s'[k] == w;
    assert NoRepeats(w.targets);
    forall r | r in s' ensures r == w || r in s {
    }
    forall r | r in s && r != s[k] ensures r in s' {
      var i :| 0 <= i < |s| && s[i] == r;
      assert s'[i] == r;
    }
    forall r | r in s && r.version == s[k].version ensures r == s[k] {
      var i :| 0 <= i < |s| && s[i] == r;
      DistinctVersions(less, s, i, k);
    }
    UpdatedPairs(s, s', s[k], w, target);
  }

  lemma {:induction false} DistinctVersions(less: Order, s: seq<Release>, i: nat, k: nat)
    requires TotalOrder(less) && Increasing(less, s) && i < |s| && k < |s|
    ensures i != k ==> s[i].version != s[k].version
  {
    if i < k {
      assert less(s[i].version, s[k].version);
    } else if k < i {
      assert less(s[k].version, s[i].version);
    }
  }

  lemma {:induction false} UpdatedPairs(s: seq<Release>, s': seq<Release>, r: Release, w: Release, target: Target)
    requires r in s && w in s' && w == WithTarget(r, target)
    requires forall x :: x in s' ==> x == w || x in s
    requires forall x :: x in s && x != r ==> x in s'
    ensures Pairs(s') == Pairs(s) + {(r.version, target)}
  {
    assert forall t :: t in w.targets <==> t in r.targets || t == target;
    forall p | p in Pairs(s') ensures p in Pairs(s) + {(r.version, target)} {
    }
    forall p | p in Pairs(s) + {(r.version, target)} ensures p in Pairs(s') {
      assert p == (r.version, target) ==> target in w.targets;
    }
  }

  lemma {:induction false} PairsAdded(s: seq<Release>, r: Release, s': seq<Release>)
    requires forall x :: x in s' <==> x in s || x == r
    requires |r.targets| == 1
    ensures Pairs(s') == Pairs(s) + {(r.version, r.targets[0])}
  {
  }

  // ----- all runs -----

  // After any additions to a new package its pairs are exactly those added.
  method AddAll(less: Order, adds: seq<(Version, Target)>) returns (p: Package)
    requires TotalOrder(less)
    ensures fresh(p) && p.less == less && p.Valid()
    ensures Pairs(p.releases) == set a | a in adds
  {
    hide TotalOrder, Increasing, NoRepeats;
    p := new Package(less);
    for i := 0 to |adds|
      invariant fresh(p) && p.less == less && p.Valid()
      invariant Pairs(p.releases) == set a | a in adds[..i]
    {
      p.AddRelease(adds[i].0, adds[i].1);
      assert adds[..i + 1] == adds[..i] + [adds[i]];
    }
    assert adds[..|adds|] == adds;
  }

  // Packages with the same pairs list the same versions in the same order, whatever the calls.
  lemma {:induction false} SamePairsSameVersions(less: Order, a: seq<Release>, b: seq<Release>)
    requires TotalOrder(less) && Increasing(less, a) && Increasing(less, b)
    requires forall r :: r in a || r in b ==> r.targets != []
    requires Pairs(a) == Pairs(b)
    ensures |a| == |b|
    ensures forall i :: 0 <= i < |a| ==>
              a[i].version == b[i].version && forall t :: t in a[i].targets <==> t in b[i].targets
  {
    hide TotalOrder, Increasing, Pairs, Covered;
    VersionsMatch(a, b);
    VersionsMatch(b, a);
    SameMembersSameOrder(less, a, b);
    forall i, t | 0 <= i < |a| ensures t in a[i].targets <==> t in b[i].targets {
      TargetsMatch(less, a, b, i, t);
      TargetsMatch(less, b, a, i, t);
    }
  }

  // Every version of a is also in b.
  ghost predicate Covered(a: seq<Release>, b: seq<Release>) {
    forall r :: r in a ==> exists q :: q in b && q.version == r.version
  }

  lemma {:induction false} VersionsMatch(a: seq<Release>, b: seq<Release>)
    requires Pairs(a) == Pairs(b) && forall r :: r in a ==> r.targets != []
    ensures Covered(a, b)
  {
    forall r | r in a ensures exists q :: q in b && q.version == r.version {
      assert r.targets[0] in r.targets;
      assert (r.version, r.targets[0]) in Pairs(a);
    }
  }

  lemma {:induction false} SameMembersSameOrder(less: Order, a: seq<Release>, b: seq<Release>)
    requires TotalOrder(less) && Increasing(less, a) && Increasing(less, b)
    requires Covered(a, b) && Covered(b, a)
    ensures |a| == |b| && forall i :: 0 <= i < |a| ==> a[i].version == b[i].version
  {
    hide TotalOrder, Increasing, Covered;
    CoveredByNone(a, b);
    CoveredByNone(b, a);
    if a != [] {
      var n, m := |a| - 1, |b| - 1;
      LastMatches(less, a, b);
      LastMatches(less, b, a);
      NeitherLess(less, a[n].version, b[m].version);
      LastIsGreatest(less, a);
      LastIsGreatest(less, b);
      FrontMatches(less, a, b);
      FrontMatches(less, b, a);
      SameMembersSameOrder(less, a[..n], b[..m]);
      forall i | 0 <= i < |a| ensures a[i].version == b[i].version {
        assert i < n ==> a[i] == a[..n][i] && b[i] == b[..m][i];
      }
    }
  }

  lemma {:induction false} CoveredByNone(a: seq<Release>, b: seq<Release>)
    requires Covered(a, b)
    ensures b == [] ==> a == []
  {
    assert a != [] ==> a[0] in a;
  }

  lemma {:induction false} NeitherLess(less: Order, x: Version, y: Version)
    requires TotalOrder(less) && !less(x, y) && !less(y, x)
    ensures x == y
  {
  }

  lemma {:induction false} LastMatches(less: Order, a: seq<Release>, b: seq<Release>)
    requires TotalOrder(less) && Increasing(less, a) && Increasing(less, b) && a != [] && b != []
    requires Covered(a, b)
    ensures !less(b[|b| - 1].version, a[|a| - 1].version)
  {
    var last := a[|a| - 1];
    assert last in a;
    var q :| q in b && q.version == last.version;
    var j :| 0 <= j < |b| && b[j] == q;
  }

  lemma {:induction false} FrontMatches(less: Order, a: seq<Release>, b: seq<Release>)
    requires TotalOrder(less) && Increasing(less, a) && a != [] && b != []
    requires a[|a| - 1].version == b[|b| - 1].version
    requires Covered(a, b)
    ensures Covered(a[..|a| - 1], b[..|b| - 1])
  {
    var n, m := |a| - 1, |b| - 1;
    forall r | r in a[..n] ensures exists q :: q in b[..m] && q.version == r.version {
      var i :| 0 <= i < n && a[i] == r;
      assert r in a && less(r.version, a[n].version);
      var q :| q in b && q.version == r.version;
      var j :| 0 <= j < |b| && b[j] == q;
      assert j < m;
      assert b[..m][j] == q;
    }
  }

  lemma {:induction false} TargetsMatch(less: Order, a: seq<Release>, b: seq<Release>, i: nat, t: Target)
    requires TotalOrder(less) && Increasing(less, b) && |a| == |b| && i < |a|
    requires Pairs(a) == Pairs(b) && a[i].version == b[i].version
    ensures t in a[i].targets ==> t in b[i].targets
  {
    if t in a[i].targets {
      assert a[i] in a && (a[i].version, t) in Pairs(b);
      var q :| q in b && q.version == a[i].version && t in q.targets;
      var j :| 0 <= j < |b| && b[j] == q;
      assert i < j ==> less(b[i].version, b[j].version);
      assert j < i ==> less(b[j].version, b[i].version);
    }
  }
}
