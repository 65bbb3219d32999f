/**
 Version limits: which versions an extension keeps, which uploads it refuses, and what a trim removes.

 The library's sort leaves the order of ties open, so every contract here holds whichever way they fall.
 A cut is what a limit removes from a set of versions.
 */
module Limits {
  import opened Versions
  import opened Inventory

  ghost predicate Distinct<T>(s: seq<T>) {
    forall i, j | 0 <= i < j < |s| :: s[i] != s[j]
  }

  ghost predicate OldestFirst(vs: seq<string>) {
    forall i, j | 0 <= i < j < |vs| :: CompareVersions(vs[i], vs[j]) <= 0
  }

  ghost predicate NewestFirst(vs: seq<string>) {
    forall i, j | 0 <= i < j < |vs| :: CompareVersions(vs[j], vs[i]) <= 0
  }

  function Elements<T>(s: seq<T>): set<T> { set x | x in s }

  lemma {:induction false} DistinctSize<T>(s: seq<T>)
    requires Distinct(s)
    ensures |Elements(s)| == |s|
  {
    if |s| > 0 {
      var front, x := s[..|s| - 1], s[|s| - 1];
      DistinctSize(front);
      assert Elements(s) == Elements(front) + {x};
      assert x !in Elements(front);
    }
  }

  function VersionsIn(packages: seq<Record>): set<string> {
    set p | p in packages :: p.key.version
  }

  function NotDeleted(packages: seq<Record>): (r: seq<Record>)
    ensures forall p :: p in r <==> p in packages && !p.status.Deleted?
  {
    if |packages| == 0 then []
    else
      var front, p := NotDeleted(packages[..|packages| - 1]), packages[|packages| - 1];
      assert packages == packages[..|packages| - 1] + [p];
      if p.status.Deleted? then front else front + [p]
  }

  /** The versions an extension still has, in any status but deleted. */
  function KeptIn(packages: seq<Record>): set<string> {
    VersionsIn(NotDeleted(packages))
  }

  /** cut holds all but the newest keep of versions; a limit of 0 cuts nothing. */
  ghost predicate IsCut(versions: set<string>, keep: int, cut: set<string>) {
    if keep <= 0 then
      cut == {}
    else
      && cut <= versions
      && |versions - cut| == (if |versions| <= keep then |versions| else keep)
      && forall c, v | c in cut && v in versions - cut :: CompareVersions(c, v) <= 0
  }

  function Newer(versions: set<string>, version: string): set<string> {
    set v | v in versions && CompareVersions(v, version) > 0
  }

  function NewerOrTied(versions: set<string>, version: string): set<string> {
    set v | v in versions && CompareVersions(v, version) >= 0
  }

  ghost predicate NoTies(versions: set<string>) {
    forall v, w | v in versions && w in versions && v != w :: CompareVersions(v, w) != 0
  }

  predicate IsOutside(versions: set<string>, version: string, keep: int) {
    keep > 0 && version !in versions && |Newer(versions, version)| >= keep
  }

  /** The packages of the cut versions, all platforms of each, in their order. */
  function Targets(packages: seq<Record>, cut: set<string>): (r: seq<Record>)
    ensures forall p :: p in r <==> p in packages && !p.status.Deleted? && p.key.version in cut
  {
    if |packages| == 0 then []
    else
      var front, p := Targets(packages[..|packages| - 1], cut), packages[|packages| - 1];
      assert packages == packages[..|packages| - 1] + [p];
      if !p.status.Deleted? && p.key.version in cut then front + [p] else front
  }

  // The code

  /** Stands for the library sort: some order that is ascending, whatever it does with ties. */
  method SortVersions(vs: seq<string>) returns (r: seq<string>)
    requires Distinct(vs)
    ensures Distinct(r) && Elements(r) == Elements(vs)
    ensures OldestFirst(r)
  {
    hide CompareVersions;
    r := [];
    for i := 0 to |vs|
      invariant Distinct(r) && Elements(r) == Elements(vs[..i])
      invariant OldestFirst(r)
    {
      var v, j := vs[i], 0;
      while j < |r| && CompareVersions(r[j], v) <= 0
        invariant 0 <= j <= |r|
        invariant forall k | 0 <= k < j :: CompareVersions(r[k], v) <= 0
      {
        j := j + 1;
      }
      assert v !in Elements(vs[..i]);
      InsertKeepsOrder(r, j, v);
      assert Elements(r[..j] + [v] + r[j..]) == Elements(r) + {v} by {
        assert r == r[..j] + r[j..];
      }
      assert vs[..i + 1] == vs[..i] + [v];
      assert Elements(vs[..i + 1]) == Elements(vs[..i]) + {v};
      r := r[..j] + [v] + r[j..];
    }
    assert vs[..|vs|] == vs;
  }

  lemma InsertKeepsOrder(r: seq<string>, j: nat, v: string)
    requires j <= |r| && Distinct(r) && OldestFirst(r) && v !in Elements(r)
    requires forall k | 0 <= k < j :: CompareVersions(r[k], v) <= 0
    requires j < |r| ==> CompareVersions(r[j], v) > 0
    ensures Distinct(r[..j] + [v] + r[j..]) && OldestFirst(r[..j] + [v] + r[j..])
  {
    hide CompareVersions;
    var s := r[..j] + [v] + r[j..];
    assert forall k | 0 <= k < |r| :: r[k] in Elements(r);
    forall k | j <= k < |r| ensures CompareVersions(v, r[k]) <= 0 {
      CompareVersionsIsPreorder(v, r[j], r[k]);
      CompareVersionsIsPreorder(r[j], v, r[k]);
    }
    forall a, b | 0 <= a < b < |s| ensures s[a] != s[b] && CompareVersions(s[a], s[b]) <= 0 {
      assert s[a] == (if a < j then r[a] else if a == j then v else r[a - 1]);
      assert s[b] == (if b < j then r[b] else if b == j then v else r[b - 1]);
    }
  }

  method VersionsOf(packages: seq<Record>) returns (versions: seq<string>)
    ensures Distinct(versions) && Elements(versions) == VersionsIn(packages)
    ensures OldestFirst(versions)
  {
    versions := [];
    for i := 0 to |packages|
      invariant Distinct(versions) && Elements(versions) == VersionsIn(packages[..i])
    {
      var v := packages[i].key.version;
      assert packages[..i + 1] == packages[..i] + [packages[i]];
      assert VersionsIn(packages[..i + 1]) == VersionsIn(packages[..i]) + {v};
      if v !in versions {
        assert v !in Elements(versions);
        assert Elements(versions + [v]) == Elements(versions) + {v};
        versions := versions + [v];
      } else {
        assert v in Elements(versions);
      }
    }
    assert packages[..|packages|] == packages;
    versions := SortVersions(versions);
  }

  method Reverse(s: seq<string>) returns (r: seq<string>)
    ensures |r| == |s| && forall i | 0 <= i < |s| :: r[i] == s[|s| - 1 - i]
  {
    r := [];
    for i := 0 to |s|
      invariant |r| == i && forall j | 0 <= j < i :: r[j] == s[|s| - 1 - j]
    {
      r := r + [s[|s| - 1 - i]];
    }
  }

  /** The versions that are not deleted, newest first. */
  method Kept(packages: seq<Record>) returns (versions: seq<string>)
    ensures Distinct(versions) && Elements(versions) == KeptIn(packages)
    ensures NewestFirst(versions)
  {
    var rest := [];
    for i := 0 to |packages|
      invariant rest == NotDeleted(packages[..i])
    {
      assert packages[..i + 1][..i] == packages[..i];
      if !packages[i].status.Deleted? {
        rest := rest + [packages[i]];
      }
    }
    assert packages[..|packages|] == packages;
    var ascending := VersionsOf(rest);
    versions := Reverse(ascending);
    assert forall x :: x in versions <==> x in ascending by {
      assert forall i | 0 <= i < |ascending| :: ascending[i] == versions[|ascending| - 1 - i];
    }
  }

  lemma DistinctSplits<T>(s: seq<T>, n: nat)
    requires Distinct(s) && n <= |s|
    ensures Elements(s[n..]) <= Elements(s) && Elements(s) - Elements(s[n..]) == Elements(s[..n])
    ensures |Elements(s[..n])| == n
  {
    assert s == s[..n] + s[n..];
    forall x | x in s[..n] ensures x !in s[n..] {
      var i :| 0 <= i < n && s[i] == x;
      assert forall j | n <= j < |s| :: s[j] != x;
    }
    DistinctSize(s[..n]);
  }

  /** What follows the first keep of a newest-first list is a cut. */
  lemma TailIsCut(versions: seq<string>, keep: nat)
    requires Distinct(versions) && NewestFirst(versions) && 0 < keep <= |versions|
    ensures IsCut(Elements(versions), keep, Elements(versions[keep..]))
  {
    hide CompareVersions;
    DistinctSplits(versions, keep);
    DistinctSize(versions);
    forall c, v | c in versions[keep..] && v in versions[..keep] ensures CompareVersions(c, v) <= 0 {
      var j :| keep <= j < |versions| && versions[j] == c;
      var i :| 0 <= i < keep && versions[i] == v;
    }
  }

  /** The packages of versions older than the newest keep versions. */
  method Beyond(packages: seq<Record>, keep: int) returns (out: seq<Record>, ghost cut: set<string>)
    ensures IsCut(KeptIn(packages), keep, cut) && cut <= KeptIn(packages)
    ensures out == Targets(packages, cut)
    ensures out == [] <==> cut == {}
    ensures out == [] <==> keep <= 0 || |KeptIn(packages)| <= keep
  {
    hide CompareVersions, IsCut, KeptIn, NewestFirst;
    var versions := Kept(packages);
    DistinctSize(versions);
    out, cut := [], {};
    if keep <= 0 || |versions| <= keep {
      CutHasTargets(packages, {});
      NothingCut(KeptIn(packages), keep);
      return;
    }
    var beyondLimit := versions[keep..];
    cut := Elements(beyondLimit);
    TailIsCut(versions, keep);
    DistinctSplits(versions, keep);
    assert beyondLimit[0] in cut;
    for i := 0 to |packages|
      invariant out == Targets(packages[..i], cut)
    {
      assert packages[..i + 1][..i] == packages[..i];
      if !packages[i].status.Deleted? && packages[i].key.version in beyondLimit {
        out := out + [packages[i]];
      }
    }
    assert packages[..|packages|] == packages;
    CutHasTargets(packages, cut);
  }

  /** Every cut version has a package. */
  lemma CutHasTargets(packages: seq<Record>, cut: set<string>)
    requires cut <= KeptIn(packages)
    ensures Targets(packages, cut) == [] <==> cut == {}
  {
    if cut != {} {
      var v :| v in cut;
      var p :| p in NotDeleted(packages) && p.key.version == v;
      assert p in Targets(packages, cut);
    } else {
      NoTargets(packages);
    }
  }

  lemma {:induction false} NoTargets(packages: seq<Record>)
    ensures Targets(packages, {}) == []
  {
    if |packages| > 0 {
      NoTargets(packages[..|packages| - 1]);
    }
  }

  lemma NothingCut(versions: set<string>, keep: int)
    requires keep <= 0 || |versions| <= keep
    ensures IsCut(versions, keep, {})
  {
    assert versions - {} == versions;
  }

  lemma NewerCounts(versions: seq<string>, i: nat, version: string)
    requires Distinct(versions) && i < |versions|
    ensures |Newer(Elements(versions[..i + 1]), version)| ==
            |Newer(Elements(versions[..i]), version)| + (if CompareVersions(versions[i], version) > 0 then 1 else 0)
  {
    hide CompareVersions;
    var v, before, after := versions[i], Elements(versions[..i]), Elements(versions[..i + 1]);
    assert versions[..i + 1] == versions[..i] + [v];
    assert after == before + {v};
    assert v !in before;
    if CompareVersions(v, version) > 0 {
      assert Newer(after, version) == Newer(before, version) + {v};
    } else {
      assert Newer(after, version) == Newer(before, version);
    }
  }

  /** Whether adding version would leave it older than the newest keep versions. */
  method Outside(packages: seq<Record>, version: string, keep: int) returns (refused: bool)
    ensures refused == IsOutside(KeptIn(packages), version, keep)
  {
    hide CompareVersions;
    if keep <= 0 {
      return false;
    }
    var versions := Kept(packages);
    assert version in versions <==> version in Elements(versions);
    if version in versions {
      return false;
    }
    var newer := 0;
    for i := 0 to |versions|
      invariant newer == |Newer(Elements(versions[..i]), version)|
    {
      NewerCounts(versions, i, version);
      if CompareVersions(versions[i], version) > 0 {
        newer := newer + 1;
      }
    }
    assert versions[..|versions|] == versions;
    return newer >= keep;
  }
}
