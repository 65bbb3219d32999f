/** How admission, trimming and the sync client's selection fit together, whichever way ties fall. */
module Retention {
  import opened Versions
  import opened Inventory
  import opened Protocol
  import opened Limits

  // Trimming the records of one extension

  function KeptVersions(packages: Packages, id: string): set<string> {
    set k | k in packages && k.id == id && !packages[k].status.Deleted? :: k.version
  }

  /** The limit that applies to an extension: its own or the library's; 0 keeps every version. */
  function LimitOf(d: Durable, id: string): nat {
    if id in d.limits then d.limits[id] else d.keep
  }

  ghost predicate WithinLimit(d: Durable, id: string) {
    LimitOf(d, id) == 0 || |KeptVersions(d.packages, id)| <= LimitOf(d, id)
  }

  /** The records a trim of one extension deletes: every platform of every cut version. */
  function CutKeys(packages: Packages, id: string, cut: set<string>): set<Key> {
    set k | k in packages && k.id == id && !packages[k].status.Deleted? && k.version in cut
  }

  /**
   A trim is exact: with a limit, the extension keeps min(limit, before) versions, none of them older than a
   cut one, all platforms of a cut version go, and every other record stays as it was.
   */
  lemma TrimIsExact(packages: Packages, id: string, keep: int, cut: set<string>)
    requires keep > 0 && IsCut(KeptVersions(packages, id), keep, cut)
    ensures var after := MarkedDeleted(packages, CutKeys(packages, id, cut));
      && KeptVersions(after, id) == KeptVersions(packages, id) - cut
      && |KeptVersions(after, id)| ==
        (if |KeptVersions(packages, id)| <= keep then |KeptVersions(packages, id)| else keep)
      && (forall c, v | c in cut && v in KeptVersions(after, id) :: CompareVersions(c, v) <= 0)
      && (forall k | k in packages && k.id == id && k.version in cut :: after[k].status.Deleted?)
      && (forall k | k in packages && (k.id != id || k.version !in cut || packages[k].status.Deleted?) ::
        after[k] == packages[k])
  {
    hide CompareVersions;
    var after := MarkedDeleted(packages, CutKeys(packages, id, cut));
    assert KeptVersions(after, id) == KeptVersions(packages, id) - cut;
  }

  // Cuts that exist

  lemma {:induction false} NewestExists(versions: set<string>)
    requires versions != {}
    ensures exists m :: m in versions && forall v | v in versions :: CompareVersions(v, m) <= 0
    decreases |versions|
  {
    hide CompareVersions;
    var a :| a in versions;
    CompareVersionsIsPreorder(a, a, a);
    var rest := versions - {a};
    if rest == {} {
      assert versions == {a};
    } else {
      NewestExists(rest);
      var b :| b in rest && forall v | v in rest :: CompareVersions(v, b) <= 0;
      if CompareVersions(a, b) <= 0 {
        assert forall v | v in versions :: v == a || v in rest;
      } else {
        forall v | v in versions ensures CompareVersions(v, a) <= 0 {
          CompareVersionsIsPreorder(b, a, b);
          CompareVersionsIsPreorder(a, b, a);
          CompareVersionsIsPreorder(v, b, a);
        }
      }
    }
  }

  ghost predicate IsTop(versions: set<string>, n: nat, top: set<string>) {
    top <= versions && |top| == n && forall c, v | c in versions - top && v in top :: CompareVersions(c, v) <= 0
  }

  lemma {:induction false} TopExists(versions: set<string>, n: nat) returns (top: set<string>)
    requires n <= |versions|
    ensures IsTop(versions, n, top)
  {
    hide CompareVersions;
    if n == 0 {
      top := {};
    } else {
      NewestExists(versions);
      var m :| m in versions && forall v | v in versions :: CompareVersions(v, m) <= 0;
      var rest := TopExists(versions - {m}, n - 1);
      top := rest + {m};
      assert versions - top == (versions - {m}) - rest;
    }
  }

  lemma SubsetSize<T>(a: set<T>, b: set<T>)
    requires a <= b
    ensures |a| <= |b|
  {
    assert b == a + (b - a);
  }

  // Admission

  /** A version with fewer than keep newer ones can survive: some cut spares it. */
  lemma SparingCutExists(versions: set<string>, version: string, keep: int) returns (cut: set<string>)
    requires keep > 0 && version !in versions && |Newer(versions, version)| < keep
    ensures IsCut(versions + {version}, keep, cut) && version !in cut
  {
    hide CompareVersions;
    var all, newer := versions + {version}, Newer(versions, version);
    if |all| <= keep {
      NothingCut(all, keep);
      return {};
    }
    var rest := versions - newer;
    assert |rest| == |versions| - |newer| && |all| == |versions| + 1;
    var top := TopExists(rest, keep - |newer| - 1);
    cut := rest - top;
    var kept := newer + {version} + top;
    assert all - cut == kept;
    assert newer !! top && version !in newer + top;
    assert |kept| == |newer| + 1 + |top|;
    forall c, v | c in cut && v in kept ensures CompareVersions(c, v) <= 0 {
      if v !in top {
        CompareVersionsIsPreorder(version, v, version);
        CompareVersionsIsPreorder(v, version, v);
        CompareVersionsIsPreorder(c, version, v);
        CompareVersionsIsPreorder(version, version, version);
      }
    }
  }

  lemma SurvivorHasFewNewer(versions: set<string>, version: string, keep: int, cut: set<string>)
    requires keep > 0 && version !in versions
    requires IsCut(versions + {version}, keep, cut) && version !in cut
    ensures |Newer(versions, version)| < keep
  {
    hide CompareVersions;
    var kept, newer := versions + {version} - cut, Newer(versions, version);
    forall v | v in newer ensures v in kept {
      CompareVersionsIsPreorder(v, version, v);
    }
    SubsetSize(newer + {version}, kept);
    assert |newer + {version}| == |newer| + 1;
  }

  lemma CutHasManyAsNew(versions: set<string>, version: string, keep: int, cut: set<string>)
    requires keep > 0 && version !in versions
    requires IsCut(versions + {version}, keep, cut) && version in cut
    ensures |NewerOrTied(versions, version)| >= keep
  {
    hide CompareVersions;
    var all := versions + {version};
    var kept := all - cut;
    forall v | v in kept ensures v in NewerOrTied(versions, version) {
      CompareVersionsIsPreorder(version, v, version);
    }
    SubsetSize(kept, NewerOrTied(versions, version));
    assert all == kept + cut && |all| == |kept| + |cut|;
  }

  /** A refused version would be cut at once, whatever the sort does with ties; one let in can survive. */
  lemma OutsideMeansAlwaysCut(versions: set<string>, version: string, keep: int)
    requires keep > 0 && version !in versions
    ensures IsOutside(versions, version, keep) <==>
            forall cut | IsCut(versions + {version}, keep, cut) :: version in cut
  {
    hide CompareVersions;
    if IsOutside(versions, version, keep) {
      forall cut | IsCut(versions + {version}, keep, cut) ensures version in cut {
        if version !in cut {
          SurvivorHasFewNewer(versions, version, keep, cut);
        }
      }
    } else {
      var cut := SparingCutExists(versions, version, keep);
    }
  }

  /** A version can be cut only if keep others are as new. */
  lemma CuttingCutExists(versions: set<string>, version: string, keep: int) returns (cut: set<string>)
    requires keep > 0 && version !in versions && |NewerOrTied(versions, version)| >= keep
    ensures IsCut(versions + {version}, keep, cut) && version in cut
  {
    hide CompareVersions;
    var all, newer := versions + {version}, NewerOrTied(versions, version);
    var top := TopExists(newer, keep);
    cut := all - top;
    assert all - cut == top;
    SubsetSize(newer + {version}, all);
    forall c, v | c in cut && v in top ensures CompareVersions(c, v) <= 0 {
      if c !in newer {
        CompareVersionsIsPreorder(c, c, c);
        CompareVersionsIsPreorder(version, v, version);
        CompareVersionsIsPreorder(v, version, v);
        CompareVersionsIsPreorder(c, version, v);
      }
    }
  }

  /** An admitted version is safe from its own trim exactly when fewer than keep others are newer or tied. */
  lemma NeverCutExactly(versions: set<string>, version: string, keep: int)
    requires keep > 0 && version !in versions
    ensures |NewerOrTied(versions, version)| < keep <==>
            forall cut | IsCut(versions + {version}, keep, cut) :: version !in cut
  {
    hide CompareVersions;
    if |NewerOrTied(versions, version)| < keep {
      forall cut | IsCut(versions + {version}, keep, cut) ensures version !in cut {
        if version in cut {
          CutHasManyAsNew(versions, version, keep, cut);
        }
      }
    } else {
      var cut := CuttingCutExists(versions, version, keep);
    }
  }

  /** Without ties admission and trimming agree: a version is let in exactly when its own trim spares it. */
  lemma AdmittedMeansSpared(versions: set<string>, version: string, keep: int, cut: set<string>)
    requires keep > 0 && version !in versions && NoTies(versions + {version})
    requires IsCut(versions + {version}, keep, cut)
    ensures IsOutside(versions, version, keep) <==> version in cut
  {
    hide CompareVersions;
    assert NewerOrTied(versions, version) == Newer(versions, version);
    OutsideMeansAlwaysCut(versions, version, keep);
    NeverCutExactly(versions, version, keep);
  }

  /** Without ties a version is cut exactly when the limit's number of others are newer. */
  lemma CutExactly(versions: set<string>, version: string, keep: int, cut: set<string>)
    requires version in versions && NoTies(versions) && IsCut(versions, keep, cut)
    ensures version in cut <==> keep > 0 && |Newer(versions, version)| >= keep
  {
    hide CompareVersions;
    if keep > 0 {
      var others := versions - {version};
      CompareVersionsIsPreorder(version, version, version);
      assert others + {version} == versions && Newer(others, version) == Newer(versions, version);
      AdmittedMeansSpared(others, version, keep, cut);
    }
  }

  /** No cut version ties with a kept one. */
  ghost predicate Untied(versions: set<string>, cut: set<string>) {
    forall c, v | c in cut && v in versions - cut :: CompareVersions(c, v) != 0
  }

  lemma UntiedCutIsUnique(versions: set<string>, keep: int, cut: set<string>, other: set<string>)
    requires IsCut(versions, keep, cut) && IsCut(versions, keep, other) && Untied(versions, cut)
    ensures other == cut
  {
    hide CompareVersions;
    if keep > 0 && other != cut {
      SameSizeCuts(versions, keep, cut, other);
      var x :| x in cut - other;
      var y :| y in other - cut;
      CompareVersionsIsPreorder(x, y, x);
      CompareVersionsIsPreorder(y, x, y);
    }
  }

  /** A cut and a kept version that tie may change places. */
  lemma TiedVersionsSwap(versions: set<string>, keep: int, cut: set<string>, c: string, v: string)
    requires keep > 0 && IsCut(versions, keep, cut)
    requires c in cut && v in versions - cut && CompareVersions(c, v) == 0
    ensures IsCut(versions, keep, cut - {c} + {v})
  {
    hide CompareVersions;
    var kept, swapped := versions - cut, cut - {c} + {v};
    assert versions - swapped == kept - {v} + {c};
    forall a, b | a in swapped && b in versions - swapped ensures CompareVersions(a, b) <= 0 {
      CompareVersionsIsPreorder(v, c, v);
      CompareVersionsIsPreorder(a, v, b);
      CompareVersionsIsPreorder(v, c, b);
    }
  }

  /** There is only one way to cut exactly when no cut version ties with a kept one. */
  lemma CutIsUniqueExactly(versions: set<string>, keep: int, cut: set<string>)
    requires IsCut(versions, keep, cut)
    ensures Untied(versions, cut) <==> forall other | IsCut(versions, keep, other) :: other == cut
  {
    hide CompareVersions, IsCut;
    if Untied(versions, cut) {
      forall other | IsCut(versions, keep, other) ensures other == cut {
        UntiedCutIsUnique(versions, keep, cut, other);
      }
    } else {
      var c, v :| c in cut && v in versions - cut && CompareVersions(c, v) == 0;
      LimitedCut(versions, keep, cut);
      TiedVersionsSwap(versions, keep, cut, c, v);
      assert c in cut && c !in cut - {c} + {v};
    }
  }

  /** With one version to keep, two that tie can both be the one that is cut. */
  lemma TiesAllowTwoCuts(version: string, build1: string, build2: string)
    requires '+' !in version && IsBuildMetadata(build1) && IsBuildMetadata(build2) && build1 != build2
    ensures var a, b := version + "+" + build1, version + "+" + build2;
      a != b && IsCut({a, b}, 1, {a}) && IsCut({a, b}, 1, {b})
  {
    hide CompareVersions, IsBuildMetadata;
    var a, b := version + "+" + build1, version + "+" + build2;
    BuildMetadataTies(version, build1, build2);
    BuildMetadataTies(version, build2, build1);
    assert a[|version| + 1..] == build1 && b[|version| + 1..] == build2;
    assert {a, b} - {a} == {b} && {a, b} - {b} == {a};
  }

  lemma LimitedCut(versions: set<string>, keep: int, cut: set<string>)
    requires IsCut(versions, keep, cut) && cut != {}
    ensures keep > 0
  {
  }

  lemma SameSizeCuts(versions: set<string>, keep: int, a: set<string>, b: set<string>)
    requires keep > 0 && IsCut(versions, keep, a) && IsCut(versions, keep, b)
    ensures |a| == |b|
    ensures a != b ==> a - b != {} && b - a != {}
  {
    hide CompareVersions;
    assert versions == a + (versions - a) && versions == b + (versions - b);
    if a - b == {} {
      assert b == a + (b - a);
    }
    if b - a == {} {
      assert a == b + (a - b);
    }
  }
}
