/**
 Concrete states in which the manager falls short of its promises. The exact conditions are lemmas of the other
 modules.
 */
module Counterexamples {
  import opened Wrappers
  import opened Versions
  import opened Inventory
  import opened Protocol
  import opened Runs
  import opened Recovery
  import opened Guarantees
  import opened Limits
  import opened Retention
  import opened Interruption
  import opened Store
  import opened Summaries
  import opened Removal
  import opened Uploads
  import opened Catalog
  import opened LibraryLimit
  import opened Reconciling
  import Managing
  import Gate
  import opened ScanSteps

  // Two identities, one file name

  // Version 1.0.0 for linux-x64, and version 1.0.0-linux, which precedes it, for x64.
  const RELEASE := Key("a.b", "1.0.0", "linux" + "-" + "x64")
  const PRERELEASE := Key("a.b", "1.0.0" + "-" + "linux", "x64")
  const SHARED := CanonicalName(RELEASE)
  const RELEASE_BYTES := Digest("release", 5)
  const OTHER_BYTES := Digest("other", 4)

  /** A manager whose library is empty, after its first scan. */
  const EMPTY := Durable(map[], map[], {}, true, map[], map[], 0, map[])

  function ReleaseRecord(): Record { Record(RELEASE, RELEASE_BYTES, SHARED, Stored) }
  function PrereleaseRecord(status: Status): Record { Record(PRERELEASE, OTHER_BYTES, SHARED, status) }
  function ReleaseFile(): File { File(5, 100, Valid(RELEASE, RELEASE_BYTES)) }

  function AfterUpload(): Durable {
    EMPTY.(packages := map[RELEASE := ReleaseRecord()], files := map[SHARED := ReleaseFile()],
           disk := map[SHARED := ReleaseFile()], dirty := {RELEASE})
  }

  function AfterScan(): Durable { AfterUpload().(dirty := {}) }

  function AfterRefusal(): Durable {
    AfterScan().(packages := map[RELEASE := ReleaseRecord(), PRERELEASE := PrereleaseRecord(Pending)],
        dirty := {PRERELEASE})
  }

  function AfterDeletion(): Durable {
    EMPTY.(packages := map[RELEASE := ReleaseRecord(), PRERELEASE := PrereleaseRecord(Deleted)], dirty := {PRERELEASE})
  }

  lemma OneName()
    ensures CanonicalName(PRERELEASE) == SHARED && RELEASE != PRERELEASE && Bare(SHARED) && SHARED != ""
  {
    CanonicalNamesCollide("a.b", "1.0.0", "linux", "x64");
    assert '/' !in RELEASE.platform && '/' !in "a.b" && '/' !in "1.0.0";
  }

  ghost predicate Says(packages: Packages, k: Key, status: Status) {
    k in packages && packages[k].status == status
  }

  lemma NoLimitMeansNoCut(d: Durable, id: string, cut: set<string>, stuck: set<string>, forgets: bool, e: Durable)
    requires TrimsTo(d, id, cut, stuck, forgets, e) && LimitOf(d, id) == 0
    ensures e == d
  {
    hide CompareVersions;
  }

  lemma FirstUpload()
    ensures !RetentionRefuses(EMPTY, RELEASE) && !ContentConflicts(EMPTY, RELEASE, RELEASE_BYTES)
    ensures !InPlace(EMPTY, RELEASE) && Journaled(EMPTY, RELEASE, RELEASE_BYTES).filename !in EMPTY.disk
    ensures Accepted(EMPTY, RELEASE, RELEASE_BYTES, None, 100) == AfterUpload()
  {
    hide CanonicalName;
    var a := Accepted(EMPTY, RELEASE, RELEASE_BYTES, None, 100);
    assert a.packages == AfterUpload().packages;
    assert a.files == AfterUpload().files;
    assert a.dirty == AfterUpload().dirty;
  }

  lemma UploadIsScanned()
    ensures Covers(AfterUpload(), [RELEASE], [{SHARED}])
    ensures var s := Scan(AfterUpload(), false, [RELEASE], [{SHARED}]);
      && s == AfterScan() && s.trusted
      && Grown(Walk(AfterUpload(), [{SHARED}]).packages, s.packages) == {}
  {
    hide Walk, CanonicalName, Listing;
    var d := AfterUpload();
    ListsOne(SHARED);
    assert Copies(d.files, RELEASE) == map[SHARED := RELEASE_BYTES];
    assert Inv(d) by {
      assert SettledOrQueued(d, RELEASE);
    }
    assert Trusting(d);
    ScanReachesResult(d, false, [RELEASE], [{SHARED}]);
    assert Known(d.packages, d.disk, Listing([{SHARED}]));
    EnterAllKnown(d.packages, d.disk, Listing([{SHARED}]));
    SettledAlready();
    ScanKeepsOthers(d, [RELEASE], [{SHARED}]);
    assert ScannedRecords(d.packages, d.disk, Listing([{SHARED}])) == d.packages;
    assert ScannedDirectory(d.packages, d.disk) == d.disk;
  }

  lemma SettledAlready()
    ensures SettledRecord(ReleaseRecord(), AfterUpload().disk) == ReleaseRecord()
  {
    hide CanonicalName;
    var copies := Copies(AfterUpload().disk, RELEASE);
    assert copies == map[SHARED := RELEASE_BYTES];
    assert SHARED in copies && AllMatch(copies, RELEASE_BYTES);
  }

  lemma ListsOne(name: string)
    ensures ListedNames([{name}]) == {name}
  {
    assert [{name}][..0] == [];
    assert ListedNames([]) == {};
  }

  lemma {:induction false} WalkKeepsOthers(d: Durable, batches: seq<set<string>>)
    ensures var e := Walk(d, batches);
      && e.keep == d.keep && e.limits == d.limits && e.uploads == d.uploads && e.trusted == d.trusted
  {
    if |batches| > 0 {
      WalkKeepsOthers(d, batches[..|batches| - 1]);
    }
  }

  lemma ScanKeepsOthers(d: Durable, order: seq<Key>, batches: seq<set<string>>)
    requires d.trusted && forall k | k in order :: k in d.packages
    ensures var e := Scan(d, false, order, batches);
      && e.keep == d.keep && e.limits == d.limits && e.uploads == d.uploads && e.trusted == d.trusted
  {
    WalkKeepsOthers(d, batches);
  }

  lemma SecondUpload()
    ensures !RetentionRefuses(AfterScan(), PRERELEASE) && !ContentConflicts(AfterScan(), PRERELEASE, OTHER_BYTES)
    ensures !InPlace(AfterScan(), PRERELEASE)
        && Journaled(AfterScan(), PRERELEASE, OTHER_BYTES).filename in AfterScan().disk
    ensures JournalTx(AfterScan(), Journaled(AfterScan(), PRERELEASE, OTHER_BYTES)) == AfterRefusal()
  {
    OneName();
    hide CanonicalName;
  }

  lemma OneDotZeroIsRanked()
    ensures RankOf("1.0.0").Ranked?
  {
    NoCut("1.0.0", '+');
    NoCut("1.0.0", '-');
    assert "1.0.0"[1..] == ".0.0" && ".0.0"[1..] == "0.0" && "0.0"[1..] == ".0" && ".0"[1..] == "0" && "0"[1..] == "";
    assert SplitDots("0") == ["0"];
    assert SplitDots(".0") == ["", "0"];
    assert SplitDots("0.0") == ["0", "0"];
    assert SplitDots(".0.0") == ["", "0", "0"];
    assert SplitDots("1.0.0") == [['1'] + SplitDots(".0.0")[0]] + SplitDots(".0.0")[1..];
    assert ['1'] + "" == "1";
  }

  lemma PrereleaseIsOlderThanTheRelease()
    ensures CompareVersions(PRERELEASE.version, RELEASE.version) < 0 && PRERELEASE.version != RELEASE.version
  {
    hide CompareVersions, RankOf;
    OneDotZeroIsRanked();
    OnePart("linux");
    PrereleaseIsOlder("1.0.0", "linux");
    CompareVersionsIsPreorder(RELEASE.version, RELEASE.version, RELEASE.version);
  }

  lemma PrereleaseComesFirst()
    ensures CompareVersions(PRERELEASE.version, PRERELEASE.version) == 0
    ensures CompareVersions(RELEASE.version, PRERELEASE.version) > 0
  {
    hide CompareVersions;
    PrereleaseIsOlderThanTheRelease();
    CompareVersionsIsPreorder(PRERELEASE.version, RELEASE.version, PRERELEASE.version);
    CompareVersionsIsPreorder(RELEASE.version, PRERELEASE.version, RELEASE.version);
  }

  /** Deleting through 1.0.0-linux names the prerelease alone. */
  lemma OnlyThePrereleaseIsNamed()
    ensures Named(AfterRefusal().packages, "a.b", Some(PRERELEASE.version)) == {PRERELEASE}
  {
    hide CompareVersions, CanonicalName;
    OneName();
    PrereleaseComesFirst();
  }

  lemma TheReleaseLosesItsFile()
    ensures Removed(AfterRefusal(), {PRERELEASE}, {}, true) == AfterDeletion()
  {
    OneName();
    hide CanonicalName;
    var d, e := AfterRefusal(), Removed(AfterRefusal(), {PRERELEASE}, {}, true);
    assert d.packages[PRERELEASE].filename == SHARED;
    assert SHARED in NamesOf(d, {PRERELEASE});
    assert SHARED in Erasable(d, {PRERELEASE}, {});
    assert e.disk == map[] && e.files == map[];
    assert e.packages == AfterDeletion().packages;
  }

  /** A walk through an empty directory does nothing. */
  lemma {:induction false} NothingToWalk(d: Durable, batches: seq<set<string>>)
    requires d.disk == map[] && ListedNames(batches) == {}
    ensures Walk(d, batches) == d
  {
    if |batches| > 0 {
      var last := batches[|batches| - 1];
      assert last == {};
      NothingToWalk(d, batches[..|batches| - 1]);
      NothingRemembered(d.files, d.disk);
      NothingToVerify(d, {});
    }
  }

  /** The release stays stored though nothing holds it; routine scans do not notice, a full one does. */
  lemma NobodyNotices(order: seq<Key>, batches: seq<set<string>>)
    requires Covers(AfterDeletion(), order, batches)
    ensures !Inv(AfterDeletion())
    ensures Says(Scan(AfterDeletion(), false, order, batches).packages, RELEASE, Stored)
    ensures Says(Scan(AfterDeletion(), true, order, batches).packages, RELEASE, Missing)
  {
    OneName();
    hide CanonicalName, Walk, EnterAll;
    var e := AfterDeletion();
    assert Copies(e.files, RELEASE).Keys == {} && Copies(e.disk, RELEASE).Keys == {};
    assert !SettledOrQueued(e, RELEASE);
    NothingToWalk(e, batches);
    assert RELEASE in Scan(e, false, order, batches).packages;
    RecordAfterScan(e, true, order, batches, RELEASE);
  }

  /**
   A run of the manager, with no outside edit, that breaks the invariant: the release is uploaded and scanned; the
   prerelease is uploaded, but its file name is taken; then every version through the prerelease is deleted. That is the
   prerelease alone, yet the release's file goes and is forgotten.
   */
  method DeletingOneBreaksTheOther(db: Store)
    requires db.Valid() && db.State() == EMPTY
    modifies db
    ensures db.Valid() && old(db.trail) <= db.trail
    ensures db.State() == AfterDeletion() && Says(db.packages, RELEASE, Stored) && db.disk == map[]
    ensures !Inv(db.State())
    ensures forall order, batches | Covers(db.State(), order, batches) ::
              && Says(Scan(db.State(), false, order, batches).packages, RELEASE, Stored)
              && Says(Scan(db.State(), true, order, batches).packages, RELEASE, Missing)
  {
    hide IsRun, Store.Consistent, CanonicalName, Accepted, Journaled, RetentionRefuses, ContentConflicts, InPlace,
      AllPublishing, TrimsTo, Scan, Walk, TrimsSoFar, AtRest, AllAtRest, AllMidScan, Removed, Named, Inv, JournalTx,
      LimitOf, Prologue, KeysIn, MidScan, StatusChanges, Grown, TrimmedKeys, Sticks, Leftovers, DropVanished,
      AllOnTheWay, AfterUpload, AfterScan, AfterRefusal, AfterDeletion;
    UploadRelease(db);
    ScanRelease(db);
    UploadPrerelease(db);
    DeletePrerelease(db);
    DeletionLeaves();
    forall order, batches | Covers(db.State(), order, batches)
      ensures Says(Scan(db.State(), false, order, batches).packages, RELEASE, Stored)
      ensures Says(Scan(db.State(), true, order, batches).packages, RELEASE, Missing)
    {
      NobodyNotices(order, batches);
    }
  }

  lemma DeletionLeaves()
    ensures Says(AfterDeletion().packages, RELEASE, Stored) && AfterDeletion().disk == map[] && !Inv(AfterDeletion())
  {
    OneName();
    hide CanonicalName;
    var e := AfterDeletion();
    assert Copies(e.files, RELEASE).Keys == {};
    assert !SettledOrQueued(e, RELEASE);
  }

  method UploadRelease(db: Store)
    requires db.Valid() && db.State() == EMPTY
    modifies db
    ensures db.Valid() && old(db.trail) <= db.trail && db.State() == AfterUpload()
  {
    hide IsRun, Store.Consistent, CanonicalName, Accepted, Journaled, RetentionRefuses, ContentConflicts, InPlace,
      TrimsTo, AllPublishing, AllOnTheWay, JournalTx, Confirmed, AfterUpload;
    FirstUpload();
    var answer, cut := Upload(db, RELEASE, RELEASE_BYTES, None, 100, false, {}, true);
    assert answer.Created?;
    UploadHasNoLimit();
    NoLimitMeansNoCut(AfterUpload(), RELEASE.id, cut, {}, true, db.State());
  }

  lemma UploadHasNoLimit()
    ensures LimitOf(AfterUpload(), RELEASE.id) == 0 && LimitOf(AfterScan(), PRERELEASE.id) == 0
  {
  }

  method ScanRelease(db: Store)
    requires db.Valid() && db.State() == AfterUpload()
    modifies db
    ensures db.Valid() && old(db.trail) <= db.trail && db.State() == AfterScan()
  {
    hide IsRun, Store.Consistent, CanonicalName, Scan, Walk, Covers, TrimsSoFar, AtRest, AllAtRest, AllMidScan,
      MidScan, StatusChanges, Grown, TrimmedKeys, Sticks, Leftovers, DropVanished, AfterScan, AfterUpload, KeysIn,
      Prologue;
    UploadIsScanned();
    OneRow();
    NothingStuck();
    var ok, changed, settled, at, cuts := Reconcile(db, false, [Some(RELEASE)], [{SHARED}], 4096, {}, true);
    NothingTrimmed(AfterScan(), cuts, db.State());
  }

  lemma OneRow()
    ensures KeysIn([Some(RELEASE)]) == [RELEASE]
    ensures Prologue(AfterUpload(), false, [RELEASE]) == AfterUpload()
  {
    assert [Some(RELEASE)][..0] == [];
  }

  lemma NothingStuck()
    ensures forall n, disk :: !Sticks(n, disk, {})
  {
  }

  lemma NothingTrimmed(d: Durable, cuts: map<string, set<string>>, s: Durable)
    requires TrimsSoFar(d.(trusted := true), cuts, {}, s) && d.trusted
    ensures s == d
  {
    hide AreCuts, Trimmed;
    assert cuts.Keys == {} by { CutsHaveKeys(d.(trusted := true), cuts); }
    assert TrimmedKeys(d.packages, cuts) == {};
  }

  lemma CutsHaveKeys(d: Durable, cuts: map<string, set<string>>)
    requires AreCuts(d, {}, cuts)
    ensures cuts.Keys == {}
  {
  }

  method UploadPrerelease(db: Store)
    requires db.Valid() && db.State() == AfterScan()
    modifies db
    ensures db.Valid() && old(db.trail) <= db.trail && db.State() == AfterRefusal()
  {
    hide IsRun, Store.Consistent, CanonicalName, Accepted, Journaled, RetentionRefuses, ContentConflicts, InPlace,
      TrimsTo, AllPublishing, AllOnTheWay, JournalTx, Confirmed, AfterScan, AfterRefusal;
    SecondUpload();
    var answer, cut := Upload(db, PRERELEASE, OTHER_BYTES, None, 200, false, {}, true);
    assert answer == Refused(PublicationFailed);
  }

  method DeletePrerelease(db: Store)
    requires db.Valid() && db.State() == AfterRefusal()
    modifies db
    ensures db.Valid() && old(db.trail) <= db.trail && db.State() == AfterDeletion()
  {
    hide IsRun, Store.Consistent, CanonicalName, Named, Removed, AllOnTheWay, AfterRefusal, AfterDeletion, SizeSum,
      Stuck, NamesOf;
    OnlyThePrereleaseIsNamed();
    TheReleaseLosesItsFile();
    var answer := DeleteVersions(db, "a.b", Some(PRERELEASE.version), false, {}, true);
  }

  // An upload whose own trim takes its file

  /** One version may be kept. */
  const LIMITED := EMPTY.(keep := 1)

  function AfterFailedLink(): Durable {
    LIMITED.(packages := map[PRERELEASE := PrereleaseRecord(Pending)], dirty := {PRERELEASE})
  }

  function BeforeTrim(): Durable {
    LIMITED.(packages := map[PRERELEASE := PrereleaseRecord(Pending), RELEASE := ReleaseRecord()],
             files := map[SHARED := ReleaseFile()], disk := map[SHARED := ReleaseFile()],
             dirty := {RELEASE, PRERELEASE})
  }

  function AfterTrim(): Durable {
    LIMITED.(packages := map[PRERELEASE := PrereleaseRecord(Deleted), RELEASE := ReleaseRecord()],
             dirty := {RELEASE, PRERELEASE})
  }

  lemma NothingOver()
    ensures Over(EMPTY.packages, EMPTY.limits, 1) == {}
  {
  }

  lemma FailingUpload()
    ensures !RetentionRefuses(LIMITED, PRERELEASE) && !ContentConflicts(LIMITED, PRERELEASE, OTHER_BYTES)
    ensures !InPlace(LIMITED, PRERELEASE)
    ensures JournalTx(LIMITED, Journaled(LIMITED, PRERELEASE, OTHER_BYTES)) == AfterFailedLink()
  {
    hide CompareVersions, CanonicalName;
    OneName();
    assert KeptVersions(LIMITED.packages, "a.b") == {};
  }

  lemma ReleaseIsLetIn()
    ensures !RetentionRefuses(AfterFailedLink(), RELEASE)
    ensures !ContentConflicts(AfterFailedLink(), RELEASE, RELEASE_BYTES) && !InPlace(AfterFailedLink(), RELEASE)
    ensures Journaled(AfterFailedLink(), RELEASE, RELEASE_BYTES).filename !in AfterFailedLink().disk
    ensures Accepted(AfterFailedLink(), RELEASE, RELEASE_BYTES, None, 100) == BeforeTrim()
  {
    hide CompareVersions, CanonicalName;
    OneName();
    PrereleaseComesFirst();
    PrereleaseIsOlderThanTheRelease();
    var d := AfterFailedLink();
    assert KeptVersions(d.packages, "a.b") <= {PRERELEASE.version};
    assert Newer(KeptVersions(d.packages, "a.b"), RELEASE.version) == {};
    var a := Accepted(d, RELEASE, RELEASE_BYTES, None, 100);
    assert a.packages == BeforeTrim().packages;
    assert a.files == BeforeTrim().files;
    assert a.dirty == BeforeTrim().dirty;
  }

  /** The prerelease is cut, though it has no file; its name is the release's. */
  lemma TheTrimTakesTheFile(cut: set<string>, e: Durable)
    requires TrimsTo(BeforeTrim(), RELEASE.id, cut, {}, true, e)
    ensures cut == {PRERELEASE.version} && e == AfterTrim()
  {
    hide IsCut, CutKeys, KeptVersions, Removed, BeforeTrim, AfterTrim;
    BothAreKept();
    LimitIsOne();
    ThePrereleaseIsCut(cut);
    ThePrereleaseIsTheTarget();
    TheTrimmedState();
  }

  lemma LimitIsOne()
    ensures LimitOf(BeforeTrim(), RELEASE.id) == 1
  {
  }

  lemma ThePrereleaseIsCut(cut: set<string>)
    requires IsCut({PRERELEASE.version, RELEASE.version}, 1, cut)
    ensures cut == {PRERELEASE.version}
  {
    hide CompareVersions;
    PrereleaseComesFirst();
    PrereleaseIsOlderThanTheRelease();
    var versions := {PRERELEASE.version, RELEASE.version};
    assert Newer(versions, PRERELEASE.version) == {RELEASE.version};
    assert Newer(versions, RELEASE.version) == {} by {
      CompareVersionsIsPreorder(RELEASE.version, RELEASE.version, RELEASE.version);
    }
    CutExactly(versions, PRERELEASE.version, 1, cut);
    CutExactly(versions, RELEASE.version, 1, cut);
  }

  lemma ThePrereleaseIsTheTarget()
    ensures CutKeys(BeforeTrim().packages, RELEASE.id, {PRERELEASE.version}) == {PRERELEASE}
  {
    hide CanonicalName;
    PrereleaseIsOlderThanTheRelease();
  }

  lemma BothAreKept()
    ensures KeptVersions(BeforeTrim().packages, "a.b") == {PRERELEASE.version, RELEASE.version}
  {
    var packages := BeforeTrim().packages;
    assert RELEASE in packages && PRERELEASE in packages;
  }

  lemma TheTrimmedState()
    ensures Removed(BeforeTrim(), {PRERELEASE}, {}, true) == AfterTrim()
  {
    OneName();
    hide CanonicalName;
    var d, e := BeforeTrim(), Removed(BeforeTrim(), {PRERELEASE}, {}, true);
    assert d.packages[PRERELEASE].filename == SHARED;
    assert SHARED in NamesOf(d, {PRERELEASE}) && SHARED in Erasable(d, {PRERELEASE}, {});
    assert e.disk == map[] && e.files == map[];
    assert e.packages == AfterTrim().packages;
  }

  lemma TheReleaseIsMissing(full: bool, order: seq<Key>, batches: seq<set<string>>)
    requires Covers(AfterTrim(), order, batches)
    ensures Says(Scan(AfterTrim(), full, order, batches).packages, RELEASE, Missing)
  {
    OneName();
    hide CanonicalName, Scan;
    var e := AfterTrim();
    assert Copies(e.disk, RELEASE).Keys == {};
    RecordAfterScan(e, full, order, batches, RELEASE);
  }

  /**
   A run of the manager, with no outside edit, in which an upload is answered 201 and recorded as stored while nothing
   holds it: one version may be kept; the prerelease is uploaded, but its file cannot be linked; then the release is
   uploaded, under the same file name. Its trim cuts the prerelease, and with it the release's file.
   */
  method UploadLosesItsOwnFile(db: Store) returns (answer: Answer)
    requires db.Valid() && db.State() == EMPTY
    modifies db
    ensures db.Valid() && old(db.trail) <= db.trail
    ensures answer.Created? && Elements(answer.removed) == {PRERELEASE.version}
    ensures db.State() == AfterTrim() && Says(db.packages, RELEASE, Stored) && db.disk == map[]
    ensures forall full, order, batches | Covers(db.State(), order, batches) ::
              Says(Scan(db.State(), full, order, batches).packages, RELEASE, Missing)
  {
    hide IsRun, Store.Consistent, CanonicalName, Accepted, Journaled, RetentionRefuses, ContentConflicts, InPlace,
      TrimsTo, AllPublishing, AllOnTheWay, JournalTx, Confirmed, TrimsSoFar, ReportsAll, IsCut, KeptVersions, Over,
      WithinLimit, Deletable, AllInService, Scan, AfterFailedLink, BeforeTrim, AfterTrim;
    var _, cuts := SetLibraryLimit(db, 1, false, {}, true);
    NothingOver();
    NothingIsTrimmed(LIMITED, cuts, db.State());
    FailingUpload();
    var refusal, _ := Upload(db, PRERELEASE, OTHER_BYTES, None, 100, true, {}, true);
    ReleaseIsLetIn();
    ghost var cut;
    answer, cut := Upload(db, RELEASE, RELEASE_BYTES, None, 100, false, {}, true);
    TheTrimTakesTheFile(cut, db.State());
    TrimLeaves();
    forall full, order, batches | Covers(db.State(), order, batches)
      ensures Says(Scan(db.State(), full, order, batches).packages, RELEASE, Missing)
    {
      TheReleaseIsMissing(full, order, batches);
    }
  }

  lemma TrimLeaves()
    ensures Says(AfterTrim().packages, RELEASE, Stored) && AfterTrim().disk == map[]
  {
  }

  lemma NothingIsTrimmed(d: Durable, cuts: map<string, set<string>>, s: Durable)
    requires TrimsSoFar(d, cuts, {}, s) && cuts.Keys == {}
    ensures s == d
  {
    hide AreCuts, Trimmed;
    assert TrimmedKeys(d.packages, cuts) == {};
  }

  // A verification that fails behind an open gate

  /** The release is deleted, but its file cannot be removed. */
  function AfterStuckDeletion(): Durable {
    AfterUpload().(packages := map[RELEASE := ReleaseRecord().(status := Deleted)])
  }

  lemma EmptyIsReconciled(cuts: map<string, set<string>>, changed: nat, e: Durable)
    requires ReconcilesTo(EMPTY, false, [], [], cuts, changed, e)
    ensures e == EMPTY
  {
    hide TrimsSoFar;
    assert DropVanished(EMPTY) == EMPTY by { assert EMPTY.files - {} == EMPTY.files; }
    assert EMPTY.disk - Leftovers(EMPTY, {}) == EMPTY.disk && EMPTY.files - Leftovers(EMPTY, {}) == EMPTY.files;
    assert SettleTx(EMPTY, {}) == EMPTY;
    assert Grown(EMPTY.packages, EMPTY.packages) == {};
    NothingTrimmed(EMPTY, cuts, e);
  }

  lemma EmptyIsCovered()
    ensures KeysIn([]) == [] && Covers(EMPTY, [], [])
    ensures GoesThrough(EMPTY, false, [], [], {})
  {
    NothingStuck();
  }

  lemma EverythingIsNamed()
    ensures Named(AfterUpload().packages, "a.b", None) == {RELEASE}
    ensures Removed(AfterUpload(), {RELEASE}, {SHARED}, true) == AfterStuckDeletion()
  {
    hide CanonicalName;
    var d := AfterUpload();
    assert NamesOf(d, {RELEASE}) == {SHARED};
    assert Erasable(d, {RELEASE}, {SHARED}) == {};
    assert d.disk - {} == d.disk && d.files - {} == d.files;
    assert MarkedDeleted(d.packages, {RELEASE}) == AfterStuckDeletion().packages;
  }

  /** A full scan finds every leftover of a deleted record. */
  lemma LeftoverIsFound(d: Durable, order: seq<Key>, batches: seq<set<string>>, n: string)
    requires WellFormed(d) && Covers(d, order, batches) && n in d.disk && Condemned(d.packages, d.disk[n].contents)
    ensures var x := DropVanished(Walk(Prologue(d, true, order), batches));
      n in Leftovers(x, x.dirty)
  {
    hide Walk, EnterAll, TrustsFiles, Ready;
    PrologueIsReady(d, true, order);
    var p, w := Prologue(d, true, order), Walk(Prologue(d, true, order), batches);
    WalkIsAccurate(p, batches);
    DropVanishedIsAccurate(w);
    EnterAllKeeps(p.packages, p.disk, Listing(batches));
    WalkKeepsQueue(p, batches);
    var x := DropVanished(w);
    assert w.dirty <= x.dirty && x.packages == w.packages;
    assert Condemned(x.packages, x.files[n].contents);
  }

  /** The leftover of the release is seen again, and cannot be removed. */
  lemma VerificationFails()
    ensures Covers(AfterStuckDeletion(), [RELEASE], [{SHARED}])
    ensures !GoesThrough(AfterStuckDeletion(), true, [RELEASE], [{SHARED}], {SHARED})
    ensures MayScan(AfterStuckDeletion(), true)
  {
    hide CanonicalName, Walk, Leftovers, DropVanished;
    ListsOne(SHARED);
    LeftoverIsFound(AfterStuckDeletion(), [RELEASE], [{SHARED}], SHARED);
    assert Sticks(SHARED, AfterStuckDeletion().disk, {SHARED});
  }

  lemma {:induction false} WalkKeepsQueue(d: Durable, batches: seq<set<string>>)
    ensures d.dirty <= Walk(d, batches).dirty
  {
    if |batches| > 0 {
      WalkKeepsQueue(d, batches[..|batches| - 1]);
    }
  }

  /** No state of a full scan trusts the remembered files. */
  lemma FullScanTrustsNothing(d: Durable, s: Durable, order: seq<Key>, batches: seq<set<string>>)
    requires Covers(d, order, batches) && MidScan(d, true, s, order, batches)
    ensures !s.trusted
  {
    hide Walk, DropVanished, SettleTx, Leftovers;
    var p := Prologue(d, true, order);
    WalkKeepsFlags(p, batches);
    if Walking(d, true, s, order, batches) {
      var j :| 0 <= j <= |batches| && s == Walked(d, true, order, batches[..j]);
      WalkKeepsFlags(p, batches[..j]);
    } else if Settling(d, true, s, order, batches) {
      var x := DropVanished(Walked(d, true, order, batches));
      var keys, gone :| keys <= x.dirty && Leftovers(x, keys) <= gone <= Leftovers(x, x.dirty)
          && s == PartlySettled(x, keys, gone);
      assert x.trusted == s.trusted by { SettlingKeepsTrust(x, keys, gone); }
      assert !x.trusted by { DroppingKeepsTrust(Walked(d, true, order, batches)); }
    }
  }

  lemma SettlingKeepsTrust(x: Durable, keys: set<Key>, gone: set<string>)
    ensures PartlySettled(x, keys, gone).trusted == x.trusted
  {
  }

  lemma DroppingKeepsTrust(w: Durable)
    ensures DropVanished(w).trusted == w.trusted
  {
  }

  /**
   A run with no outside edit in which the gate stays open although a full reconciliation has failed: the release is
   uploaded and deleted, but its file cannot be removed; a verification forgets all files and stops at that file.
   The remembered files are not trusted then, yet requests are served, and find what they need.
   */
  method FailedVerificationLeavesGateOpen(db: Store) returns (m: Managing.Manager)
    requires db.Valid() && db.State() == EMPTY
    modifies db
    ensures fresh(m) && m.Valid() && m.db == db && old(db.trail) <= db.trail
    ensures m.gate == Gate.GateState(Gate.Ready, map[]) && !db.trusted
    ensures m.standing == Usable
  {
    hide Store.Valid, Managing.Manager.Valid, AfterStuckDeletion, Covers, KeysIn, GoesThrough, ReconcilesTo, AllMidScan,
      InService, AllInService, MayScan, Quiet, Managing.Sound, Managing.Reconciled;
    m := StuckDeletion(db);
    VerificationFails();
    OneRow();
    var admitted := m.Arrive(0);
    ghost var d, from := db.State(), |db.trail|;
    var count, _ := m.Retry(0, true, [Some(RELEASE)], [{SHARED}], 4096, {SHARED}, true);
    StoreIsValid(m);
    TrustIsGone(db, d, [RELEASE], [{SHARED}], from);
    m.Finish(0);
  }

  method StuckDeletion(db: Store) returns (m: Managing.Manager)
    requires db.Valid() && db.State() == EMPTY
    modifies db
    ensures fresh(m) && m.Valid() && m.db == db && old(db.trail) <= db.trail
    ensures m.gate == Gate.GateState(Gate.Ready, map[]) && db.State() == AfterStuckDeletion()
  {
    hide Store.Valid, Managing.Manager.Valid, CanonicalName, ReconcilesTo, GoesThrough, Covers, KeysIn, InService,
      AllInService, AllMidScan, Named, Removed, AfterUpload, AfterStuckDeletion, RetentionRefuses, ContentConflicts,
      InPlace, Accepted, Confirmed, Journaled, JournalTx, TrimsTo, NamesApart, MayScan, LimitOf, Quiet, Stuck, NamesOf,
      SizeSum, StoredAmong, VersionsOfKeys, Managing.Sound, Managing.Reconciled;
    m := new Managing.Manager(db);
    EmptyIsCovered();
    ghost var changed, cuts := m.Startup([], [], 4096, {}, true);
    EmptyIsReconciled(cuts, changed, db.State());
    FirstUpload();
    var answer, cut := m.Upload(RELEASE, RELEASE_BYTES, None, 100, false, {}, true);
    UploadHasNoLimit();
    NoLimitMeansNoCut(AfterUpload(), RELEASE.id, cut, {}, true, db.State());
    EverythingIsNamed();
    var reply := m.DeleteVersions("a.b", None, false, {SHARED}, true);
  }

  lemma StoreIsValid(m: Managing.Manager)
    requires m.Valid()
    ensures m.db.Valid()
  {
  }

  lemma TrustIsGone(db: Store, d: Durable, order: seq<Key>, batches: seq<set<string>>, from: nat)
    requires db.Valid() && Covers(d, order, batches) && from < |db.trail|
    requires AllMidScan(d, true, order, batches, db.trail, from)
    ensures !db.trusted
  {
    hide MidScan, IsRun, Store.Consistent;
    FullScanTrustsNothing(d, db.State(), order, batches);
  }

  // An upload over a deleted package

  const OTHER := "other.vsix"

  function OtherFile(): File { File(4, 100, Valid(RELEASE, OTHER_BYTES)) }

  /** The release has been deleted; a file with other bytes under its identity was left in place, as it should be. */
  function Leftover(): Durable {
    EMPTY.(packages := map[RELEASE := ReleaseRecord().(status := Deleted)], files := map[OTHER := OtherFile()],
        disk := map[OTHER := OtherFile()])
  }

  lemma LeftoverIsFine()
    ensures Inv(Leftover()) && Recoverable(Leftover()) && Tracked(Leftover())
    ensures Uploadable(Leftover(), Journaled(Leftover(), RELEASE, RELEASE_BYTES), Uploaded(RELEASE, RELEASE_BYTES, 200))
    ensures !ContentConflicts(Leftover(), RELEASE, RELEASE_BYTES) && !InPlace(Leftover(), RELEASE)
        && !RetentionRefuses(Leftover(), RELEASE)
  {
    var d := Leftover();
    assert Copies(d.files, RELEASE) == map[OTHER := OTHER_BYTES];
    assert SettledOrQueued(d, RELEASE);
  }

  /** Uploading it again is let in, answered 201 and recorded as stored, yet the next scan calls it a conflict. */
  lemma AcceptedYetConflicting(full: bool, order: seq<Key>, batches: seq<set<string>>)
    requires Covers(Accepted(Leftover(), RELEASE, RELEASE_BYTES, None, 200), order, batches)
    ensures Says(Accepted(Leftover(), RELEASE, RELEASE_BYTES, None, 200).packages, RELEASE, Stored)
    ensures Says(Scan(Accepted(Leftover(), RELEASE, RELEASE_BYTES, None, 200), full, order, batches).packages,
        RELEASE, Conflict)
  {
    hide Scan, Walk;
    var d := Leftover();
    var p, file := Journaled(d, RELEASE, RELEASE_BYTES), Uploaded(RELEASE, RELEASE_BYTES, 200);
    LeftoverIsFine();
    PublishedIsRecoverable(d, p, file, 200);
    var s := Accepted(d, RELEASE, RELEASE_BYTES, None, 200);
    assert s == Published(d, p, file, 200);
    RecordAfterScan(s, full, order, batches, RELEASE);
    assert OTHER in Copies(s.disk, RELEASE) && Copies(s.disk, RELEASE)[OTHER] == OTHER_BYTES;
  }

  // A trim lost to an interruption

  const OLDER := Key("a.b", "1.0.0", "x64")
  const NEWER := Key("a.b", "2.0.0", "x64")

  function OlderFile(): File { File(5, 100, Valid(OLDER, RELEASE_BYTES)) }
  function NewerFile(): File { File(4, 100, Valid(NEWER, OTHER_BYTES)) }

  /**
   One version may be kept. It is stored, and a newer one has been linked but not published when the process stopped.
   */
  function TwoVersions(): Durable {
    EMPTY.(packages := map[OLDER := Record(OLDER, RELEASE_BYTES, "older.vsix", Stored),
        NEWER := Record(NEWER, OTHER_BYTES, "newer.vsix", Pending)],
           files := map["older.vsix" := OlderFile()],
           disk := map["older.vsix" := OlderFile(), "newer.vsix" := NewerFile()],
           dirty := {NEWER}, keep := 1)
  }

  lemma CopiesOfTwo()
    ensures Copies(TwoVersions().disk, OLDER) == map["older.vsix" := RELEASE_BYTES]
    ensures Copies(TwoVersions().disk, NEWER) == map["newer.vsix" := OTHER_BYTES]
    ensures Copies(TwoVersions().files, OLDER) == map["older.vsix" := RELEASE_BYTES]
    ensures OLDER.version != NEWER.version && OLDER != NEWER
  {
    assert OLDER.version[0] != NEWER.version[0];
  }

  lemma TwoVersionsAreFine()
    ensures var d := TwoVersions(); Inv(d) && Trusting(d) && d.trusted
  {
    hide Copies;
    CopiesOfTwo();
    var d := TwoVersions();
    forall k | k in d.packages ensures SettledOrQueued(d, k) {
      if k == OLDER {
        assert "older.vsix" in Copies(d.files, OLDER) && AllMatch(Copies(d.files, OLDER), RELEASE_BYTES);
      }
    }
  }

  lemma BothAreStored(order: seq<Key>, batches: seq<set<string>>)
    requires Covers(TwoVersions(), order, batches)
    ensures var d, s := TwoVersions(), Scan(TwoVersions(), false, order, batches);
      && Walked(d, false, order, batches).packages == d.packages
      && s.packages == map[OLDER := d.packages[OLDER], NEWER := d.packages[NEWER].(status := Stored)]
      && LimitOf(s, "a.b") == 1
  {
    hide Scan, Walk, Listing, Inv, Trusting, Copies;
    TwoVersionsAreFine();
    CopiesOfTwo();
    var d := TwoVersions();
    ScanReachesResult(d, false, order, batches);
    assert Known(d.packages, d.disk, Listing(batches));
    EnterAllKnown(d.packages, d.disk, Listing(batches));
    assert "older.vsix" in Copies(d.disk, OLDER) && AllMatch(Copies(d.disk, OLDER), RELEASE_BYTES);
    assert "newer.vsix" in Copies(d.disk, NEWER) && AllMatch(Copies(d.disk, NEWER), OTHER_BYTES);
    assert d.packages[OLDER].key == OLDER && d.packages[NEWER].key == NEWER;
    ScanKeepsOthers(d, order, batches);
  }

  /**
   A first scan stores NEWER and then stops before it trims. The next scan leaves both versions stored, beyond the
   limit, whereas an uninterrupted scan would have cut one of them.
   */
  lemma InterruptionKeepsTooMany(order: seq<Key>, batches: seq<set<string>>, order2: seq<Key>,
                                 batches2: seq<set<string>>)
    requires Covers(TwoVersions(), order, batches)
    requires Covers(Scan(TwoVersions(), false, order, batches), order2, batches2)
    ensures var s := Scan(TwoVersions(), false, order, batches);
      && MidScan(TwoVersions(), false, s, order, batches)
      && Scan(s, false, order2, batches2).packages == s.packages
      && Says(s.packages, OLDER, Stored) && Says(s.packages, NEWER, Stored)
      && Grown(Walked(TwoVersions(), false, order, batches).packages, s.packages) == {"a.b"}
      && Grown(Walked(s, false, order2, batches2).packages, s.packages) == {}
      && !WithinLimit(s, "a.b")
  {
    hide Scan, Walk, Quiet, Inv, Trusting;
    CopiesOfTwo();
    var d, s := TwoVersions(), Scan(TwoVersions(), false, order, batches);
    TwoVersionsAreFine();
    BothAreStored(order, batches);
    ScanIsItsLastStep(d, false, order, batches);
    SettledScanIsDone(d, false, order, batches, false, order2, batches2);
    NoChange(s.packages);
    assert NEWER in s.packages && !d.packages[NEWER].status.Stored?;
    assert KeptVersions(s.packages, "a.b") == {OLDER.version, NEWER.version};
  }
}
