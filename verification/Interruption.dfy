/**
 A scan stopped after any committed step and run again from the start: found, seen and grew are
 lost, yet records, remembered files and directory end as after one uninterrupted scan. Only the trims that
 grew would have asked for can get lost; InterruptionLosesTrims says exactly when.
 */
module Interruption {
  import opened Text
  import opened Versions
  import opened Inventory
  import opened Protocol
  import opened Runs
  import opened Recovery
  import opened Limits
  import opened Retention

  // The committed states of a scan

  function Walked(d: Durable, full: bool, order: seq<Key>, batches: seq<set<string>>): Durable
    requires forall k | k in order :: k in d.packages
  {
    Walk(Prologue(d, full, order), batches)
  }

  /** Some queued records are settled, and leftovers have gone from the directory, at least those of settled records. */
  function PartlySettled(x: Durable, keys: set<Key>, gone: set<string>): Durable {
    SettleTx(x.(disk := x.disk - gone), keys)
  }

  ghost predicate Adopting(d: Durable, s: Durable, order: seq<Key>)
    requires forall k | k in order :: k in d.packages
  {
    !d.trusted && exists i | 0 <= i <= |order| :: s == AdoptTx(d, order[..i])
  }

  ghost predicate Walking(d: Durable, full: bool, s: Durable, order: seq<Key>, batches: seq<set<string>>)
    requires forall k | k in order :: k in d.packages
  {
    exists j | 0 <= j <= |batches| :: s == Walked(d, full, order, batches[..j])
  }

  ghost predicate Dropping(d: Durable, full: bool, s: Durable, order: seq<Key>, batches: seq<set<string>>)
    requires forall k | k in order :: k in d.packages
  {
    exists names | names <= Walked(d, full, order, batches).files.Keys && names !! d.disk.Keys ::
      s == DropTx(Walked(d, full, order, batches), names)
  }

  ghost predicate Settling(d: Durable, full: bool, s: Durable, order: seq<Key>, batches: seq<set<string>>)
    requires forall k | k in order :: k in d.packages
  {
    var x := DropVanished(Walked(d, full, order, batches));
    exists keys, gone | keys <= x.dirty && Leftovers(x, keys) <= gone <= Leftovers(x, x.dirty) ::
      s == PartlySettled(x, keys, gone)
  }

  /** s is a state in which a scan of d can stop. */
  ghost predicate MidScan(d: Durable, full: bool, s: Durable, order: seq<Key>, batches: seq<set<string>>)
    requires forall k | k in order :: k in d.packages
  {
    (!full && Adopting(d, s, order)) || Walking(d, full, s, order, batches) || Dropping(d, full, s, order, batches)
        || Settling(d, full, s, order, batches)
  }

  /** A scan of the same kind may start again from s, and its result is the one d promised. */
  ghost predicate Resumes(d: Durable, full: bool, s: Durable, listing: seq<string>) {
    && Inv(s) && (full || Trusting(s))
    && ScannedRecords(s.packages, s.disk, listing) == ScannedRecords(d.packages, d.disk, listing)
    && ScannedDirectory(s.packages, s.disk) == ScannedDirectory(d.packages, d.disk)
  }

  lemma {:induction false} ListedNamesGrow(batches: seq<set<string>>, j: nat)
    requires j <= |batches|
    ensures ListedNames(batches[..j]) <= ListedNames(batches)
  {
    if j < |batches| {
      var front := batches[..|batches| - 1];
      ListedNamesGrow(front, j);
      assert front[..j] == batches[..j];
    } else {
      assert batches[..j] == batches;
    }
  }

  lemma {:induction false} ListingSplits(batches: seq<set<string>>, j: nat)
    requires j <= |batches|
    ensures Listing(batches) == Listing(batches[..j]) + Listing(batches[j..])
  {
    var head, tail := batches[..j], batches[j..];
    if |tail| == 0 {
      assert head == batches;
    } else {
      var front := batches[..|batches| - 1];
      ListingSplits(front, j);
      assert front[..j] == head;
      assert tail[..|tail| - 1] == front[j..];
      assert tail[|tail| - 1] == batches[|batches| - 1];
    }
  }

  lemma ReadyIsInv(s: Durable)
    requires Ready(s)
    ensures Inv(s)
  {
    forall k | k in s.packages ensures SettledOrQueued(s, k) {
      assert QueuedOrAgrees(s, k);
    }
  }

  /** New records are pending, so the walk adds nothing that adoption would have to trust. */
  lemma {:induction false} WalkKeepsTrustInRecords(d: Durable, batches: seq<set<string>>)
    requires TrustsRecords(d) && ListedNames(batches) <= d.disk.Keys
    ensures TrustsRecords(Walk(d, batches)) && Walk(d, batches).disk == d.disk && Walk(d, batches).trusted == d.trusted
  {
    if |batches| > 0 {
      var w := Walk(d, batches[..|batches| - 1]);
      WalkKeepsTrustInRecords(d, batches[..|batches| - 1]);
      VerifyEnters(w, batches[|batches| - 1]);
      EnterAllKeeps(w.packages, w.disk, InOrder(ChangedIn(w, batches[|batches| - 1])));
    }
  }

  lemma {:induction false} WalkKeepsFlags(d: Durable, batches: seq<set<string>>)
    ensures Walk(d, batches).trusted == d.trusted
  {
    if |batches| > 0 {
      WalkKeepsFlags(d, batches[..|batches| - 1]);
    }
  }

  lemma PrologueTrusts(d: Durable, order: seq<Key>)
    requires Inv(d) && Trusting(d) && forall k :: k in order <==> k in d.packages
    ensures Trusting(Prologue(d, false, order)) && Prologue(d, false, order).trusted == d.trusted
  {
    if !d.trusted {
      AdoptKeepsTrust(d, order);
    }
  }

  lemma AdoptingResumes(d: Durable, order: seq<Key>, i: nat, listing: seq<string>)
    requires Inv(d) && Trusting(d) && !d.trusted && i <= |order| && forall k | k in order :: k in d.packages
    ensures Resumes(d, false, AdoptTx(d, order[..i]), listing)
  {
    assert forall k | k in order[..i] :: k in order;
    AdoptKeepsInv(d, order[..i]);
    AdoptKeepsTrust(d, order[..i]);
  }

  lemma WalkingIsSound(d: Durable, full: bool, order: seq<Key>, part: seq<set<string>>)
    requires MayScan(d, full) && (forall k :: k in order <==> k in d.packages) && ListedNames(part) <= d.disk.Keys
    ensures var s := Walked(d, full, order, part);
      && Ready(s) && Inv(s) && TrustsFiles(s) && (full || Trusting(s))
      && s.disk == d.disk && s.packages == EnterAll(d.packages, d.disk, Listing(part))
  {
    var p := Prologue(d, full, order);
    PrologueIsReady(d, full, order);
    WalkIsAccurate(p, part);
    if !full {
      PrologueTrusts(d, order);
      WalkKeepsFlags(p, part);
      if !d.trusted {
        WalkKeepsTrustInRecords(p, part);
      }
    }
    ReadyIsInv(Walked(d, full, order, part));
  }

  lemma WalkingResumes(d: Durable, full: bool, order: seq<Key>, batches: seq<set<string>>, j: nat)
    requires MayScan(d, full) && Covers(d, order, batches) && j <= |batches|
    ensures Ready(Walked(d, full, order, batches[..j]))
    ensures Resumes(d, full, Walked(d, full, order, batches[..j]), Listing(batches))
  {
    hide Walk, Listing, EnterAll, Settled, Inv, Trusting;
    var part, rest := Listing(batches[..j]), Listing(batches[j..]);
    ListedNamesGrow(batches, j);
    ListingSplits(batches, j);
    WalkingIsSound(d, full, order, batches[..j]);
    EnterAllAgain(d.packages, d.disk, [], part, rest);
    assert [] + part + rest == Listing(batches);
    EnteringCondemnsNothing(d.packages, d.disk, part);
  }

  lemma DroppingResumes(d: Durable, full: bool, order: seq<Key>, batches: seq<set<string>>, names: set<string>)
    requires MayScan(d, full) && Covers(d, order, batches) && names !! d.disk.Keys
    ensures Resumes(d, full, DropTx(Walked(d, full, order, batches), names), Listing(batches))
  {
    assert batches[..|batches|] == batches;
    WalkingResumes(d, full, order, batches, |batches|);
    var w := Walked(d, full, order, batches);
    WalkKeepsDisk(Prologue(d, full, order), batches);
    DropKeepsInv(w, names);
  }

  lemma {:induction false} WalkKeepsDisk(d: Durable, batches: seq<set<string>>)
    ensures Walk(d, batches).disk == d.disk
  {
    if |batches| > 0 {
      WalkKeepsDisk(d, batches[..|batches| - 1]);
    }
  }

  /** A state between the walk and the end of settling. */
  lemma SettlingSteps(x: Durable, keys: set<Key>, gone: set<string>)
    requires Ready(x) && x.files == x.disk && keys <= x.dirty && Leftovers(x, keys) <= gone <= Leftovers(x, x.dirty)
    ensures Inv(PartlySettled(x, keys, gone)) && Trusting(PartlySettled(x, keys, gone))
  {
    ReadyIsInv(x);
    var y := x.(disk := x.disk - gone);
    OtherTablesKeepInv(x, y);
    SettleKeepsInv(y, keys);
    assert Leftovers(y, keys) == Leftovers(x, keys);
  }

  lemma LeftoversHoldOthers(x: Durable, gone: set<string>, k: Key)
    requires WellFormed(x) && x.files == x.disk && gone <= Leftovers(x, x.dirty) && k in x.packages
        && !x.packages[k].status.Deleted?
    ensures Copies(x.disk - gone, k) == Copies(x.disk, k)
  {
    CopiesFollowFiles(x.disk - gone, x.disk, k);
  }

  lemma SettlingRecords(x: Durable, keys: set<Key>, gone: set<string>, k: Key)
    requires Ready(x) && x.files == x.disk && gone <= Leftovers(x, x.dirty) && k in x.packages
    ensures SettledRecord(PartlySettled(x, keys, gone).packages[k], x.disk - gone) ==
        SettledRecord(x.packages[k], x.disk)
  {
    hide Leftovers, Copies, Agrees, AllMatch;
    var p := x.packages[k];
    if !p.status.Deleted? {
      LeftoversHoldOthers(x, gone, k);
      SettledIsIdempotent(p, Copies(x.disk, k));
    }
  }

  lemma SettlingDirectory(x: Durable, keys: set<Key>, gone: set<string>)
    requires WellFormed(x) && x.files == x.disk && gone <= Leftovers(x, x.dirty)
    ensures ScannedDirectory(PartlySettled(x, keys, gone).packages, x.disk - gone) ==
        ScannedDirectory(x.packages, x.disk)
  {
    var after := PartlySettled(x, keys, gone).packages;
    forall c: Contents ensures Condemned(after, c) <==> Condemned(x.packages, c) {
    }
  }

  lemma SettlingResult(x: Durable, keys: set<Key>, gone: set<string>, listing: seq<string>)
    requires Ready(x) && x.files == x.disk && gone <= Leftovers(x, x.dirty)
    ensures var s := PartlySettled(x, keys, gone);
      && ScannedRecords(s.packages, s.disk, listing) == ScannedRecords(x.packages, x.disk, listing)
      && ScannedDirectory(s.packages, s.disk) == ScannedDirectory(x.packages, x.disk)
  {
    var s := PartlySettled(x, keys, gone);
    assert Known(x.packages, x.disk, listing) && Known(s.packages, s.disk, listing);
    EnterAllKnown(x.packages, x.disk, listing);
    EnterAllKnown(s.packages, s.disk, listing);
    forall k | k in x.packages ensures SettledRecord(s.packages[k], s.disk) == SettledRecord(x.packages[k], x.disk) {
      SettlingRecords(x, keys, gone, k);
    }
    SettlingDirectory(x, keys, gone);
  }

  lemma SettlingResumes(d: Durable, full: bool, order: seq<Key>, batches: seq<set<string>>, keys: set<Key>,
                        gone: set<string>)
    requires MayScan(d, full) && Covers(d, order, batches)
    requires var x := DropVanished(Walked(d, full, order, batches));
      keys <= x.dirty && Leftovers(x, keys) <= gone <= Leftovers(x, x.dirty)
    ensures Resumes(d, full, PartlySettled(DropVanished(Walked(d, full, order, batches)), keys, gone), Listing(batches))
  {
    var w := Walked(d, full, order, batches);
    var x := DropVanished(w);
    assert batches[..|batches|] == batches;
    WalkingResumes(d, full, order, batches, |batches|);
    PrologueIsReady(d, full, order);
    WalkIsAccurate(Prologue(d, full, order), batches);
    DropVanishedIsAccurate(w);
    SettlingSteps(x, keys, gone);
    SettlingResult(x, keys, gone, Listing(batches));
  }

  lemma MidScanResumes(d: Durable, full: bool, s: Durable, order: seq<Key>, batches: seq<set<string>>)
    requires MayScan(d, full) && Covers(d, order, batches) && MidScan(d, full, s, order, batches)
    ensures Resumes(d, full, s, Listing(batches))
  {
    if !full && Adopting(d, s, order) {
      var i :| 0 <= i <= |order| && s == AdoptTx(d, order[..i]);
      AdoptingResumes(d, order, i, Listing(batches));
    } else if Walking(d, full, s, order, batches) {
      var j :| 0 <= j <= |batches| && s == Walked(d, full, order, batches[..j]);
      WalkingResumes(d, full, order, batches, j);
    } else if Dropping(d, full, s, order, batches) {
      var names :| names <= Walked(d, full, order, batches).files.Keys && names !! d.disk.Keys
        && s == DropTx(Walked(d, full, order, batches), names);
      DroppingResumes(d, full, order, batches, names);
    } else {
      var x := DropVanished(Walked(d, full, order, batches));
      var keys, gone :| keys <= x.dirty && Leftovers(x, keys) <= gone <= Leftovers(x, x.dirty)
          && s == PartlySettled(x, keys, gone);
      SettlingResumes(d, full, order, batches, keys, gone);
    }
  }

  /** Names that are no longer in the directory may be listed or not. */
  lemma {:induction false} ListingGoneNames(packages: Packages, disk: Directory, names: seq<string>,
                                            present: set<string>)
    requires disk.Keys <= present
    ensures EnterAll(packages, disk, Filter(names, present)) == EnterAll(packages, disk, names)
  {
    if |names| > 0 {
      ListingGoneNames(packages, disk, names[..|names| - 1], present);
    }
  }

  /**
   An interrupted scan resumes: whatever committed state it stopped in, a new scan of the same kind, which lists
   what is left in the same order, ends with the same records, remembered files and directory as one that was
   never stopped.
   */
  lemma InterruptedScanResumes(d: Durable, full: bool, s: Durable, order: seq<Key>, batches: seq<set<string>>,
                               order2: seq<Key>, batches2: seq<set<string>>)
    requires MayScan(d, full) && Covers(d, order, batches) && MidScan(d, full, s, order, batches)
    requires Covers(s, order2, batches2) && Listing(batches2) == Filter(Listing(batches), s.disk.Keys)
    ensures var once, again := Scan(d, full, order, batches), Scan(s, full, order2, batches2);
      again.packages == once.packages && again.files == once.files && again.disk == once.disk
          && again.dirty == once.dirty
  {
    MidScanResumes(d, full, s, order, batches);
    ScanReachesResult(d, full, order, batches);
    ScanReachesResult(s, full, order2, batches2);
    ListingGoneNames(s.packages, s.disk, Listing(batches), s.disk.Keys);
  }

  /** Every package of the directory has a record. */
  ghost predicate AllKnown(d: Durable) {
    forall n | n in d.disk && d.disk[n].contents.Valid? :: d.disk[n].contents.key in d.packages
  }

  /** Once every package has a record, as after the walk, the order in which files are listed again is irrelevant. */
  lemma KnownScanResumesInAnyOrder(d: Durable, full: bool, s: Durable, order: seq<Key>, batches: seq<set<string>>,
                                   order2: seq<Key>, batches2: seq<set<string>>)
    requires MayScan(d, full) && Covers(d, order, batches) && MidScan(d, full, s, order, batches)
    requires AllKnown(s) && Covers(s, order2, batches2)
    ensures var once, again := Scan(d, full, order, batches), Scan(s, full, order2, batches2);
      again.packages == once.packages && again.files == once.files && again.disk == once.disk
          && again.dirty == once.dirty
  {
    hide MidScan, Scan, Walk, Listing, EnterAll, SettledRecord;
    MidScanResumes(d, full, s, order, batches);
    ScanReachesResult(d, full, order, batches);
    ScanReachesResult(s, full, order2, batches2);
    EnterAllKnown(s.packages, s.disk, Listing(batches));
    EnterAllKnown(s.packages, s.disk, Listing(batches2));
  }

  /** After the walk every package has a record, and it stays so while vanished files go and records are settled. */
  lemma WalkedScanKnowsAll(d: Durable, full: bool, s: Durable, order: seq<Key>, batches: seq<set<string>>)
    requires MayScan(d, full) && Covers(d, order, batches)
    requires s == Walked(d, full, order, batches) || Dropping(d, full, s, order, batches)
             || Settling(d, full, s, order, batches)
    ensures MidScan(d, full, s, order, batches) && AllKnown(s)
  {
    hide Walk, DropTx, SettleTx, Leftovers;
    var w := Walked(d, full, order, batches);
    WalkKnowsAll(d, full, order, batches);
    assert batches[..|batches|] == batches;
    if s == w {
      assert Walking(d, full, s, order, batches);
    } else if Dropping(d, full, s, order, batches) {
      var names :| names <= w.files.Keys && names !! d.disk.Keys && s == DropTx(w, names);
      DroppingKnowsAll(w, names);
    } else {
      var x := DropVanished(w);
      var keys, gone :| keys <= x.dirty && Leftovers(x, keys) <= gone <= Leftovers(x, x.dirty)
          && s == PartlySettled(x, keys, gone);
      DroppingKnowsAll(w, w.files.Keys - w.disk.Keys);
      SettlingKnowsAll(x, keys, gone);
    }
  }

  lemma WalkKnowsAll(d: Durable, full: bool, order: seq<Key>, batches: seq<set<string>>)
    requires MayScan(d, full) && Covers(d, order, batches)
    ensures AllKnown(Walked(d, full, order, batches))
  {
    hide Walk, EnterAll, MayScan, Ready, Inv, TrustsFiles, Trusting;
    WalkingIsSound(d, full, order, batches);
    EnterAllKeeps(d.packages, d.disk, Listing(batches));
    ListingHasAll(batches);
  }

  lemma {:induction false} ListingHasAll(batches: seq<set<string>>)
    ensures forall n | n in ListedNames(batches) :: n in Listing(batches)
  {
    if |batches| > 0 {
      ListingHasAll(batches[..|batches| - 1]);
    }
  }

  lemma DroppingKnowsAll(w: Durable, names: set<string>)
    requires AllKnown(w)
    ensures AllKnown(DropTx(w, names))
  {
  }

  lemma SettlingKnowsAll(x: Durable, keys: set<Key>, gone: set<string>)
    requires AllKnown(x)
    ensures AllKnown(PartlySettled(x, keys, gone))
  {
  }

  // Trims lost by an interruption

  /** A cut for every extension, each right for its limit. */
  ghost predicate AreCuts(d: Durable, ids: set<string>, cuts: map<string, set<string>>) {
    cuts.Keys == ids && forall id | id in ids :: IsCut(KeptVersions(d.packages, id), LimitOf(d, id), cuts[id])
  }

  /** The records after trimming several extensions; the order does not matter, as each trim touches its own. */
  function Trimmed(packages: Packages, cuts: map<string, set<string>>): Packages {
    map k | k in packages ::
      if k.id in cuts && k.version in cuts[k.id] && !packages[k].status.Deleted?
      then packages[k].(status := Deleted) else packages[k]
  }

  function Restricted(cuts: map<string, set<string>>, ids: set<string>): map<string, set<string>> {
    map id | id in cuts && id in ids :: cuts[id]
  }

  lemma CutIsEmptyWithinLimit(versions: set<string>, keep: nat, cut: set<string>)
    requires IsCut(versions, keep, cut)
    ensures cut == {} <==> keep == 0 || |versions| <= keep
  {
    hide CompareVersions;
    if keep > 0 {
      assert versions == cut + (versions - cut) && |versions| == |cut| + |versions - cut|;
    }
  }

  lemma LostTrimShows(packages: Packages, keep: nat, id: string, partial: map<string, set<string>>,
                      cuts: map<string, set<string>>)
    requires id in cuts && id !in partial && IsCut(KeptVersions(packages, id), keep, cuts[id]) && cuts[id] != {}
    ensures Trimmed(packages, partial) != Trimmed(packages, cuts)
  {
    CutDeletesSomething(packages, id, keep, cuts);
    var k :| k in packages && k.id == id && !packages[k].status.Deleted? && k.version in cuts[id];
    assert Trimmed(packages, partial)[k] != Trimmed(packages, cuts)[k];
  }

  /**
   The scan remembers only in memory which extensions gained versions. If it stops after settling some of
   them, the resumed scan trims just those it sees gaining versions itself. The outcome is that of an
   uninterrupted scan exactly when every other extension was within its limit anyway.
   */
  lemma InterruptionLosesTrims(d: Durable, grown: set<string>, regrown: set<string>, cuts: map<string, set<string>>)
    requires regrown <= grown && AreCuts(d, grown, cuts)
    ensures Trimmed(d.packages, Restricted(cuts, regrown)) == Trimmed(d.packages, cuts) <==>
            forall id | id in grown - regrown :: WithinLimit(d, id)
  {
    hide IsCut, KeptVersions;
    var partial := Restricted(cuts, regrown);
    forall id | id in grown - regrown
      ensures WithinLimit(d, id) <==> cuts[id] == {}
      ensures cuts[id] != {} ==> Trimmed(d.packages, partial) != Trimmed(d.packages, cuts)
    {
      CutIsEmptyWithinLimit(KeptVersions(d.packages, id), LimitOf(d, id), cuts[id]);
      if cuts[id] != {} {
        LostTrimShows(d.packages, LimitOf(d, id), id, partial, cuts);
      }
    }
    if forall id | id in grown - regrown :: cuts[id] == {} {
      forall k | k in d.packages ensures Trimmed(d.packages, partial)[k] == Trimmed(d.packages, cuts)[k] {
      }
    }
  }

  lemma CutDeletesSomething(packages: Packages, id: string, keep: nat, cuts: map<string, set<string>>)
    requires id in cuts && IsCut(KeptVersions(packages, id), keep, cuts[id]) && cuts[id] != {}
    ensures exists k :: k in packages && k.id == id && !packages[k].status.Deleted? && k.version in cuts[id]
  {
    var v :| v in cuts[id];
    assert v in KeptVersions(packages, id);
  }
}
