/** One reconciliation: the scan from its prologue to the settled queue, then the trims of the extensions that grew. */
module Reconciling {
  import opened Wrappers
  import opened Inventory
  import opened Protocol
  import opened Runs
  import opened Recovery
  import opened Guarantees
  import opened Limits
  import opened Retention
  import opened Interruption
  import opened Store
  import opened Removal
  import opened ScanSteps
  import opened Scanning

  /** Every new state of a scan is one it can be resumed from. */
  ghost predicate AllMidScan(d: Durable, full: bool, order: seq<Key>, batches: seq<set<string>>, t: seq<Event>,
                             from: nat)
    requires forall k | k in order :: k in d.packages
  {
    forall i | from <= i < |t| :: MidScan(d, full, t[i].state, order, batches)
  }

  ghost predicate Starting(d: Durable, full: bool, order: seq<Key>, t: seq<Event>, from: nat)
    requires forall k | k in order :: k in d.packages
  {
    if full then |t| == from + 1 && t[from].state == ForgetTx(d)
    else if d.trusted then |t| == from
    else AllAdopting(d, order, t, from)
  }

  /** A reconciliation goes through unless a file of a deleted package cannot be removed. */
  ghost predicate GoesThrough(d: Durable, full: bool, order: seq<Key>, batches: seq<set<string>>, stuck: set<string>)
    requires forall k | k in order :: k in d.packages
  {
    var x := DropVanished(Walk(Prologue(d, full, order), batches));
    forall n | n in Leftovers(x, x.dirty) :: !Sticks(n, d.disk, stuck)
  }

  lemma ForgottenIsMidScan(d: Durable, order: seq<Key>, batches: seq<set<string>>)
    requires forall k | k in order :: k in d.packages
    ensures MidScan(d, true, ForgetTx(d), order, batches)
  {
    assert ForgetTx(d) == Walked(d, true, order, batches[..0]);
    assert Walking(d, true, ForgetTx(d), order, batches);
  }

  lemma AdoptingIsMidScan(d: Durable, order: seq<Key>, batches: seq<set<string>>, s: Durable)
    requires forall k | k in order :: k in d.packages
    requires Adopting(d, s, order)
    ensures MidScan(d, false, s, order, batches)
  {
  }

  lemma DroppedIsPassing(p: Durable, batches: seq<set<string>>, w: Durable, s: Durable)
    requires w == Walk(p, batches) && w.disk == p.disk && Dropped(w, s)
    ensures Passing(p, batches, s)
  {
    hide Walk, DropTx;
    var names :| names <= w.files.Keys && names !! w.disk.Keys && s == DropTx(w, names);
    assert Drops(p, batches, s);
  }

  lemma SettledIsPassing(p: Durable, batches: seq<set<string>>, s: Durable)
    requires Settles(DropVanished(Walk(p, batches)), s)
    ensures Passing(p, batches, s)
  {
  }

  /** The trail of a scan, phase by phase. */
  lemma ScanPasses(d: Durable, full: bool, order: seq<Key>, batches: seq<set<string>>,
                   from: nat, t1: seq<Event>, t2: seq<Event>, t3: seq<Event>, t: seq<Event>)
    requires forall k | k in order :: k in d.packages
    requires from <= |t1| && t1 <= t2 && t2 <= t3 && t3 <= t
    requires var p := Prologue(d, full, order); var w := Walk(p, batches);
      && Starting(d, full, order, t1, from) && AllPassing(p, batches, t2, |t1|)
      && AllDropped(w, t3, |t2|) && AllSettling(DropVanished(w), t, |t3|)
    ensures AllMidScan(d, full, order, batches, t, from)
  {
    hide Walk, AdoptTx, Adopting, Passing, MidScan, Dropped, Settles, DropVanished, Prologue;
    var p := Prologue(d, full, order);
    WalkKeepsDisk(p, batches);
    forall i | from <= i < |t| ensures MidScan(d, full, t[i].state, order, batches) {
      if i < |t1| {
        assert t[i] == t1[i];
        if full {
          ForgottenIsMidScan(d, order, batches);
        } else {
          AdoptingIsMidScan(d, order, batches, t[i].state);
        }
      } else {
        if i < |t2| {
          assert t[i] == t2[i];
        } else if i < |t3| {
          assert t[i] == t3[i];
          DroppedIsPassing(p, batches, Walk(p, batches), t[i].state);
        } else {
          SettledIsPassing(p, batches, t[i].state);
        }
        PassingIsMidScan(d, full, order, batches, t[i].state);
      }
    }
  }

  lemma NothingMarked(sc: Scanner)
    requires sc.visited == {} && sc.seen == 0 && sc.found.Members() == {}
    ensures sc.Marked()
  {
  }

  lemma NothingFound(sc: Scanner)
    requires sc.visited == {} && sc.Marked()
    ensures sc.seen == 0 && sc.found.Members() == {}
  {
  }

  /** What comes before the walk: forgetting everything, or adopting files after an upgrade. */
  method Start(sc: Scanner, full: bool, rows: seq<Option<Key>>)
    requires sc.db.Valid() && sc.Marked() && sc.visited == {} && sc.batchSize > 0
    requires forall k | k in KeysIn(rows) :: k in sc.db.packages
    modifies sc.db
    ensures sc.db.Valid() && sc.Marked() && old(sc.db.trail) <= sc.db.trail
    ensures sc.db.State() == Prologue(old(sc.db.State()), full, KeysIn(rows))
    ensures Starting(old(sc.db.State()), full, KeysIn(rows), sc.db.trail, |old(sc.db.trail)|)
  {
    hide Store.Consistent, IsRun, AdoptTx, KeysIn, AllAdopting, Scanner.Marked, ForgetTx;
    NothingFound(sc);
    if full {
      sc.db.ForgetAll();
    } else if !sc.db.trusted {
      sc.Adopt(rows);
    }
    NothingMarked(sc);
  }

  lemma StartForgets(d: Durable, full: bool, order: seq<Key>, t: seq<Event>, from: nat)
    requires (forall k | k in order :: k in d.packages) && Starting(d, full, order, t, from)
    ensures full ==> |t| > from
  {
  }

  /** The scan before it trims. It stops at a leftover of a deleted package that cannot be removed. */
  method Examine(sc: Scanner, full: bool, rows: seq<Option<Key>>, batches: seq<set<string>>, stuck: set<string>)
    returns (ok: bool)
    requires sc.db.Valid() && sc.Marked() && sc.visited == {} && sc.batchSize > 0
    requires Covers(sc.db.State(), KeysIn(rows), batches)
    modifies sc, sc.db, sc.found
    ensures sc.db.Valid() && old(sc.db.trail) <= sc.db.trail && (full ==> |sc.db.trail| > |old(sc.db.trail)|)
    ensures var d := old(sc.db.State());
      && (ok ==> sc.db.State() == Scan(d, full, KeysIn(rows), batches))
      && (ok ==>
            var before := Walk(Prologue(d, full, KeysIn(rows)), batches).packages;
            && sc.changed == old(sc.changed) + |StatusChanges(before, sc.db.packages)|
            && sc.grew == old(sc.grew) + Grown(before, sc.db.packages))
      && AllMidScan(d, full, KeysIn(rows), batches, sc.db.trail, |old(sc.db.trail)|)
      && (ok <==> GoesThrough(d, full, KeysIn(rows), batches, stuck))
  {
    hide Store.Consistent, IsRun, Covers, Prologue, Scan, Walk, DropVanished, SettleAll, KeysIn, Starting,
      AllPassing, AllDropped, AllSettling, AllMidScan, StatusChanges, Grown, Leftovers, ListedNames, Scanner.Marked,
      Settles, Sticks;
    ghost var d, from, order := sc.db.State(), |sc.db.trail|, KeysIn(rows);
    ScanUnfolds(d, full, order, batches);
    Start(sc, full, rows);
    ghost var p, t1 := sc.db.State(), sc.db.trail;
    StartForgets(d, full, order, t1, from);
    sc.WalkDirectory(batches);
    ghost var t2 := sc.db.trail;
    WalkKeepsDisk(p, batches);
    sc.ForgetVanished();
    ghost var t3 := sc.db.trail;
    ok := sc.Settle(stuck);
    ScanPasses(d, full, order, batches, from, t1, t2, t3, sc.db.trail);
  }

  lemma ScanUnfolds(d: Durable, full: bool, order: seq<Key>, batches: seq<set<string>>)
    requires Covers(d, order, batches)
    ensures forall k | k in order :: k in d.packages
    ensures ListedNames(batches) == d.disk.Keys && Prologue(d, full, order).disk == d.disk
    ensures var w := Walk(Prologue(d, full, order), batches);
      && Scan(d, full, order, batches) == SettleAll(DropVanished(w))
      && DropVanished(w).packages == w.packages && DropVanished(w).disk == w.disk
  {
  }

  // Trims after the scan

  /** Trims the extensions that gained stored versions. */
  method TrimGrown(sc: Scanner, stuck: set<string>, forgets: bool) returns (ghost cuts: map<string, set<string>>)
    requires sc.db.Valid()
    modifies sc`changed, sc.db
    ensures sc.db.Valid() && old(sc.db.trail) <= sc.db.trail
    ensures TrimsSoFar(old(sc.db.State()), cuts, sc.grew, sc.db.State())
    ensures sc.changed == old(sc.changed) + |TrimmedKeys(old(sc.db.packages), cuts)|
    ensures AtRest(old(sc.db.State())) ==> AtRest(sc.db.State()) && AllAtRest(sc.db.trail, |old(sc.db.trail)|)
  {
    hide Store.Consistent, IsRun, TrimsSoFar, TrimsTo, TrimmedKeys, CutKeys, AtRest, AllAtRest, AllOnTheWay;
    ghost var d, from := sc.db.State(), |sc.db.trail|;
    cuts := map[];
    NoTrims(d);
    NoneAtRest(sc.db.trail);
    var rest := sc.grew;
    assert sc.grew - rest == {};
    while rest != {}
      invariant rest <= sc.grew && sc.db.Valid() && old(sc.db.trail) <= sc.db.trail
      invariant TrimsSoFar(d, cuts, sc.grew - rest, sc.db.State()) && cuts.Keys == sc.grew - rest
      invariant sc.changed == old(sc.changed) + |TrimmedKeys(d.packages, cuts)|
      invariant AtRest(d) ==> AtRest(sc.db.State()) && AllAtRest(sc.db.trail, from)
    {
      var id :| id in rest;
      ghost var s, was := sc.db.State(), sc.db.trail;
      var _, count, cut := Trim(sc.db, id, stuck, forgets);
      sc.changed := sc.changed + count;
      TrimStep(d, cuts, sc.grew - rest, s, id, cut, stuck, forgets, sc.db.State());
      TrimmedOneMore(d.packages, cuts, id, cut);
      if AtRest(d) {
        TrimStaysAtRest(s, id, cut, stuck, forgets, sc.db.State(), was, sc.db.trail, from);
      }
      assert sc.grew - rest + {id} == sc.grew - (rest - {id});
      cuts := cuts[id := cut];
      rest := rest - {id};
    }
    assert sc.grew - rest == sc.grew;
  }

  lemma NoneAtRest(t: seq<Event>)
    ensures AllAtRest(t, |t|)
  {
  }

  /** What a reconciliation of d answers, and the state e it leaves: only what its trims deleted is left to retry. */
  ghost predicate ReconcilesTo(d: Durable, full: bool, order: seq<Key>, batches: seq<set<string>>,
                               cuts: map<string, set<string>>, changed: nat, e: Durable)
    requires forall k | k in order :: k in d.packages
  {
    var before, settled := Walk(Prologue(d, full, order), batches).packages, Scan(d, full, order, batches);
    && TrimsSoFar(settled.(trusted := true), cuts, Grown(before, settled.packages), e)
    && changed == |StatusChanges(before, settled.packages)| + |TrimmedKeys(settled.packages, cuts)|
    && e.dirty == TrimmedKeys(settled.packages, cuts)
    && forall k | k in e.dirty :: k in e.packages && e.packages[k].status.Deleted?
  }

  /**
   Reconciles the directory with the inventory. rows lists the packages table by row id, batches the directory
   as it is listed. settled is the state once the scan is done and only trims are left.
   */
  method Reconcile(db: Store, full: bool, rows: seq<Option<Key>>, batches: seq<set<string>>, batchSize: nat,
                   stuck: set<string>, forgets: bool)
    returns (ok: bool, changed: nat, ghost settled: Durable, ghost settledAt: nat, ghost cuts: map<string, set<string>>)
    requires db.Valid() && batchSize > 0 && Covers(db.State(), KeysIn(rows), batches)
    modifies db
    ensures db.Valid() && old(db.trail) <= db.trail && (full ==> |db.trail| > |old(db.trail)|)
    ensures ok <==> GoesThrough(old(db.State()), full, KeysIn(rows), batches, stuck)
    ensures !ok ==> AllMidScan(old(db.State()), full, KeysIn(rows), batches, db.trail, |old(db.trail)|)
    ensures ok ==>
      var d, order := old(db.State()), KeysIn(rows);
      && settled == Scan(d, full, order, batches)
      && ReconcilesTo(d, full, order, batches, cuts, changed, db.State())
      && |old(db.trail)| <= settledAt < |db.trail| && db.trail[|db.trail| - 1].action == Trust
      && AllMidScan(d, full, order, batches, db.trail[..settledAt], |old(db.trail)|)
      && (AtRest(settled) ==> AtRest(db.State()) && AllAtRest(db.trail, settledAt))
  {
    hide Store.Consistent, IsRun, Covers, Prologue, Walk, Scan, KeysIn, AllMidScan, StatusChanges, Grown, Leftovers,
      DropVanished, Sticks, TrimsSoFar, TrimmedKeys, AtRest, AllAtRest, Scanner.Marked;
    var sc := new Scanner(db, batchSize);
    ok := Examine(sc, full, rows, batches, stuck);
    settled, settledAt, cuts, changed := db.State(), |db.trail|, map[], sc.changed;
    if !ok {
      return;
    }
    ghost var t := db.trail;
    cuts := TrimGrown(sc, stuck, forgets);
    changed := sc.changed;
    TrustingStays(settled, cuts, sc.grew, db.State(), db.trail, settledAt);
    TrimsAreQueued(old(db.State()), full, KeysIn(rows), batches, cuts, sc.grew, db.State());
    db.MarkTrusted();
    assert db.trail[..settledAt] == t;
  }

  /** What a reconciliation leaves in the queue are the records its trims deleted. */
  lemma TrimsAreQueued(d: Durable, full: bool, order: seq<Key>, batches: seq<set<string>>,
                       cuts: map<string, set<string>>, ids: set<string>, s: Durable)
    requires Covers(d, order, batches) && TrimsSoFar(Scan(d, full, order, batches), cuts, ids, s)
    ensures s.dirty == TrimmedKeys(Scan(d, full, order, batches).packages, cuts)
    ensures forall k | k in s.dirty :: k in s.packages && s.packages[k].status.Deleted?
  {
    hide AreCuts, Walk;
    var e := Scan(d, full, order, batches);
    assert e.dirty == {};
    assert s.packages == Trimmed(e.packages, cuts);
  }

  lemma TrustingStays(d: Durable, cuts: map<string, set<string>>, ids: set<string>, s: Durable, t: seq<Event>,
                      from: nat)
    requires TrimsSoFar(d, cuts, ids, s)
    ensures TrimsSoFar(d.(trusted := true), cuts, ids, s.(trusted := true))
    ensures AtRest(s) ==> AtRest(s.(trusted := true))
    ensures AtRest(s) && AllAtRest(t, from) ==> AllAtRest(t + [Event(Trust, s.(trusted := true))], from)
  {
    hide IsCut, KeptVersions, Quiet, Trimmed;
    assert s.(trusted := true).(trusted := true) == s.(trusted := true);
    assert NamesApart(s) ==> NamesApart(s.(trusted := true));
  }

  // What a reconciliation leaves behind

  /** No file of another package sits under a record's file name. */
  ghost predicate NamesFree(d: Durable) {
    forall k | k in d.packages && d.packages[k].filename in d.disk && d.disk[d.packages[k].filename].contents.Valid? ::
      d.disk[d.packages[k].filename].contents.key == k
  }

  lemma SettledNameIsOwn(p: Record, disk: Directory)
    requires p.filename in disk && disk[p.filename].contents.Valid? ==> disk[p.filename].contents.key == p.key
    ensures var n := SettledRecord(p, disk).filename;
      n in disk && disk[n].contents.Valid? ==> disk[n].contents.key == p.key
  {
  }

  /**
   After the scan nothing is left to do but retry deletions, and it stays so through the trims, wherever they
   stop: with Reconcile, every state from the end of the scan on is at rest.
   */
  lemma ScanEndsAtRest(d: Durable, full: bool, order: seq<Key>, batches: seq<set<string>>)
    requires Covers(d, order, batches) && NamesFree(d)
    requires MayScan(d, full)
    ensures AtRest(Scan(d, full, order, batches))
  {
    hide Quiet, Scan, SettledRecord, Inv, Trusting;
    var e, entered := Scan(d, full, order, batches), EnterAll(d.packages, d.disk, Listing(batches));
    ScanEndsQuiet(d, full, order, batches);
    ScanReachesResult(d, full, order, batches);
    EnterAllKeeps(d.packages, d.disk, Listing(batches));
    assert WellFormed(d) by {
      InvIsWellFormed(d, full);
    }
    forall k, n | k in e.packages && n == e.packages[k].filename && n in e.files && e.files[n].contents.Valid?
      ensures e.files[n].contents.key == k
    {
      assert k in entered && entered[k].key == k;
      SettledNameIsOwn(entered[k], d.disk);
      assert n in d.disk && e.disk[n] == d.disk[n];
    }
  }

  lemma InvIsWellFormed(d: Durable, full: bool)
    requires MayScan(d, full)
    ensures WellFormed(d)
  {
  }

  /** A second reconciliation of an unchanged directory finds no change and trims nothing. */
  lemma SecondReconcileFindsNothing(d: Durable, full: bool, order: seq<Key>, batches: seq<set<string>>,
                                    cuts: map<string, set<string>>)
    requires Quiet(d) && Covers(d, order, batches)
    requires var before := Walk(Prologue(d, full, order), batches).packages;
      cuts.Keys == Grown(before, Scan(d, full, order, batches).packages)
    ensures var before, e := Walk(Prologue(d, full, order), batches).packages, Scan(d, full, order, batches);
      && |StatusChanges(before, e.packages)| + |TrimmedKeys(e.packages, cuts)| == 0
      && e.packages == d.packages && e.dirty == {}
  {
    hide Walk, Scan, Quiet, Prologue, ScannedRecords, ScannedDirectory;
    QuietIsTrusting(d);
    SecondScanChangesNothing(d, full, order, batches);
    ScanReachesResult(d, full, order, batches);
    QuietResult(d, Listing(batches));
    var e := Scan(d, full, order, batches);
    assert cuts.Keys == {};
    assert TrimmedKeys(e.packages, cuts) == {};
  }

  lemma QuietIsTrusting(d: Durable)
    requires Quiet(d)
    ensures Inv(d) && WellFormed(d) && Trusting(d)
  {
  }

  // What a reconciliation that fails leaves to requests

  lemma ForgettingMakesUsable(d: Durable)
    requires WellFormed(d)
    ensures InService(Usable, ForgetTx(d))
  {
    forall k | k in d.packages ensures SettledOrQueued(AsTrusted(ForgetTx(d)), k) {
      assert QueuedOrAgrees(AsTrusted(ForgetTx(d)), k);
    }
  }

  lemma {:induction false} AdoptingStaysUsable(d: Durable, keys: seq<Key>)
    requires InService(Usable, d) && forall k | k in keys :: k in d.packages
    ensures InService(Usable, AdoptTx(d, keys))
  {
    if |keys| > 0 {
      var front, k := keys[..|keys| - 1], keys[|keys| - 1];
      AdoptingStaysUsable(d, front);
      AdoptOneStaysUsable(AdoptTx(d, front), k);
    }
  }

  lemma AdoptOneStaysUsable(d: Durable, k: Key)
    requires InService(Usable, d) && k in d.packages
    ensures InService(Usable, AdoptOne(d, k))
  {
    hide Inv;
    AdoptOneKeepsInv(AsTrusted(d), k);
    assert AdoptOne(AsTrusted(d), k) == AsTrusted(AdoptOne(d, k));
    assert Located(AdoptOne(d, k)) by {
      AdoptOneStaysLocated(d, k);
    }
  }

  lemma AdoptOneStaysLocated(d: Durable, k: Key)
    requires Located(d) && k in d.packages
    ensures Located(AdoptOne(d, k))
  {
  }

  lemma VerifyingStaysUsable(d: Durable, batch: set<string>)
    requires InService(Usable, d)
    ensures InService(Usable, VerifyTx(d, batch))
  {
    hide Inv, EnterAll;
    VerifyKeepsInv(AsTrusted(d), batch);
    assert VerifyTx(AsTrusted(d), batch) == AsTrusted(VerifyTx(d, batch));
    VerifyEnters(d, batch);
    var e := VerifyTx(d, batch);
    forall n | n in e.disk && e.disk[n].contents.Valid? && n in ChangedIn(d, batch) && n in batch
      ensures n in e.files && e.files[n] == e.disk[n]
    {
    }
  }

  lemma {:induction false} WalkingStaysUsable(d: Durable, batches: seq<set<string>>)
    requires InService(Usable, d)
    ensures InService(Usable, Walk(d, batches))
  {
    if |batches| > 0 {
      WalkingStaysUsable(d, batches[..|batches| - 1]);
      VerifyingStaysUsable(Walk(d, batches[..|batches| - 1]), batches[|batches| - 1]);
    }
  }

  lemma DroppingStaysUsable(d: Durable, names: set<string>)
    requires InService(Usable, d) && names !! d.disk.Keys
    ensures InService(Usable, DropTx(d, names))
  {
    hide Inv;
    DropKeepsInv(AsTrusted(d), names);
    assert DropTx(AsTrusted(d), names) == AsTrusted(DropTx(d, names));
  }

  lemma SettlingStaysUsable(x: Durable, keys: set<Key>, gone: set<string>)
    requires InService(Usable, x) && x.files == x.disk && Leftovers(x, keys) <= gone
    ensures InService(Usable, PartlySettled(x, keys, gone))
  {
    hide Inv;
    var y := x.(disk := x.disk - gone);
    DiskIsIrrelevant(AsTrusted(x), AsTrusted(y));
    SettleKeepsInv(AsTrusted(y), keys);
    assert Leftovers(y, keys) == Leftovers(x, keys);
    assert Leftovers(AsTrusted(y), keys) == Leftovers(x, keys);
    assert SettleTx(AsTrusted(y), keys) == AsTrusted(SettleTx(y, keys));
  }

  /**
   Wherever a scan fails, requests find what they need: a full one whatever it started from, as it queues every record
   before it forgets the files, and a routine one if requests had what they need before.
   */
  lemma MidScanIsUsable(d: Durable, full: bool, s: Durable, order: seq<Key>, batches: seq<set<string>>)
    requires MayScan(d, full) && Covers(d, order, batches) && MidScan(d, full, s, order, batches)
    requires full || InService(Usable, d)
    ensures InService(Usable, s)
  {
    hide InService, Walk, AdoptTx, DropTx, Leftovers, SettleTx, ListedNames, Trusting, Inv;
    if !full && Adopting(d, s, order) {
      var i :| 0 <= i <= |order| && s == AdoptTx(d, order[..i]);
      assert forall k | k in order[..i] :: k in order;
      AdoptingStaysUsable(d, order[..i]);
    } else {
      PrologueIsUsable(d, full, order);
      var p, w := Prologue(d, full, order), Walked(d, full, order, batches);
      WalkingStaysUsable(p, batches);
      WalkKeepsDisk(p, batches);
      if Walking(d, full, s, order, batches) {
        var j :| 0 <= j <= |batches| && s == Walked(d, full, order, batches[..j]);
        WalkingStaysUsable(p, batches[..j]);
      } else if Dropping(d, full, s, order, batches) {
        var names :| names <= w.files.Keys && names !! d.disk.Keys && s == DropTx(w, names);
        DroppingStaysUsable(w, names);
      } else {
        var x := DropVanished(w);
        var keys, gone :| keys <= x.dirty && Leftovers(x, keys) <= gone <= Leftovers(x, x.dirty)
            && s == PartlySettled(x, keys, gone);
        WalkMirrors(d, full, order, batches);
        DroppingStaysUsable(w, w.files.Keys - w.disk.Keys);
        SettlingStaysUsable(x, keys, gone);
      }
    }
  }

  lemma PrologueIsUsable(d: Durable, full: bool, order: seq<Key>)
    requires (if full then WellFormed(d) else InService(Usable, d)) && forall k | k in order :: k in d.packages
    ensures InService(Usable, Prologue(d, full, order)) && Prologue(d, full, order).disk == d.disk
  {
    hide InService;
    if full {
      ForgettingMakesUsable(d);
    } else if !d.trusted {
      AdoptingStaysUsable(d, order);
    }
  }

  lemma WalkMirrors(d: Durable, full: bool, order: seq<Key>, batches: seq<set<string>>)
    requires MayScan(d, full) && Covers(d, order, batches)
    ensures var x := DropVanished(Walked(d, full, order, batches)); x.files == x.disk
  {
    PrologueIsReady(d, full, order);
    WalkIsAccurate(Prologue(d, full, order), batches);
    DropVanishedIsAccurate(Walked(d, full, order, batches));
  }

  // A scan stopped between settling and trimming

  lemma ScanIsItsLastStep(d: Durable, full: bool, order: seq<Key>, batches: seq<set<string>>)
    requires Covers(d, order, batches)
    ensures MidScan(d, full, Scan(d, full, order, batches), order, batches)
  {
    hide Walk, AdoptTx, DropTx, Leftovers, SettleTx;
    var x := DropVanished(Walked(d, full, order, batches));
    AllSettled(x);
    assert Settling(d, full, PartlySettled(x, x.dirty, Leftovers(x, x.dirty)), order, batches);
  }

  /** Once a scan has settled everything, any scan may follow, and finds nothing to do. */
  lemma SettledScanIsDone(d: Durable, full: bool, order: seq<Key>, batches: seq<set<string>>,
                          again: bool, order2: seq<Key>, batches2: seq<set<string>>)
    requires MayScan(d, full) && Covers(d, order, batches)
    requires Covers(Scan(d, full, order, batches), order2, batches2)
    ensures var s := Scan(d, full, order, batches);
      && MayScan(s, again)
      && Scan(s, again, order2, batches2).packages == s.packages
      && Walked(s, again, order2, batches2).packages == s.packages
  {
    hide Scan, Walk, Quiet, Inv, ScannedRecords, ScannedDirectory, EnterAll, Prologue;
    var s := Scan(d, full, order, batches);
    ScanEndsQuiet(d, full, order, batches);
    ScanReachesResult(d, full, order, batches);
    EndOfScanMayScan(s, again);
    QuietResult(s.(trusted := true), Listing(batches2));
    ScanReachesResult(s, again, order2, batches2);
  }

  lemma EndOfScanMayScan(s: Durable, again: bool)
    requires Quiet(s.(trusted := true)) && s.files == s.disk && s.dirty == {}
    ensures MayScan(s, again)
  {
    forall k | k in s.packages ensures SettledOrQueued(s, k) {
      assert SettledOrQueued(s.(trusted := true), k);
    }
  }

  /**
   If the process stops after the last record is settled and before the trims, the next scan is the same as
   far as records and files go, but sees no extension grow. Every trim the first scan owed is lost, which does
   no harm exactly when all those extensions are within their limits.
   */
  lemma LateInterruptionLosesEveryTrim(d: Durable, full: bool, order: seq<Key>, batches: seq<set<string>>,
                                       again: bool, order2: seq<Key>, batches2: seq<set<string>>,
                                       cuts: map<string, set<string>>)
    requires MayScan(d, full) && Covers(d, order, batches)
    requires Covers(Scan(d, full, order, batches), order2, batches2)
    requires var s := Scan(d, full, order, batches);
      AreCuts(s, Grown(Walked(d, full, order, batches).packages, s.packages), cuts)
    ensures var s := Scan(d, full, order, batches);
      && MidScan(d, full, s, order, batches) && MayScan(s, again)
      && Scan(s, again, order2, batches2).packages == s.packages
      && Grown(Walked(s, again, order2, batches2).packages, s.packages) == {}
      && (Trimmed(s.packages, map[]) == Trimmed(s.packages, cuts) <==> forall id | id in cuts :: WithinLimit(s, id))
  {
    hide Scan, Walk, MayScan, IsCut, WithinLimit, MidScan, KeptVersions;
    var s := Scan(d, full, order, batches);
    ScanIsItsLastStep(d, full, order, batches);
    SettledScanIsDone(d, full, order, batches, again, order2, batches2);
    NoChange(s.packages);
    InterruptionLosesTrims(s, cuts.Keys, {}, cuts);
    assert Restricted(cuts, {}) == map[];
  }
}
