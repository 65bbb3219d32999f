/** What holds of every run, whatever the interleaving of operations, crashes and outside edits. */
module Runs {
  import opened Inventory
  import opened Protocol

  ghost predicate SameIdentity(p: Record, q: Record) {
    q.key == p.key && q.digest == p.digest
  }

  ghost predicate PreservesRecords(before: Packages, after: Packages) {
    forall k | k in before :: k in after && SameIdentity(before[k], after[k])
  }

  /** Nothing identifying is lost or altered: records, their bytes, and receipts only accumulate. */
  ghost predicate Preserves(d: Durable, e: Durable) {
    && PreservesRecords(d.packages, e.packages)
    && (forall i | i in d.uploads :: i in e.uploads && e.uploads[i] == d.uploads[i])
  }

  lemma {:induction false} AdoptPreserves(d: Durable, keys: seq<Key>)
    requires WellFormed(d) && forall k | k in keys :: k in d.packages
    ensures WellFormed(AdoptTx(d, keys)) && Preserves(d, AdoptTx(d, keys))
  {
    if |keys| > 0 {
      AdoptPreserves(d, keys[..|keys| - 1]);
    }
  }

  lemma SettlePreserves(d: Durable, keys: set<Key>)
    requires WellFormed(d)
    ensures WellFormed(SettleTx(d, keys)) && Preserves(d, SettleTx(d, keys))
  {
    var e := SettleTx(d, keys);
    forall k | k in d.packages ensures SameIdentity(d.packages[k], e.packages[k]) {
    }
    assert e.files.Keys <= d.files.Keys && forall n | n in e.files :: e.files[n] == d.files[n];
  }

  lemma MarkDeletedPreserves(d: Durable, keys: set<Key>)
    requires WellFormed(d)
    ensures WellFormed(MarkDeletedTx(d, keys)) && Preserves(d, MarkDeletedTx(d, keys))
  {
    forall k | k in d.packages ensures SameIdentity(d.packages[k], MarkDeletedTx(d, keys).packages[k]) {
    }
  }

  lemma PutPreserves(d: Durable, p: Record, e: Durable)
    requires WellFormed(d) && (p.key in d.packages ==> d.packages[p.key].digest == p.digest)
    requires e.packages == d.packages[p.key := p] && e.uploads == d.uploads
    requires forall n | n in e.files && e.files[n].contents.Valid? :: e.files[n].contents.key in e.packages
    ensures WellFormed(e) && Preserves(d, e)
  {
    forall k | k in d.packages ensures SameIdentity(d.packages[k], e.packages[k]) {
    }
  }

  lemma ReceiptPreserves(d: Durable, idem: string, r: Receipt)
    requires WellFormed(d) && r.key in d.packages && d.packages[r.key].digest == r.digest
    ensures WellFormed(ReceiptTx(d, idem, r)) && Preserves(d, ReceiptTx(d, idem, r))
  {
  }

  lemma OtherStepsPreserve(d: Durable, e: Durable)
    requires WellFormed(d)
    requires e.packages == d.packages && e.files.Keys <= d.files.Keys && forall n | n in e.files ::
        e.files[n] == d.files[n]
    requires e.uploads == d.uploads
    ensures WellFormed(e) && Preserves(d, e)
  {
  }

  /** The steps of a scan; the others are taken by requests or from outside. */
  predicate IsScanStep(a: Action) {
    a.Forget? || a.Adopt? || a.Verify? || a.Drop? || a.Settle? || a.Trust?
  }

  lemma ScanStepPreserves(d: Durable, a: Action)
    requires WellFormed(d) && Allowed(d, a) && IsScanStep(a)
    ensures WellFormed(Apply(d, a)) && Preserves(d, Apply(d, a))
  {
    match a
    case Adopt(keys) => AdoptPreserves(d, keys);
    case Verify(batch) => VerifyKeepsWellFormed(d, batch);
    case Settle(keys) => SettlePreserves(d, keys);
    case Forget => OtherStepsPreserve(d, ForgetTx(d));
    case Drop(names) => OtherStepsPreserve(d, DropTx(d, names));
    case Trust => OtherStepsPreserve(d, d.(trusted := true));
  }

  lemma RecordStepPreserves(d: Durable, a: Action)
    requires WellFormed(d) && Allowed(d, a) && (a.Journal? || a.Publish? || a.MarkDeleted? || a.SaveReceipt?)
    ensures WellFormed(Apply(d, a)) && Preserves(d, Apply(d, a))
  {
    match a
    case Journal(p) => PutPreserves(d, p, JournalTx(d, p));
    case Publish(p, mtime) => PutPreserves(d, p, PublishTx(d, p, mtime));
    case MarkDeleted(keys) => MarkDeletedPreserves(d, keys);
    case SaveReceipt(idem, r) => ReceiptPreserves(d, idem, r);
  }

  lemma StepPreserves(d: Durable, a: Action)
    requires WellFormed(d) && Allowed(d, a)
    ensures WellFormed(Apply(d, a)) && Preserves(d, Apply(d, a))
  {
    if IsScanStep(a) {
      ScanStepPreserves(d, a);
    } else if a.Journal? || a.Publish? || a.MarkDeleted? || a.SaveReceipt? {
      RecordStepPreserves(d, a);
    } else {
      OtherStepsPreserve(d, Apply(d, a));
    }
  }

  lemma ForgetKeepsInv(d: Durable)
    requires Inv(d)
    ensures Inv(ForgetTx(d))
  {
    forall k | k in d.packages ensures SettledOrQueued(ForgetTx(d), k) {
      assert QueuedOrAgrees(ForgetTx(d), k);
    }
  }

  lemma ScanStepKeepsInv(d: Durable, a: Action)
    requires Inv(d) && Allowed(d, a) && IsScanStep(a) && Safe(d, a)
    ensures Inv(Apply(d, a))
  {
    match a
    case Forget => ForgetKeepsInv(d);
    case Adopt(keys) => AdoptKeepsInv(d, keys);
    case Verify(batch) => VerifyKeepsInv(d, batch);
    case Drop(names) => DropKeepsInv(d, names);
    case Settle(keys) => SettleKeepsInv(d, keys);
    case Trust => OtherTablesKeepInv(d, d.(trusted := true));
  }

  lemma StepKeepsInv(d: Durable, a: Action)
    requires Inv(d) && Allowed(d, a) && Safe(d, a)
    ensures Inv(Apply(d, a))
  {
    hide Inv;
    if IsScanStep(a) {
      ScanStepKeepsInv(d, a);
    } else if a.Journal? {
      JournalKeepsInv(d, a.p);
    } else if a.Publish? {
      PublishKeepsInv(d, a.published, a.mtime);
    } else if a.MarkDeleted? {
      MarkDeletedKeepsInv(d, a.targets);
    } else if a.ForgetFiles? {
      ForgetFilesKeepsInvWhenSafe(d, a.removed);
    } else {
      OtherStepKeepsInv(d, a);
    }
  }

  lemma OtherStepKeepsInv(d: Durable, a: Action)
    requires Inv(d) && Allowed(d, a)
    requires !IsScanStep(a) && !a.Journal? && !a.Publish? && !a.MarkDeleted? && !a.ForgetFiles?
    ensures Inv(Apply(d, a))
  {
    hide Inv, WellFormed;
    InvHolds(d);
    if a.SaveReceipt? {
      ReceiptPreserves(d, a.idem, a.receipt);
    } else {
      OtherStepsPreserve(d, Apply(d, a));
    }
    OtherTablesKeepInv(d, Apply(d, a));
  }

  lemma InvHolds(d: Durable)
    requires Inv(d)
    ensures WellFormed(d)
  {
  }

  lemma OtherTablesKeepInv(d: Durable, e: Durable)
    requires Inv(d) && WellFormed(e)
    requires e.packages == d.packages && e.files == d.files && e.dirty == d.dirty
    requires e.trusted == d.trusted || forall k | k in d.packages :: QueuedOrAgrees(d, k)
    ensures Inv(e)
  {
    forall k | k in e.packages ensures SettledOrQueued(e, k) {
      assert SettledOrQueued(d, k);
      assert QueuedOrAgrees(d, k) ==> QueuedOrAgrees(e, k);
    }
  }

  lemma ForgetFilesKeepsInvWhenSafe(d: Durable, names: set<string>)
    requires Inv(d) && Safe(d, ForgetFiles(names))
    ensures Inv(d.(files := d.files - names))
  {
    var e := d.(files := d.files - names);
    forall k | k in e.packages ensures SettledOrQueued(e, k) {
      assert SettledOrQueued(d, k);
      if k !in d.dirty && Agrees(d.packages[k], d.files) {
        ForgetFilesSpares(d, names, k);
      } else if k !in d.dirty {
        assert Copies(e.files, k).Keys <= Copies(d.files, k).Keys;
      }
    }
  }

  /** Safe is no stronger than needed: once files are trusted, an unsafe step always breaks the invariant. */
  lemma SafeIsExact(d: Durable, a: Action)
    requires Inv(d) && d.trusted && Allowed(d, a)
    ensures Inv(Apply(d, a)) <==> Safe(d, a)
  {
    match a
    case ForgetFiles(names) => ForgetFilesKeepsInv(d, names);
    case Publish(p, mtime) => PublishKeepsInv(d, p, mtime);
    case Trust =>
      forall k | k in d.packages ensures QueuedOrAgrees(d, k) {
        assert SettledOrQueued(d, k);
      }
    case _ => StepKeepsInv(d, a);
  }

  /** Over every run of safe steps, each record is settled or queued at every point. */
  lemma {:induction false} InvariantOverRuns(t: seq<Event>, i: nat)
    requires IsRun(t) && i < |t|
    requires Inv(t[0].state)
    requires forall j | 0 < j < |t| :: Safe(t[j - 1].state, t[j].action)
    ensures Inv(t[i].state)
  {
    if i > 0 {
      InvariantOverRuns(t, i - 1);
      assert Follows(t[i - 1].state, t[i]);
      StepKeepsInv(t[i - 1].state, t[i].action);
    }
  }

  /**
   Identity is immutable over every run, safe or not: no record is ever dropped, the bytes behind a key
   never change, an idempotency key never changes what it names, and every receipt matches its record.
   */
  lemma {:induction false} IdentityOverRuns(t: seq<Event>, i: nat, j: nat)
    requires IsRun(t) && i <= j < |t|
    requires WellFormed(t[0].state)
    ensures WellFormed(t[i].state) && WellFormed(t[j].state)
    ensures Preserves(t[i].state, t[j].state)
    decreases j
  {
    if j > 0 {
      IdentityOverRuns(t, if i < j then i else j - 1, j - 1);
      assert Follows(t[j - 1].state, t[j]);
      StepPreserves(t[j - 1].state, t[j].action);
    }
  }

  // While the server answers requests

  /** Every file in the directory is remembered with its bytes, or its package is queued. */
  ghost predicate Tracked(d: Durable) {
    forall n | n in d.disk ::
      || (n in d.files && d.files[n].contents == d.disk[n].contents)
      || (d.disk[n].contents.Valid? && d.disk[n].contents.key in d.dirty)
  }

  /** The same for the files of known packages, which is all that requests need. */
  ghost predicate Located(d: Durable) {
    forall n | n in d.disk && d.disk[n].contents.Valid? ::
      || (n in d.files && d.files[n].contents == d.disk[n].contents)
      || d.disk[n].contents.key in d.dirty
      || d.disk[n].contents.key !in d.packages
  }

  lemma TrackedIsLocated(d: Durable)
    requires Tracked(d)
    ensures Located(d)
  {
  }

  /** The steps requests take: no scan steps, no outside edits, and only a journaled package is linked. */
  predicate Serving(d: Durable, a: Action) {
    match a
    case Link(name, file) => file.contents.Valid? && file.contents.key in d.dirty
    case Journal(_) => true
    case Publish(_, _) => true
    case SaveReceipt(_, _) => true
    case MarkDeleted(_) => true
    case Unlink(_) => true
    case ForgetFiles(_) => true
    case SetKeepDefault(_) => true
    case SetKeep(_, _) => true
    case _ => false
  }

  lemma StepKeepsTracked(d: Durable, a: Action)
    requires Tracked(d) && Allowed(d, a) && Serving(d, a)
    ensures Tracked(Apply(d, a)) && Apply(d, a).trusted == d.trusted
  {
  }

  lemma StepKeepsLocated(d: Durable, a: Action)
    requires Located(d) && Allowed(d, a) && Serving(d, a)
    ensures Located(Apply(d, a))
  {
  }

  /**
   Confirming an existing file is safe while known packages are located: if it holds the record's exact
   bytes, the record is queued or already agrees that they are there.
   */
  lemma ConfirmingIsSafe(d: Durable, p: Record, mtime: int)
    requires Inv(d) && d.trusted && Located(d)
    requires Allowed(d, Publish(p, mtime)) && !d.packages[p.key].status.Conflict?
    ensures Safe(d, Publish(p, mtime))
  {
    var before, k := d.packages[p.key], p.key;
    if k !in d.dirty {
      assert SettledOrQueued(d, k);
      assert p.filename in Copies(d.files, k) && Copies(d.files, k)[p.filename] == before.digest;
      assert Settled(before, Copies(d.files, k)).status != Missing;
    }
  }

  /**
   Between scans, over any interleaving of requests, the invariant holds at every point as long as what a
   deletion forgets spares the records that are not queued. Publishing needs no such care.
   */
  lemma {:induction false} InvariantWhileServing(t: seq<Event>, i: nat)
    requires IsRun(t) && i < |t|
    requires Inv(t[0].state) && t[0].state.trusted && Tracked(t[0].state)
    requires forall j | 0 < j < |t| ::
               && Serving(t[j - 1].state, t[j].action)
               && (t[j].action.ForgetFiles? ==> Safe(t[j - 1].state, t[j].action))
               && (t[j].action.Publish? ==>
                     t[j].action.published.key in t[j - 1].state.packages
                     && !t[j - 1].state.packages[t[j].action.published.key].status.Conflict?)
    ensures Inv(t[i].state) && t[i].state.trusted && Tracked(t[i].state)
  {
    hide Tracked, Located, Inv, Apply, Allowed, Safe;
    if i > 0 {
      InvariantWhileServing(t, i - 1);
      assert Follows(t[i - 1].state, t[i]);
      if t[i].action.Publish? {
        TrackedIsLocated(t[i - 1].state);
        ConfirmingIsSafe(t[i - 1].state, t[i].action.published, t[i].action.mtime);
      } else if !t[i].action.ForgetFiles? {
        OthersAreSafe(t[i - 1].state, t[i].action);
      }
      StepKeepsInv(t[i - 1].state, t[i].action);
      StepKeepsTracked(t[i - 1].state, t[i].action);
    }
  }

  lemma OthersAreSafe(d: Durable, a: Action)
    requires !a.Publish? && !a.ForgetFiles? && !a.Trust?
    ensures Safe(d, a)
  {
  }

  /** Every copy of a package that is neither queued, deleted nor in conflict has its exact bytes. */
  lemma CopiesOfSettledMatch(d: Durable, k: Key, digest: Digest)
    requires Inv(d) && d.trusted && Tracked(d) && k !in d.dirty
    requires k in d.packages ==>
      d.packages[k].digest == digest && !d.packages[k].status.Deleted? && !d.packages[k].status.Conflict?
    ensures AllMatch(Copies(d.disk, k), digest)
  {
    forall n | n in Copies(d.disk, k) ensures Copies(d.disk, k)[n] == digest {
      assert n in d.files && d.files[n].contents == d.disk[n].contents;
      assert k in d.packages && SettledOrQueued(d, k);
      assert n in Copies(d.files, k) && AllMatch(Copies(d.files, k), digest);
    }
  }

  /** No record's file name is taken by a remembered file of another package. */
  ghost predicate NamesApart(d: Durable) {
    forall k, n | k in d.packages && n == d.packages[k].filename && n in d.files && d.files[n].contents.Valid? ::
      d.files[n].contents.key == k
  }

  /** The files a deletion removes: those remembered for the targets, and the targets' own file names. */
  function NamesOf(d: Durable, keys: set<Key>): set<string> {
    (set n | n in d.files && d.files[n].contents.Valid? && d.files[n].contents.key in keys)
    + (set k | k in keys && k in d.packages && d.packages[k].filename != "" :: d.packages[k].filename)
  }

  /** With names apart, a deletion forgets only files of records it queued. */
  lemma DeletionIsSafe(d: Durable, keys: set<Key>, names: set<string>)
    requires Inv(d) && d.trusted && NamesApart(d)
    requires keys <= d.packages.Keys && keys <= d.dirty && names <= NamesOf(d, keys)
    ensures Safe(d, ForgetFiles(names))
  {
    forall k | k in d.packages && k !in d.dirty ensures Spared(d.packages[k], Copies(d.files, k), names) {
      var p, copies := d.packages[k], Copies(d.files, k);
      assert SettledOrQueued(d, k);
      assert forall n | n in copies :: n !in names;
      if p.status.Stored? {
        StoredNamesACopy(p, d.files);
      } else if p.status.Conflict? {
        assert !AllMatch(copies, p.digest);
      }
    }
  }
}
