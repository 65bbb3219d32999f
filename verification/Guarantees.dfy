/**
 The promises of the inventory protocol: the fast scan equals the full one, scans may be stopped and
 repeated, and uploads and deletions cut short at any point are recovered by the next scan.
 */
module Guarantees {
  import opened Inventory
  import opened Protocol
  import opened Runs
  import opened Recovery

  /** What a scan counts as changed. */
  function StatusChanges(before: Packages, after: Packages): set<Key> {
    set k | k in before && k in after && before[k].status != after[k].status
  }

  /** The extensions a scan trims afterwards: those that gained stored versions. */
  function Grown(before: Packages, after: Packages): set<string> {
    set k | k in before && k in after && !before[k].status.Stored? && after[k].status.Stored? :: k.id
  }

  /**
   The routine scan is a faithful shortcut: from any state of a run, provided the files it does not open may be
   trusted, it ends with the records, remembered files, directory, change count and trim list of a full rescan.
   */
  lemma RoutineRefinesFull(d: Durable, order: seq<Key>, batches: seq<set<string>>)
    requires Inv(d) && Trusting(d) && Covers(d, order, batches)
    ensures var r, f := Scan(d, false, order, batches), Scan(d, true, order, batches);
      var rw, fw := Walk(Prologue(d, false, order), batches), Walk(Prologue(d, true, order), batches);
      && r.packages == f.packages && r.files == f.files && r.disk == f.disk && r.dirty == f.dirty
      && StatusChanges(rw.packages, r.packages) == StatusChanges(fw.packages, f.packages)
      && Grown(rw.packages, r.packages) == Grown(fw.packages, f.packages)
  {
    ScanReachesResult(d, false, order, batches);
    ScanReachesResult(d, true, order, batches);
  }

  /** The routine scan's own count, over queued records only, misses no change. */
  lemma OnlyQueuedRecordsChange(d: Durable)
    requires Ready(d) && d.files == d.disk
    ensures StatusChanges(d.packages, SettleAll(d).packages) <= d.dirty
  {
  }

  lemma RecordAfterScan(d: Durable, full: bool, order: seq<Key>, batches: seq<set<string>>, k: Key)
    requires Covers(d, order, batches) && k in d.packages
    requires MayScan(d, full)
    ensures k in Scan(d, full, order, batches).packages
    ensures Scan(d, full, order, batches).packages[k] == SettledRecord(d.packages[k], d.disk)
  {
    ScanReachesResult(d, full, order, batches);
    EnterAllKeeps(d.packages, d.disk, Listing(batches));
  }

  /** A record's status says exactly what the directory holds. */
  ghost predicate StatusIsTrue(p: Record, dir: Directory) {
    var copies := Copies(dir, p.key);
    match p.status
    case Stored => p.filename in copies && AllMatch(copies, p.digest)
    case Missing => copies.Keys == {}
    case Conflict => exists n | n in copies :: copies[n] != p.digest
    case Deleted => forall n | n in copies :: copies[n] != p.digest
    case Pending => false
  }

  /**
   After a scan every status is true of the directory, and the only files it removed are exact bytes of
   packages already recorded as deleted.
   */
  lemma ScanTellsTheTruth(d: Durable, full: bool, order: seq<Key>, batches: seq<set<string>>)
    requires Covers(d, order, batches)
    requires MayScan(d, full)
    ensures var e := Scan(d, full, order, batches);
      && (forall k | k in e.packages :: StatusIsTrue(e.packages[k], e.disk))
      && (forall n | n in d.disk && n !in e.disk ::
            var c := d.disk[n].contents;
            && c.Valid? && c.key in d.packages
            && d.packages[c.key].status == Deleted && d.packages[c.key].digest == c.digest)
      && (forall n | n in e.disk :: n in d.disk && e.disk[n] == d.disk[n])
  {
    var e, listing := Scan(d, full, order, batches), Listing(batches);
    ScanReachesResult(d, full, order, batches);
    EnteringCondemnsNothing(d.packages, d.disk, listing);
    var entered := EnterAll(d.packages, d.disk, listing);
    EnterAllKeeps(d.packages, d.disk, listing);
    forall k | k in entered ensures StatusIsTrue(e.packages[k], e.disk) {
      assert entered[k].key == k;
      SettledStatusIsTrue(entered, d.disk, k);
    }
  }

  lemma SettledStatusIsTrue(packages: Packages, disk: Directory, k: Key)
    requires k in packages && packages[k].key == k
    ensures StatusIsTrue(SettledRecord(packages[k], disk), ScannedDirectory(packages, disk))
  {
    var p, rest := packages[k], ScannedDirectory(packages, disk);
    if !p.status.Deleted? {
      CopiesFollowFiles(disk, rest, k);
      if Copies(disk, k).Keys != {} && !AllMatch(Copies(disk, k), p.digest) {
        assert exists n | n in Copies(disk, k) :: Copies(disk, k)[n] != p.digest;
      }
    }
  }

  // Repeating a scan

  /** The remembered files are the directory's, but for removed files whose packages are queued. */
  ghost predicate Mirrored(d: Durable) {
    && (forall n | n in d.disk :: n in d.files && d.files[n].contents == d.disk[n].contents)
    && (forall n | n in d.files && n !in d.disk && d.files[n].contents.Valid? :: d.files[n].contents.key in d.dirty)
  }

  /** Nothing is left to do but retry deletions. */
  ghost predicate Quiet(d: Durable) {
    && Inv(d) && d.trusted && Mirrored(d)
    && forall k | k in d.packages && k in d.dirty :: d.packages[k].status.Deleted?
  }

  lemma ScanEndsQuiet(d: Durable, full: bool, order: seq<Key>, batches: seq<set<string>>)
    requires Covers(d, order, batches)
    requires MayScan(d, full)
    ensures Quiet(Scan(d, full, order, batches).(trusted := true))
  {
    var p := Prologue(d, full, order);
    PrologueIsReady(d, full, order);
    WalkIsAccurate(p, batches);
    var w := Walk(p, batches);
    DropVanishedIsAccurate(w);
    var x := DropVanished(w);
    SettleAllSettlesAll(x);
    var y := x.(disk := x.disk - Leftovers(x, x.dirty));
    OtherTablesKeepInv(x, y);
    SettleKeepsInv(y, x.dirty);
    var e := Scan(d, full, order, batches);
    forall k | k in e.packages ensures QueuedOrAgrees(e, k) {
      if k in x.dirty {
        SettledAgrees(y, x.dirty, k);
      } else {
        assert QueuedOrAgrees(x, k);
        SettleKeepsCopies(x, x.dirty, k);
      }
    }
    OtherTablesKeepInv(e, e.(trusted := true));
  }

  /** A quiet record is already what the directory says. */
  lemma QuietRecordsAgree(d: Durable, k: Key)
    requires Quiet(d) && k in d.packages
    ensures SettledRecord(d.packages[k], d.disk) == d.packages[k]
  {
    assert SettledOrQueued(d, k);
    if !d.packages[k].status.Deleted? {
      CopiesFollowFiles(d.files, d.disk, k);
    }
  }

  lemma QuietResult(d: Durable, listing: seq<string>)
    requires Quiet(d)
    ensures EnterAll(d.packages, d.disk, listing) == d.packages
    ensures ScannedRecords(d.packages, d.disk, listing) == d.packages
  {
    assert Known(d.packages, d.disk, listing) by {
      forall n | n in d.disk && d.disk[n].contents.Valid? ensures d.disk[n].contents.key in d.packages {
        assert n in d.files && d.files[n].contents == d.disk[n].contents;
      }
    }
    EnterAllKnown(d.packages, d.disk, listing);
    forall k | k in d.packages ensures SettledRecord(d.packages[k], d.disk) == d.packages[k] {
      QuietRecordsAgree(d, k);
    }
  }

  /** Scanning again an unchanged directory changes no record, whatever deletions still have to be retried. */
  lemma SecondScanChangesNothing(d: Durable, full: bool, order: seq<Key>, batches: seq<set<string>>)
    requires Quiet(d) && Covers(d, order, batches)
    ensures Scan(d, full, order, batches).packages == d.packages
    ensures StatusChanges(Walk(Prologue(d, full, order), batches).packages, Scan(d, full, order, batches).packages) ==
        {}
  {
    assert Trusting(d);
    ScanReachesResult(d, full, order, batches);
    QuietResult(d, Listing(batches));
  }

  // Deletion

  predicate Bare(name: string) { name != "" && '/' !in name }

  /** The directory entries a deletion gets rid of; stuck ones cannot be removed now. */
  function Erasable(d: Durable, keys: set<Key>, stuck: set<string>): set<string> {
    set n | n in NamesOf(d, keys) && Bare(n) && !(n in d.disk && n in stuck)
  }

  /** The state a deletion leaves; forgets tells whether its last transaction succeeded. */
  function Removed(d: Durable, keys: set<Key>, stuck: set<string>, forgets: bool): Durable {
    var gone := Erasable(d, keys, stuck);
    MarkDeletedTx(d, keys).(disk := d.disk - gone, files := if forgets then d.files - gone else d.files)
  }

  /**
   What a deletion does to each name: those remembered for its targets or recorded in them leave the directory unless
   they have a path in them or cannot be removed, and with the last transaction they are forgotten. All else stays.
   */
  lemma RemovedMeans(d: Durable, keys: set<Key>, stuck: set<string>, forgets: bool, n: string)
    requires keys <= d.packages.Keys
    ensures var e := Removed(d, keys, stuck, forgets);
      var held := n in d.files && d.files[n].contents.Valid? && d.files[n].contents.key in keys;
      var meant := n != "" && '/' !in n && (held || exists k | k in keys :: d.packages[k].filename == n);
      && (n in e.disk <==> n in d.disk && (meant ==> n in stuck))
      && (n in e.files <==> n in d.files && (forgets && meant ==> n in d.disk && n in stuck))
      && (n in e.disk ==> e.disk[n] == d.disk[n])
      && (n in e.files ==> e.files[n] == d.files[n])
      && e.dirty == d.dirty + keys && e.packages.Keys == d.packages.Keys
      && (forall k | k in d.packages ::
            e.packages[k] == if k in keys then d.packages[k].(status := Deleted) else d.packages[k])
  {
  }

  /** Every state a deletion passes through once it is recorded. */
  function MidRemoval(d: Durable, keys: set<Key>, gone: set<string>, forgotten: set<string>): Durable {
    MarkDeletedTx(d, keys).(disk := d.disk - gone, files := d.files - forgotten)
  }

  /** Forgetting these names would leave every record right that the deletion does not queue. */
  ghost predicate SparesOthers(d: Durable, keys: set<Key>, names: set<string>) {
    forall k | k in d.packages && k !in keys && k !in d.dirty :: Spared(d.packages[k], Copies(d.files, k), names)
  }

  /** At every point of a deletion the invariant holds if and only if what it has forgotten spares the other records. */
  lemma RemovalKeepsInv(d: Durable, keys: set<Key>, gone: set<string>, forgotten: set<string>)
    requires Inv(d) && d.trusted && keys <= d.packages.Keys
    ensures Inv(MidRemoval(d, keys, gone, forgotten)) <==> SparesOthers(d, keys, forgotten)
  {
    hide Inv;
    var m, e := MarkDeletedTx(d, keys), MidRemoval(d, keys, gone, forgotten);
    MarkDeletedKeepsInv(d, keys);
    ForgetFilesKeepsInv(m, forgotten);
    SparingIsSafe(d, keys, forgotten);
    DiskIsIrrelevant(m.(files := m.files - forgotten), e);
  }

  lemma SparingIsSafe(d: Durable, keys: set<Key>, names: set<string>)
    ensures SparesOthers(d, keys, names) <==> Safe(MarkDeletedTx(d, keys), ForgetFiles(names))
  {
  }

  lemma DiskIsIrrelevant(d: Durable, e: Durable)
    requires e == d.(disk := e.disk)
    ensures Inv(d) <==> Inv(e)
  {
    if WellFormed(d) && Inv(d) {
      OtherTablesKeepInv(d, e);
    }
    if WellFormed(e) && Inv(e) {
      OtherTablesKeepInv(e, d);
    }
  }

  /** With names apart a deletion spares all others. */
  lemma NamesApartSpares(d: Durable, keys: set<Key>, names: set<string>)
    requires Inv(d) && d.trusted && NamesApart(d) && keys <= d.packages.Keys && names <= NamesOf(d, keys)
    ensures SparesOthers(d, keys, names)
  {
    hide Inv;
    var m := MarkDeletedTx(d, keys);
    MarkDeletedKeepsInv(d, keys);
    assert NamesOf(m, keys) == NamesOf(d, keys);
    DeletionIsSafe(m, keys, names);
    SparingIsSafe(d, keys, names);
  }

  /**
   A deletion cut short at any point is finished by the next scan: each target is still deleted, no file with
   its exact bytes is left, and of what the deletion had not removed only exact bytes of deleted packages go.
   */
  lemma DeletionRecovers(d: Durable, keys: set<Key>, gone: set<string>, forgotten: set<string>,
                         full: bool, order: seq<Key>, batches: seq<set<string>>)
    requires Inv(d) && d.trusted && TrustsFiles(d) && (full || SparesOthers(d, keys, forgotten))
    requires keys <= d.packages.Keys && forgotten <= gone <= NamesOf(d, keys)
    requires Covers(MidRemoval(d, keys, gone, forgotten), order, batches)
    ensures var e := Scan(MidRemoval(d, keys, gone, forgotten), full, order, batches);
      && (forall k | k in keys :: k in e.packages && e.packages[k] == d.packages[k].(status := Deleted))
      && (forall k, n | k in keys && n in e.disk :: e.disk[n].contents != Valid(k, d.packages[k].digest))
      && (forall n | n in d.disk && n !in gone && n !in e.disk ::
            var c := d.disk[n].contents;
            && c.Valid? && c.key in e.packages
            && e.packages[c.key].status == Deleted && e.packages[c.key].digest == c.digest)
  {
    hide Scan, Inv, Settled, NamesOf, EnterAll, Copies, Listing, SparesOthers;
    var s := MidRemoval(d, keys, gone, forgotten);
    RemovalKeepsInv(d, keys, gone, forgotten);
    RemovalIsWellFormed(d, keys, gone, forgotten);
    ScanReachesResult(s, full, order, batches);
    EnterAllKeeps(s.packages, s.disk, Listing(batches));
    forall k | k in keys ensures SettledRecord(s.packages[k], s.disk) == d.packages[k].(status := Deleted) {
    }
  }

  lemma RemovalIsWellFormed(d: Durable, keys: set<Key>, gone: set<string>, forgotten: set<string>)
    requires Inv(d) && TrustsFiles(d)
    ensures WellFormed(d) && WellFormed(MidRemoval(d, keys, gone, forgotten))
        && TrustsFiles(MidRemoval(d, keys, gone, forgotten))
  {
    MarkDeletedPreserves(d, keys);
  }

  /** Trims after a scan leave nothing to do but retry deletions, wherever they stop. */
  lemma RemovalKeepsQuiet(d: Durable, keys: set<Key>, gone: set<string>, forgotten: set<string>)
    requires Quiet(d) && NamesApart(d) && keys <= d.packages.Keys && forgotten <= gone <= NamesOf(d, keys)
    ensures Quiet(MidRemoval(d, keys, gone, forgotten)) && NamesApart(MidRemoval(d, keys, gone, forgotten))
  {
    hide Inv;
    var e := MidRemoval(d, keys, gone, forgotten);
    QuietIsInv(d);
    NamesApartSpares(d, keys, forgotten);
    RemovalKeepsInv(d, keys, gone, forgotten);
    forall n | n in e.files && n !in e.disk && e.files[n].contents.Valid? ensures e.files[n].contents.key in e.dirty {
      if n in gone {
        GoneFilesAreQueued(d, keys, n);
      }
    }
  }

  lemma QuietIsInv(d: Durable)
    requires Quiet(d)
    ensures Inv(d) && WellFormed(d)
  {
  }

  lemma GoneFilesAreQueued(d: Durable, keys: set<Key>, n: string)
    requires NamesApart(d) && keys <= d.packages.Keys && n in NamesOf(d, keys) && n in d.files
        && d.files[n].contents.Valid?
    ensures d.files[n].contents.key in keys
  {
  }

  // Between scans

  /**
   What requests find: after a reconciliation of a sound state, everything in order; after one that failed, or has
   forgotten and not yet found all files again, only what requests need; after edits from outside, nothing certain.
   */
  datatype Standing = Doubtful | Usable | Complete

  function AsTrusted(d: Durable): Durable { d.(trusted := true) }

  /** Settled or queued as if files were trusted, with the files of known packages located. */
  ghost predicate IsUsable(d: Durable) {
    Inv(AsTrusted(d)) && Located(d)
  }

  ghost predicate InService(standing: Standing, d: Durable) {
    match standing
    case Doubtful => true
    case Usable => IsUsable(d)
    case Complete => Inv(d) && d.trusted && Tracked(d)
  }

  ghost predicate AllInService(standing: Standing, t: seq<Event>, from: nat) {
    forall i | from <= i < |t| :: InService(standing, t[i].state)
  }

  lemma QuietIsInService(d: Durable)
    requires Quiet(d)
    ensures InService(Complete, d)
  {
    hide Inv;
    QuietIsInv(d);
  }

  lemma CompleteIsUsable(d: Durable)
    requires InService(Complete, d)
    ensures InService(Usable, d)
  {
    hide Inv;
    TrackedIsLocated(d);
    assert AsTrusted(d) == d;
  }

  /** A safe step that requests take keeps the standing, whether or not files are trusted. */
  lemma StepStaysInService(standing: Standing, d: Durable, a: Action)
    requires InService(standing, d) && Allowed(d, a) && Serving(d, a)
    requires !standing.Doubtful? ==> Safe(AsTrusted(d), a)
    ensures InService(standing, Apply(d, a))
  {
    hide Inv, Tracked, Located, Safe;
    match standing
    case Doubtful =>
    case Usable =>
      StepIgnoresTrust(d, a);
      StepKeepsInv(AsTrusted(d), a);
      StepKeepsLocated(d, a);
    case Complete =>
      assert AsTrusted(d) == d;
      StepKeepsInv(d, a);
      StepKeepsTracked(d, a);
  }

  lemma StepIgnoresTrust(d: Durable, a: Action)
    requires Allowed(d, a) && Serving(d, a)
    ensures Allowed(AsTrusted(d), a) && Apply(AsTrusted(d), a) == AsTrusted(Apply(d, a))
  {
  }

  /** With names apart, every state of a removal keeps the standing, and names stay apart. */
  lemma RemovalStaysInService(standing: Standing, d: Durable, keys: set<Key>, gone: set<string>, forgotten: set<string>)
    requires InService(standing, d) && NamesApart(d) && keys <= d.packages.Keys && forgotten <= gone <= NamesOf(d, keys)
    ensures InService(standing, MidRemoval(d, keys, gone, forgotten))
        && NamesApart(MidRemoval(d, keys, gone, forgotten))
  {
    hide Inv, SparesOthers;
    var t := AsTrusted(d);
    if !standing.Doubtful? {
      assert standing.Complete? ==> t == d;
      assert NamesOf(t, keys) == NamesOf(d, keys) && NamesApart(t);
      NamesApartSpares(t, keys, forgotten);
      RemovalKeepsInv(t, keys, gone, forgotten);
      assert MidRemoval(t, keys, gone, forgotten) == AsTrusted(MidRemoval(d, keys, gone, forgotten));
    }
  }

  // Upload

  // The durable states of an upload that creates or restores a package.

  function Linked(d: Durable, p: Record, file: File): Durable {
    JournalTx(d, p).(disk := d.disk[p.filename := file])
  }

  function Published(d: Durable, p: Record, file: File, mtime: int): Durable {
    PublishTx(Linked(d, p, file), p.(status := Stored), mtime)
  }

  /** p may be uploaded over d: new, or known with the same bytes, and its file name is free. */
  ghost predicate Uploadable(d: Durable, p: Record, file: File) {
    && p.status.Pending? && (p.key in d.packages ==> d.packages[p.key].digest == p.digest)
    && p.filename !in d.disk && file.contents == Valid(p.key, p.digest)
    // A file remembered under this name, but gone, is not mistaken for a new one with other contents.
    && (p.filename in d.files && Accepts(d.files[p.filename], file) ==> d.files[p.filename].contents == file.contents)
  }

  ghost predicate Recoverable(d: Durable) {
    Inv(d) && d.trusted && TrustsFiles(d)
  }

  lemma JournaledIsRecoverable(d: Durable, p: Record)
    requires Recoverable(d) && Allowed(d, Journal(p))
    ensures Recoverable(JournalTx(d, p))
  {
    JournalKeepsInv(d, p);
  }

  lemma LinkedIsRecoverable(d: Durable, p: Record, file: File)
    requires Recoverable(d) && Uploadable(d, p, file)
    ensures Recoverable(Linked(d, p, file))
  {
    JournaledIsRecoverable(d, p);
    OtherTablesKeepInv(JournalTx(d, p), Linked(d, p, file));
  }

  lemma PublishedIsRecoverable(d: Durable, p: Record, file: File, mtime: int)
    requires Recoverable(d) && Uploadable(d, p, file)
    ensures Recoverable(Published(d, p, file, mtime))
  {
    LinkedIsRecoverable(d, p, file);
    PublishKeepsInv(Linked(d, p, file), p.(status := Stored), mtime);
  }

  lemma ReceiptedIsRecoverable(d: Durable, idem: string, r: Receipt)
    requires Recoverable(d) && r.key in d.packages && d.packages[r.key].digest == r.digest
    ensures Recoverable(ReceiptTx(d, idem, r))
  {
    ReceiptPreserves(d, idem, r);
    OtherTablesKeepInv(d, ReceiptTx(d, idem, r));
  }

  /**
   An upload cut short right after it was journaled: the next scan calls the package missing exactly when
   nothing in the directory holds it.
   */
  lemma JournaledUploadRecovers(d: Durable, p: Record, full: bool, order: seq<Key>, batches: seq<set<string>>)
    requires Recoverable(d) && Allowed(d, Journal(p)) && Covers(JournalTx(d, p), order, batches)
    ensures var e := Scan(JournalTx(d, p), full, order, batches);
      && p.key in e.packages && e.packages[p.key].digest == p.digest
      && (e.packages[p.key].status.Missing? <==> Copies(d.disk, p.key).Keys == {})
  {
    JournaledIsRecoverable(d, p);
    RecordAfterScan(JournalTx(d, p), full, order, batches, p.key);
  }

  /**
   Where the recorded file is in place with the exact bytes, a scan says stored exactly when no other copy differs.
   */
  lemma FileInPlaceSurvives(s: Durable, k: Key, full: bool, order: seq<Key>, batches: seq<set<string>>)
    requires MayScan(s, full) && Covers(s, order, batches)
    requires k in s.packages && !s.packages[k].status.Deleted?
    requires s.packages[k].filename in s.disk
        && s.disk[s.packages[k].filename].contents == Valid(k, s.packages[k].digest)
    ensures var p, e := s.packages[k], Scan(s, full, order, batches);
      && p.filename in e.disk && e.disk[p.filename] == s.disk[p.filename]
      && k in e.packages
      && (e.packages[k] == p.(status := Stored) <==> AllMatch(Copies(s.disk, k), p.digest))
  {
    var p := s.packages[k];
    RecordAfterScan(s, full, order, batches, k);
    ScanReachesResult(s, full, order, batches);
    assert p.key == k && p.filename in Copies(s.disk, k);
  }

  lemma LinkAddsMatchingCopy(d: Durable, p: Record, file: File)
    requires Uploadable(d, p, file)
    ensures AllMatch(Copies(Linked(d, p, file).disk, p.key), p.digest) <==> AllMatch(Copies(d.disk, p.key), p.digest)
  {
    var before, after := Copies(d.disk, p.key), Copies(Linked(d, p, file).disk, p.key);
    assert after == before[p.filename := p.digest];
    assert forall n | n in before :: n != p.filename && after[n] == before[n];
  }

  /**
   An upload cut short after the link, after publication, or after its receipt: the next scan finds the exact
   bytes in place, and the package stored exactly when no other copy under its identity differs.
   */
  lemma LinkedUploadRecovers(d: Durable, p: Record, file: File, mtime: int, s: Durable,
                             full: bool, order: seq<Key>, batches: seq<set<string>>)
    requires Recoverable(d) && Uploadable(d, p, file) && Covers(s, order, batches)
    requires s == Linked(d, p, file) || s == Published(d, p, file, mtime)
             || exists idem :: s == ReceiptTx(Published(d, p, file, mtime), idem, Receipt(p.digest, p.key))
    ensures var e := Scan(s, full, order, batches);
      && p.filename in e.disk && e.disk[p.filename] == file
      && p.key in e.packages
      && (e.packages[p.key] == p.(status := Stored) <==> AllMatch(Copies(d.disk, p.key), p.digest))
  {
    LinkedIsRecoverable(d, p, file);
    PublishedIsRecoverable(d, p, file, mtime);
    if s != Linked(d, p, file) && s != Published(d, p, file, mtime) {
      var idem :| s == ReceiptTx(Published(d, p, file, mtime), idem, Receipt(p.digest, p.key));
      ReceiptedIsRecoverable(Published(d, p, file, mtime), idem, Receipt(p.digest, p.key));
    }
    LinkAddsMatchingCopy(d, p, file);
    assert s.disk == Linked(d, p, file).disk;
    FileInPlaceSurvives(s, p.key, full, order, batches);
  }
}
