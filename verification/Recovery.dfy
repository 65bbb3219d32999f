/**
 What a scan achieves. The routine scan trusts remembered files and settles only queued records; the full
 scan forgets everything first. Both reach the declarative result ScannedRecords / ScannedDirectory.
 */
module Recovery {
  import opened Text
  import opened Inventory
  import opened Protocol

  /** The order files are inventoried in: batch by batch, each batch by name. */
  function Listing(batches: seq<set<string>>): seq<string> {
    if |batches| == 0 then []
    else Listing(batches[..|batches| - 1]) + InOrder(batches[|batches| - 1])
  }

  function ListedNames(batches: seq<set<string>>): set<string> {
    if |batches| == 0 then {}
    else ListedNames(batches[..|batches| - 1]) + batches[|batches| - 1]
  }

  // The phases of a scan

  function Walk(d: Durable, batches: seq<set<string>>): Durable {
    if |batches| == 0 then d
    else VerifyTx(Walk(d, batches[..|batches| - 1]), batches[|batches| - 1])
  }

  function DropVanished(d: Durable): Durable {
    DropTx(d, d.files.Keys - d.disk.Keys)
  }

  /** Every queued record is settled, and leftovers of deleted ones leave the directory. */
  function SettleAll(d: Durable): Durable {
    SettleTx(d.(disk := d.disk - Leftovers(d, d.dirty)), d.dirty)
  }

  function Prologue(d: Durable, full: bool, order: seq<Key>): (r: Durable)
    requires forall k | k in order :: k in d.packages
  {
    if full then ForgetTx(d) else if d.trusted then d else AdoptTx(d, order)
  }

  /** A whole scan, before it trims the extensions that gained versions. */
  function Scan(d: Durable, full: bool, order: seq<Key>, batches: seq<set<string>>): Durable
    requires forall k | k in order :: k in d.packages
  {
    SettleAll(DropVanished(Walk(Prologue(d, full, order), batches)))
  }

  /** The table's records in the order adoption visits them, and the directory's names batch by batch. */
  ghost predicate Covers(d: Durable, order: seq<Key>, batches: seq<set<string>>) {
    && (forall k :: k in order <==> k in d.packages)
    && ListedNames(batches) == d.disk.Keys
  }

  // The trust hypothesis

  /** A remembered file the walk accepts unopened still holds the remembered bytes. */
  ghost predicate TrustsFiles(d: Durable) {
    forall n | n in d.files && n in d.disk && Accepts(d.files[n], d.disk[n]) ::
        d.files[n].contents == d.disk[n].contents
  }

  /** A stored record's file of the recorded size holds the record's bytes. */
  ghost predicate TrustsRecords(d: Durable) {
    forall k | k in d.packages && d.packages[k].status.Stored? ::
      var p := d.packages[k];
      p.filename !in d.files && p.filename in d.disk && d.disk[p.filename].size == p.digest.size ==>
        d.disk[p.filename].contents == Valid(k, p.digest)
  }

  ghost predicate Trusting(d: Durable) {
    TrustsFiles(d) && (!d.trusted ==> TrustsRecords(d))
  }

  /** What a scan may start from: a full one needs no trust. */
  ghost predicate MayScan(d: Durable, full: bool) {
    if full then WellFormed(d) else Inv(d) && Trusting(d)
  }

  ghost predicate Ready(d: Durable) {
    WellFormed(d) && forall k | k in d.packages :: QueuedOrAgrees(d, k)
  }

  // Adoption

  lemma AdoptOneKeepsTrust(d: Durable, k: Key)
    requires TrustsFiles(d) && TrustsRecords(d) && k in d.packages
    ensures TrustsFiles(AdoptOne(d, k)) && TrustsRecords(AdoptOne(d, k))
  {
    var e, n := AdoptOne(d, k), d.packages[k].filename;
    forall m | m in e.files && m in e.disk
        && Accepts(e.files[m], e.disk[m]) ensures e.files[m].contents == e.disk[m].contents {
      assert m in d.files || m == n;
    }
  }

  lemma {:induction false} AdoptKeepsTrust(d: Durable, keys: seq<Key>)
    requires TrustsFiles(d) && TrustsRecords(d)
    requires forall k | k in keys :: k in d.packages
    ensures TrustsFiles(AdoptTx(d, keys)) && TrustsRecords(AdoptTx(d, keys))
  {
    if |keys| > 0 {
      AdoptKeepsTrust(d, keys[..|keys| - 1]);
      AdoptOneKeepsTrust(AdoptTx(d, keys[..|keys| - 1]), keys[|keys| - 1]);
    }
  }

  lemma PrologueIsReady(d: Durable, full: bool, order: seq<Key>)
    requires forall k :: k in order <==> k in d.packages
    requires MayScan(d, full)
    ensures Ready(Prologue(d, full, order)) && TrustsFiles(Prologue(d, full, order))
    ensures Prologue(d, full, order).packages == d.packages && Prologue(d, full, order).disk == d.disk
  {
    if !full {
      if d.trusted {
        forall k | k in d.packages ensures QueuedOrAgrees(d, k) {
          assert SettledOrQueued(d, k);
        }
      } else {
        AdoptKeepsInv(d, order);
        AdoptKeepsTrust(d, order);
      }
    }
  }

  /** Which remembered file vouches for which record: one at most, and it is not opened while its size is right. */
  lemma {:induction false} AdoptionMeans(d: Durable, keys: seq<Key>, k: Key)
    requires d.files == map[] && d.dirty == {} && k in keys && forall j | j in keys :: j in d.packages
    requires forall i, j | 0 <= i < j < |keys| :: keys[i] != keys[j]
    ensures var p, r := d.packages[k], AdoptTx(d, keys);
      && (p.status != Stored || p.filename == "" ==> k in r.dirty)
      && (p.status == Stored && p.filename != ""
          && (forall j | j in keys && j != k :: d.packages[j].filename != p.filename) ==>
            && k !in r.dirty && p.filename in r.files
            && r.files[p.filename] == File(p.digest.size, -1, Valid(k, p.digest)))
  {
    hide AdoptOne;
    var front, last := keys[..|keys| - 1], keys[|keys| - 1];
    assert keys == front + [last];
    AdoptedNames(d, front);
    if k in front {
      AdoptionMeans(d, front, k);
      AdoptingAnother(AdoptTx(d, front), last, k);
    } else {
      AdoptingThis(AdoptTx(d, front), k);
    }
  }

  lemma AdoptingAnother(d: Durable, j: Key, k: Key)
    requires j in d.packages && k in d.packages && j != k
    ensures var p, r := d.packages[k], AdoptOne(d, j);
      && (k in r.dirty <==> k in d.dirty)
      && (d.packages[j].filename != p.filename && p.filename in d.files ==>
            p.filename in r.files && r.files[p.filename] == d.files[p.filename])
  {
  }

  lemma AdoptingThis(d: Durable, k: Key)
    requires k in d.packages && k !in d.dirty
    ensures var p, r := d.packages[k], AdoptOne(d, k);
      && (p.status != Stored || p.filename == "" ==> k in r.dirty)
      && (p.status == Stored && p.filename != "" && p.filename !in d.files ==>
            k !in r.dirty && p.filename in r.files
            && r.files[p.filename] == File(p.digest.size, -1, Valid(k, p.digest)))
  {
  }

  /** Adoption remembers and queues nothing but what it visits. */
  lemma {:induction false} AdoptedNames(d: Durable, keys: seq<Key>)
    requires d.files == map[] && d.dirty == {} && forall j | j in keys :: j in d.packages
    ensures var r := AdoptTx(d, keys);
      && (forall n | n in r.files :: exists j | j in keys :: d.packages[j].filename == n)
      && (forall j | j in r.dirty :: j in keys)
  {
    hide AdoptOne;
    if |keys| > 0 {
      var front, last := keys[..|keys| - 1], keys[|keys| - 1];
      assert keys == front + [last];
      AdoptedNames(d, front);
      AdoptOneNames(AdoptTx(d, front), last);
    }
  }

  lemma AdoptOneNames(d: Durable, k: Key)
    requires k in d.packages
    ensures var r := AdoptOne(d, k);
      r.files.Keys <= d.files.Keys + {d.packages[k].filename} && r.dirty <= d.dirty + {k}
  {
  }

  // The walk

  /** A file is opened unless it is remembered with this size, and this time or none. */
  lemma OpenedMeans(d: Durable, batch: set<string>, n: string)
    ensures n in ChangedIn(d, batch) <==>
            n in batch && n in d.disk
            && !(n in d.files && d.files[n].size == d.disk[n].size
                 && (d.files[n].mtime == d.disk[n].mtime || d.files[n].mtime == -1))
  {
  }

  /** Walking through an unchanged directory opens no file, queues no record and changes nothing. */
  lemma {:induction false} UnchangedIsLeftAlone(d: Durable, batches: seq<set<string>>)
    requires forall n | n in d.disk ::
        n in d.files && d.files[n].size == d.disk[n].size && d.files[n].mtime == d.disk[n].mtime
    ensures Walk(d, batches) == d
  {
    hide VerifyTx;
    if |batches| > 0 {
      var last := batches[|batches| - 1];
      UnchangedIsLeftAlone(d, batches[..|batches| - 1]);
      UnchangedBatch(d, last);
    }
  }

  lemma UnchangedBatch(d: Durable, batch: set<string>)
    requires forall n | n in d.disk ::
        n in d.files && d.files[n].size == d.disk[n].size && d.files[n].mtime == d.disk[n].mtime
    ensures VerifyTx(d, batch) == d
  {
    assert ChangedIn(d, batch) == {} && InOrder({}) == [];
    assert VerifiedFiles(d, batch) == d.files;
    assert KeysHeld(d.disk, {}) == {} && KeysHeld(d.files, {}) == {};
  }

  /** A routine scan of an unchanged directory with nothing queued settles nothing and leaves everything as it is. */
  lemma UnchangedScanIsFree(d: Durable, order: seq<Key>, batches: seq<set<string>>)
    requires Covers(d, order, batches) && d.trusted && d.dirty == {} && d.files.Keys == d.disk.Keys
    requires forall n | n in d.disk :: d.files[n].size == d.disk[n].size && d.files[n].mtime == d.disk[n].mtime
    ensures DropVanished(Walk(Prologue(d, false, order), batches)) == d
    ensures Scan(d, false, order, batches) == d
  {
    hide Walk, SettledRecord;
    UnchangedIsLeftAlone(d, batches);
    assert d.files.Keys - d.disk.Keys == {} && d.files - {} == d.files && KeysHeld(d.files, {}) == {};
    assert Leftovers(d, {}) == {} && d.disk - {} == d.disk;
  }

  lemma VerifyEntersBatch(d: Durable, batch: set<string>)
    requires WellFormed(d) && TrustsFiles(d) && batch <= d.disk.Keys
    ensures VerifyTx(d, batch).packages == EnterAll(d.packages, d.disk, InOrder(batch))
  {
    var changed := ChangedIn(d, batch);
    OrderOfPart(changed, batch);
    forall n | n in InOrder(batch) && n !in changed ensures d.disk[n].contents.Valid? ==>
        d.disk[n].contents.key in d.packages {
      assert n in d.files && Accepts(d.files[n], d.disk[n]);
    }
    EnterAllSkips(d.packages, d.disk, InOrder(batch), changed);
  }

  lemma VerifyRemembersBatch(d: Durable, batch: set<string>)
    requires TrustsFiles(d) && batch <= d.disk.Keys
    ensures VerifiedFiles(d, batch).Keys == d.files.Keys + batch
    ensures forall n | n in batch :: VerifiedFiles(d, batch)[n] == d.disk[n]
    ensures forall n | n in d.files && n !in batch :: VerifiedFiles(d, batch)[n] == d.files[n]
  {
    forall n | n in batch ensures VerifiedFiles(d, batch)[n] == d.disk[n] {
      if n !in ChangedIn(d, batch) {
        assert Accepts(d.files[n], d.disk[n]);
      }
    }
  }

  /**
   A verified batch enters the same records as if every file of it had been opened, and remembers them as they are.
   */
  lemma VerifyIsAccurate(d: Durable, batch: set<string>)
    requires WellFormed(d) && TrustsFiles(d) && batch <= d.disk.Keys
    ensures VerifyTx(d, batch).packages == EnterAll(d.packages, d.disk, InOrder(batch))
    ensures VerifyTx(d, batch).files.Keys == d.files.Keys + batch
    ensures forall n | n in batch :: VerifyTx(d, batch).files[n] == d.disk[n]
    ensures forall n | n in d.files && n !in batch :: VerifyTx(d, batch).files[n] == d.files[n]
    ensures TrustsFiles(VerifyTx(d, batch))
  {
    VerifyEntersBatch(d, batch);
    VerifyRemembersBatch(d, batch);
  }

  lemma VerifyKeepsReady(d: Durable, batch: set<string>)
    requires Ready(d)
    ensures Ready(VerifyTx(d, batch))
  {
    VerifyKeepsWellFormed(d, batch);
    forall k | k in VerifyTx(d, batch).packages ensures QueuedOrAgrees(VerifyTx(d, batch), k) {
      if k in d.packages {
        assert QueuedOrAgrees(d, k);
        if k !in VerifyTx(d, batch).dirty {
          VerifyKeepsCopies(d, batch, k);
        }
        StandingKept(d, VerifyTx(d, batch), k);
      }
    }
  }

  lemma {:induction false} WalkIsAccurate(d: Durable, batches: seq<set<string>>)
    requires Ready(d) && TrustsFiles(d) && ListedNames(batches) <= d.disk.Keys
    ensures var e := Walk(d, batches);
      && Ready(e) && TrustsFiles(e)
      && e.disk == d.disk && e.packages == EnterAll(d.packages, d.disk, Listing(batches))
      && forall n | n in ListedNames(batches) :: n in e.files && e.files[n] == d.disk[n]
  {
    if |batches| > 0 {
      var front, last := batches[..|batches| - 1], batches[|batches| - 1];
      WalkIsAccurate(d, front);
      VerifyIsAccurate(Walk(d, front), last);
      VerifyKeepsReady(Walk(d, front), last);
      EnterAllJoins(d.packages, d.disk, Listing(front), InOrder(last));
    }
  }

  // Settling

  lemma DropVanishedIsAccurate(d: Durable)
    requires Ready(d)
    requires forall n | n in d.disk :: n in d.files && d.files[n] == d.disk[n]
    ensures Ready(DropVanished(d))
    ensures DropVanished(d).files == d.disk && DropVanished(d).disk == d.disk && DropVanished(d).packages == d.packages
  {
    var e := DropVanished(d);
    forall k | k in d.packages ensures QueuedOrAgrees(e, k) {
      assert QueuedOrAgrees(d, k);
      if k !in e.dirty {
        assert forall n | n in d.files && Holds(d.files[n], k) && n !in d.disk ::
            k in KeysHeld(d.files, d.files.Keys - d.disk.Keys);
      }
      StandingKept(d, e, k);
    }
  }

  /** Settling the queue settles everything: the rest agreed already. */
  lemma SettleAllSettlesAll(d: Durable)
    requires Ready(d) && d.files == d.disk
    ensures SettleAll(d).packages == map k | k in d.packages :: SettledRecord(d.packages[k], d.disk)
    ensures SettleAll(d).disk == ScannedDirectory(d.packages, d.disk)
    ensures SettleAll(d).files == SettleAll(d).disk
    ensures SettleAll(d).dirty == {}
  {
    forall k | k in d.packages && k !in d.dirty ensures SettledRecord(d.packages[k], d.disk) == d.packages[k] {
      assert QueuedOrAgrees(d, k);
    }
    forall n | n in d.disk ensures n in Leftovers(d, d.dirty) <==> Condemned(d.packages, d.disk[n].contents) {
      if Condemned(d.packages, d.disk[n].contents) {
        var k := d.disk[n].contents.key;
        assert QueuedOrAgrees(d, k);
        assert n in Copies(d.files, k) && Copies(d.files, k)[n] == d.packages[k].digest;
      }
    }
  }

  /** Condemned files belong to records that were there before the scan. */
  lemma EnteringCondemnsNothing(packages: Packages, disk: Directory, names: seq<string>)
    ensures ScannedDirectory(EnterAll(packages, disk, names), disk) == ScannedDirectory(packages, disk)
  {
    EnterAllKeeps(packages, disk, names);
  }

  /**
   A scan reaches the declarative result: a full one from any well-formed state, a routine one from any
   state of a run, provided the files it does not open may be trusted.
   */
  lemma ScanReachesResult(d: Durable, full: bool, order: seq<Key>, batches: seq<set<string>>)
    requires Covers(d, order, batches)
    requires MayScan(d, full)
    ensures var e := Scan(d, full, order, batches);
      && e.packages == ScannedRecords(d.packages, d.disk, Listing(batches))
      && e.disk == ScannedDirectory(d.packages, d.disk)
      && e.files == e.disk
      && e.dirty == {}
      && Walk(Prologue(d, full, order), batches).packages == EnterAll(d.packages, d.disk, Listing(batches))
  {
    var p := Prologue(d, full, order);
    PrologueIsReady(d, full, order);
    WalkIsAccurate(p, batches);
    var w := Walk(p, batches);
    DropVanishedIsAccurate(w);
    SettleAllSettlesAll(DropVanished(w));
    EnteringCondemnsNothing(d.packages, d.disk, Listing(batches));
  }
}
