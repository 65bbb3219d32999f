/**
 The durable state, its atomic transactions, and the invariant every run keeps.

 A run is a sequence of events. Each event is one database transaction, one link or removal in the
 directory, or an edit from outside. A crash or an error return may follow any event and loses only
 what the process remembered, so every state of a run is a possible state after a restart.
 */
module Protocol {
  import opened Wrappers
  import opened Text
  import opened Inventory

  datatype Receipt = Receipt(digest: Digest, key: Key)

  datatype Durable = Durable(
    packages: Packages,
    files: Directory,             // remembered files
    dirty: set<Key>,              // keys the next scan must settle
    trusted: bool,                // a scan has completed since the files were adopted or forgotten
    uploads: map<string, Receipt>,
    limits: map<string, nat>,     // extensions with their own version limit
    keep: nat,                    // the library's version limit; 0 keeps every version
    disk: Directory)

  datatype Action =
    | Forget
    | Adopt(keys: seq<Key>)
    | Verify(batch: set<string>)
    | Drop(names: set<string>)
    | Settle(settling: set<Key>)
    | Trust
    | Journal(p: Record)
    | Link(name: string, file: File)
    | Publish(published: Record, mtime: int)
    | SaveReceipt(idem: string, receipt: Receipt)
    | MarkDeleted(targets: set<Key>)
    | Unlink(gone: string)
    | ForgetFiles(removed: set<string>)
    | SetKeepDefault(library: nat)
    | SetKeep(id: string, own: Option<nat>)
    | Outside(edited: Directory)

  datatype Event = Event(action: Action, state: Durable)

  // Transactions

  function KeysHeld(dir: Directory, names: set<string>): set<Key> {
    set n | n in names && n in dir && dir[n].contents.Valid? :: dir[n].contents.key
  }

  function ForgetTx(d: Durable): Durable {
    d.(files := map[], trusted := false, dirty := d.dirty + d.packages.Keys)
  }

  /** A stored record vouches for its file unless that name is remembered already; other records are queued. */
  function AdoptOne(d: Durable, k: Key): Durable
    requires k in d.packages
  {
    var p := d.packages[k];
    if p.status.Stored? && p.filename != "" && p.filename !in d.files then
      d.(files := d.files[p.filename := File(p.digest.size, UNKNOWN_TIME, Valid(k, p.digest))])
    else
      d.(dirty := d.dirty + {k})
  }

  function AdoptTx(d: Durable, keys: seq<Key>): (r: Durable)
    requires forall k | k in keys :: k in d.packages
    ensures r.packages == d.packages && r.disk == d.disk && r.trusted == d.trusted && r.uploads == d.uploads
    ensures r.limits == d.limits && r.keep == d.keep
  {
    if |keys| == 0 then d
    else AdoptOne(AdoptTx(d, keys[..|keys| - 1]), keys[|keys| - 1])
  }

  /** The files of a batch that must be opened: new, or with another size or modification time. */
  function ChangedIn(d: Durable, batch: set<string>): set<string> {
    set n | n in batch && n in d.disk && !(n in d.files && Accepts(d.files[n], d.disk[n]))
  }

  function VerifiedFiles(d: Durable, batch: set<string>): Directory {
    map n | n in d.files.Keys + (batch * d.disk.Keys) ::
      if n in ChangedIn(d, batch) then d.disk[n]
      else if n in batch && n in d.disk then d.files[n].(mtime := d.disk[n].mtime)
      else d.files[n]
  }

  function VerifyTx(d: Durable, batch: set<string>): Durable {
    var changed := ChangedIn(d, batch);
    d.(packages := EnterAll(d.packages, d.disk, InOrder(changed)),
       files := VerifiedFiles(d, batch),
       dirty := d.dirty + KeysHeld(d.disk, changed) + KeysHeld(d.files, changed))
  }

  function DropTx(d: Durable, names: set<string>): Durable {
    d.(files := d.files - names, dirty := d.dirty + KeysHeld(d.files, names))
  }

  /** Remembered files with the exact bytes of a deleted record among keys. */
  function Leftovers(d: Durable, keys: set<Key>): set<string> {
    set n | n in d.files && Condemned(d.packages, d.files[n].contents) && d.files[n].contents.key in keys
  }

  function SettleTx(d: Durable, keys: set<Key>): Durable {
    d.(packages := map k | k in d.packages ::
        if k in keys then SettledRecord(d.packages[k], d.files) else d.packages[k],
       files := d.files - Leftovers(d, keys),
       dirty := d.dirty - keys)
  }

  function JournalTx(d: Durable, p: Record): Durable {
    d.(packages := d.packages[p.key := p], dirty := d.dirty + {p.key})
  }

  function RememberedAs(p: Record, mtime: int): File {
    File(p.digest.size, mtime, Valid(p.key, p.digest))
  }

  function PublishTx(d: Durable, p: Record, mtime: int): Durable {
    d.(packages := d.packages[p.key := p],
       files := d.files[p.filename := RememberedAs(p, mtime)],
       dirty := d.dirty + (KeysHeld(d.files, {p.filename}) - {p.key}))
  }

  function ReceiptTx(d: Durable, idem: string, r: Receipt): Durable {
    if idem in d.uploads then d else d.(uploads := d.uploads[idem := r])
  }

  function MarkedDeleted(packages: Packages, keys: set<Key>): Packages {
    map k | k in packages :: if k in keys then packages[k].(status := Deleted) else packages[k]
  }

  function MarkDeletedTx(d: Durable, keys: set<Key>): Durable {
    d.(packages := MarkedDeleted(d.packages, keys), dirty := d.dirty + keys)
  }

  function SetKeepTx(d: Durable, id: string, own: Option<nat>): Durable {
    d.(limits := if own.Some? then d.limits[id := own.value] else d.limits - {id})
  }

  // What the code has established when it takes a step

  ghost predicate Allowed(d: Durable, a: Action) {
    match a
    case Adopt(keys) => forall k | k in keys :: k in d.packages
    case Verify(batch) => batch <= d.disk.Keys
    case Drop(names) => names !! d.disk.Keys
    case Settle(keys) => keys <= d.dirty && Leftovers(d, keys) !! d.disk.Keys
    case Journal(p) => p.status.Pending? && (p.key in d.packages ==> d.packages[p.key].digest == p.digest)
    case Link(name, file) => name !in d.disk
    case Publish(p, mtime) =>
      && p.status.Stored?
      && p.key in d.packages && d.packages[p.key].digest == p.digest
      && p.filename in d.disk && d.disk[p.filename].contents == Valid(p.key, p.digest)
    case SaveReceipt(idem, r) => r.key in d.packages && d.packages[r.key].digest == r.digest
    case MarkDeleted(keys) => keys <= d.packages.Keys
    case ForgetFiles(names) => names !! d.disk.Keys
    case _ => true
  }

  ghost function Apply(d: Durable, a: Action): Durable
    requires Allowed(d, a)
  {
    match a
    case Forget => ForgetTx(d)
    case Adopt(keys) => AdoptTx(d, keys)
    case Verify(batch) => VerifyTx(d, batch)
    case Drop(names) => DropTx(d, names)
    case Settle(keys) => SettleTx(d, keys)
    case Trust => d.(trusted := true)
    case Journal(p) => JournalTx(d, p)
    case Link(name, file) => d.(disk := d.disk[name := file])
    case Publish(p, mtime) => PublishTx(d, p, mtime)
    case SaveReceipt(idem, r) => ReceiptTx(d, idem, r)
    case MarkDeleted(keys) => MarkDeletedTx(d, keys)
    case Unlink(name) => d.(disk := d.disk - {name})
    case ForgetFiles(names) => d.(files := d.files - names)
    case SetKeepDefault(n) => d.(keep := n)
    case SetKeep(id, own) => SetKeepTx(d, id, own)
    case Outside(edited) => d.(disk := edited)
  }

  ghost predicate IsRun(t: seq<Event>) {
    && |t| > 0
    && forall i | 0 < i < |t| :: Follows(t[i - 1].state, t[i])
  }

  ghost predicate Follows(d: Durable, e: Event) {
    Allowed(d, e.action) && e.state == Apply(d, e.action)
  }

  lemma RunExtends(t: seq<Event>, e: Event)
    requires IsRun(t) && Follows(t[|t| - 1].state, e)
    ensures IsRun(t + [e])
  {
  }

  // The invariant

  ghost predicate WellFormed(d: Durable) {
    && (forall k | k in d.packages :: d.packages[k].key == k)
    && (forall n | n in d.files && d.files[n].contents.Valid? :: d.files[n].contents.key in d.packages)
    && (forall i | i in d.uploads ::
           d.uploads[i].key in d.packages && d.packages[d.uploads[i].key].digest == d.uploads[i].digest)
  }

  /** The record needs no settling, or is queued for it. */
  ghost predicate QueuedOrAgrees(d: Durable, k: Key) {
    k in d.packages && (k in d.dirty || Agrees(d.packages[k], d.files))
  }

  /** Before the first scan completes, records nobody vouched for yet may still await adoption. */
  ghost predicate SettledOrQueued(d: Durable, k: Key) {
    QueuedOrAgrees(d, k) || (!d.trusted && Copies(d.files, k).Keys == {})
  }

  ghost predicate Inv(d: Durable) {
    WellFormed(d) && forall k | k in d.packages :: SettledOrQueued(d, k)
  }

  /** The same files hold the key, with the same bytes. */
  ghost predicate SameCopies(a: Directory, b: Directory, k: Key) {
    && (forall n | n in a && Holds(a[n], k) :: n in b && b[n].contents == a[n].contents)
    && (forall n | n in b && Holds(b[n], k) :: n in a && a[n].contents == b[n].contents)
  }

  /** A step that moves neither the record nor its copies, and queues at least as much, keeps its standing. */
  lemma StandingKept(d: Durable, e: Durable, k: Key)
    requires k in d.packages && k in e.packages && e.packages[k] == d.packages[k] && d.packages[k].key == k
    requires d.dirty <= e.dirty && e.trusted == d.trusted
    requires k !in e.dirty ==> SameCopies(e.files, d.files, k)
    ensures QueuedOrAgrees(d, k) ==> QueuedOrAgrees(e, k)
    ensures SettledOrQueued(d, k) ==> SettledOrQueued(e, k)
  {
    if k !in e.dirty {
      CopiesFollowFiles(e.files, d.files, k);
    }
  }

  lemma CopiesFollowFiles(a: Directory, b: Directory, k: Key)
    requires SameCopies(a, b, k)
    ensures Copies(a, k) == Copies(b, k)
  {
    assert Copies(a, k).Keys == Copies(b, k).Keys;
  }

  // Names: what forgetting files and confirming an upload must not upset

  /** Forgetting names leaves a settled record's status unchanged. */
  predicate Spared(p: Record, copies: map<string, Digest>, names: set<string>) {
    match p.status
    case Stored => p.filename !in names
    case Conflict => exists n | n in copies :: n !in names && copies[n] != p.digest
    case _ => true
  }

  /**
   No transaction may leave a record wrong without queueing it. All do so by construction except three:
   removed files are forgotten unqueued, a confirmed upload is recorded as stored, and the first scan ends
   by trusting the remembered files.
   */
  ghost predicate Safe(d: Durable, a: Action) {
    match a
    case ForgetFiles(names) =>
      forall k | k in d.packages && k !in d.dirty :: Spared(d.packages[k], Copies(d.files, k), names)
    case Publish(p, mtime) =>
      p.key in d.dirty || forall n | n in Copies(d.files, p.key) ::
          n == p.filename || Copies(d.files, p.key)[n] == p.digest
    case Trust => forall k | k in d.packages :: QueuedOrAgrees(d, k)
    case _ => true
  }

  /** A stored record whose file nobody remembers has no copies yet, so adopting its file makes it agree. */
  lemma AdoptedRecordAgrees(p: Record, files: Directory)
    requires p.status.Stored? && p.filename !in files
    requires Agrees(p, files) || Copies(files, p.key).Keys == {}
    ensures Agrees(p, files[p.filename := File(p.digest.size, UNKNOWN_TIME, Valid(p.key, p.digest))])
  {
    if Agrees(p, files) {
      StoredNamesACopy(p, files);
    }
    var copies := Copies(files[p.filename := File(p.digest.size, UNKNOWN_TIME, Valid(p.key, p.digest))], p.key);
    assert copies.Keys == {p.filename} && AllMatch(copies, p.digest);
    assert Settled(p, copies) == p;
  }

  lemma AdoptOneFrames(d: Durable, k: Key, j: Key)
    requires Inv(d) && k in d.packages && j in d.packages && j != k
    ensures QueuedOrAgrees(d, j) ==> QueuedOrAgrees(AdoptOne(d, k), j)
    ensures SettledOrQueued(AdoptOne(d, k), j)
  {
    var e := AdoptOne(d, k);
    assert SettledOrQueued(d, j);
    assert SameCopies(e.files, d.files, j) by {
      assert e.files == d.files || (d.packages[k].filename !in d.files && !Holds(e.files[d.packages[k].filename], j));
    }
    StandingKept(d, e, j);
  }

  lemma AdoptOneSettles(d: Durable, k: Key)
    requires Inv(d) && k in d.packages
    ensures QueuedOrAgrees(AdoptOne(d, k), k)
  {
    assert SettledOrQueued(d, k);
    if k !in AdoptOne(d, k).dirty {
      AdoptedRecordAgrees(d.packages[k], d.files);
    }
  }

  lemma AdoptOneKeepsTables(d: Durable, k: Key)
    requires WellFormed(d) && k in d.packages
    ensures WellFormed(AdoptOne(d, k)) && AdoptOne(d, k).packages == d.packages
  {
  }

  lemma AdoptOneKeepsInv(d: Durable, k: Key)
    requires Inv(d) && k in d.packages
    ensures Inv(AdoptOne(d, k))
    ensures QueuedOrAgrees(AdoptOne(d, k), k)
    ensures forall j | QueuedOrAgrees(d, j) :: QueuedOrAgrees(AdoptOne(d, k), j)
  {
    hide AdoptOne, Agrees, WellFormed, Copies;
    var e := AdoptOne(d, k);
    AdoptOneKeepsTables(d, k);
    AdoptOneSettles(d, k);
    forall j | j in d.packages && j != k
      ensures SettledOrQueued(e, j) && (QueuedOrAgrees(d, j) ==> QueuedOrAgrees(e, j))
    {
      AdoptOneFrames(d, k, j);
    }
  }

  /** Once every record has been offered, each is queued or agrees with its own file. */
  lemma {:induction false} AdoptKeepsInv(d: Durable, keys: seq<Key>)
    requires Inv(d) && forall k | k in keys :: k in d.packages
    ensures Inv(AdoptTx(d, keys))
    ensures forall k | k in keys || QueuedOrAgrees(d, k) :: QueuedOrAgrees(AdoptTx(d, keys), k)
  {
    if |keys| > 0 {
      var front, k := keys[..|keys| - 1], keys[|keys| - 1];
      assert keys == front + [k];
      AdoptKeepsInv(d, front);
      AdoptOneKeepsInv(AdoptTx(d, front), k);
    }
  }

  /** A key that a batch does not queue is held by the same files as before. */
  lemma VerifyKeepsCopies(d: Durable, batch: set<string>, k: Key)
    requires k !in VerifyTx(d, batch).dirty
    ensures SameCopies(VerifiedFiles(d, batch), d.files, k)
  {
    var changed := ChangedIn(d, batch);
    forall n | n in changed ensures n in d.disk && !Holds(d.disk[n], k) && (n in d.files ==> !Holds(d.files[n], k)) {
      assert Holds(d.disk[n], k) ==> k in KeysHeld(d.disk, changed);
      assert n in d.files && Holds(d.files[n], k) ==> k in KeysHeld(d.files, changed);
    }
  }

  lemma VerifyEnters(d: Durable, batch: set<string>)
    ensures d.packages.Keys <= VerifyTx(d, batch).packages.Keys
    ensures forall k | k in d.packages :: VerifyTx(d, batch).packages[k] == d.packages[k]
    ensures forall k | k in VerifyTx(d, batch).packages && k !in d.packages ::
              VerifyTx(d, batch).packages[k].key == k && k in VerifyTx(d, batch).dirty
    ensures forall n | n in ChangedIn(d, batch) && d.disk[n].contents.Valid? ::
        d.disk[n].contents.key in VerifyTx(d, batch).packages
  {
    var changed := ChangedIn(d, batch);
    var entered := EnterAll(d.packages, d.disk, InOrder(changed));
    EnterAllKeeps(d.packages, d.disk, InOrder(changed));
    forall k | k in entered && k !in d.packages ensures k in KeysHeld(d.disk, changed) {
      var n := entered[k].filename;
      assert n in InOrder(changed);
    }
    forall n | n in changed && d.disk[n].contents.Valid? ensures d.disk[n].contents.key in entered {
      assert n in InOrder(changed);
    }
  }

  lemma VerifyKeepsWellFormed(d: Durable, batch: set<string>)
    requires WellFormed(d)
    ensures WellFormed(VerifyTx(d, batch))
    ensures d.packages.Keys <= VerifyTx(d, batch).packages.Keys
    ensures forall k | k in d.packages :: VerifyTx(d, batch).packages[k] == d.packages[k]
    ensures forall k | k in VerifyTx(d, batch).packages && k !in d.packages :: k in VerifyTx(d, batch).dirty
  {
    VerifyEnters(d, batch);
    var files := VerifiedFiles(d, batch);
    forall n | n in files && files[n].contents.Valid? ensures files[n].contents.key in VerifyTx(d, batch).packages {
      if n !in ChangedIn(d, batch) {
        assert n in d.files && files[n].contents == d.files[n].contents;
      }
    }
  }

  lemma VerifyKeepsInv(d: Durable, batch: set<string>)
    requires Inv(d)
    ensures Inv(VerifyTx(d, batch))
    ensures forall k | QueuedOrAgrees(d, k) :: QueuedOrAgrees(VerifyTx(d, batch), k)
  {
    var e := VerifyTx(d, batch);
    VerifyKeepsWellFormed(d, batch);
    forall k | k in d.packages
      ensures SettledOrQueued(e, k) && (QueuedOrAgrees(d, k) ==> QueuedOrAgrees(e, k))
    {
      assert SettledOrQueued(d, k);
      if k !in e.dirty {
        VerifyKeepsCopies(d, batch, k);
      }
      StandingKept(d, e, k);
    }
  }

  lemma DropKeepsInv(d: Durable, names: set<string>)
    requires Inv(d)
    ensures Inv(DropTx(d, names))
    ensures forall k | QueuedOrAgrees(d, k) :: QueuedOrAgrees(DropTx(d, names), k)
  {
    var e := DropTx(d, names);
    forall k | k in d.packages
      ensures SettledOrQueued(e, k) && (QueuedOrAgrees(d, k) ==> QueuedOrAgrees(e, k))
    {
      assert SettledOrQueued(d, k);
      if k !in e.dirty {
        assert forall n | n in d.files && Holds(d.files[n], k) && n in names :: k in KeysHeld(d.files, names);
      }
      StandingKept(d, e, k);
    }
  }

  /** Settling removes remembered files of deleted records only. */
  lemma SettleKeepsCopies(d: Durable, keys: set<Key>, k: Key)
    requires k in d.packages && (k !in keys || !d.packages[k].status.Deleted?)
    ensures Copies(d.files - Leftovers(d, keys), k) == Copies(d.files, k)
  {
    CopiesFollowFiles(d.files - Leftovers(d, keys), d.files, k);
  }

  /** No copy with the bytes of a deleted record stays remembered. */
  lemma DeletedAgrees(d: Durable, keys: set<Key>, k: Key)
    requires k in d.packages && k in keys && d.packages[k].key == k && d.packages[k].status.Deleted?
    ensures Agrees(d.packages[k], d.files - Leftovers(d, keys))
  {
    var files := d.files - Leftovers(d, keys);
    forall n | n in Copies(files, k) ensures Copies(files, k)[n] != d.packages[k].digest {
      assert n !in Leftovers(d, keys);
    }
  }

  lemma SettledAgrees(d: Durable, keys: set<Key>, k: Key)
    requires WellFormed(d) && k in d.packages && k in keys
    ensures Agrees(SettleTx(d, keys).packages[k], SettleTx(d, keys).files)
  {
    hide Leftovers, Copies, AllMatch;
    var p := d.packages[k];
    if p.status.Deleted? {
      DeletedAgrees(d, keys, k);
    } else {
      SettleKeepsCopies(d, keys, k);
      SettledIsIdempotent(p, Copies(d.files, k));
    }
  }

  lemma SettleKeepsInv(d: Durable, keys: set<Key>)
    requires Inv(d)
    ensures Inv(SettleTx(d, keys))
  {
    var e := SettleTx(d, keys);
    forall k | k in e.packages ensures SettledOrQueued(e, k) {
      assert SettledOrQueued(d, k);
      if k in keys {
        SettledAgrees(d, keys, k);
      } else {
        SettleKeepsCopies(d, keys, k);
      }
    }
  }

  lemma JournalKeepsInv(d: Durable, p: Record)
    requires Inv(d) && Allowed(d, Journal(p))
    ensures Inv(JournalTx(d, p))
  {
    var e := JournalTx(d, p);
    forall k | k in e.packages ensures SettledOrQueued(e, k) {
      if k != p.key {
        assert SettledOrQueued(d, k);
      }
    }
  }

  lemma PublishFrames(d: Durable, p: Record, mtime: int, k: Key)
    requires Inv(d) && Allowed(d, Publish(p, mtime)) && k in d.packages && k != p.key
    ensures SettledOrQueued(PublishTx(d, p, mtime), k)
  {
    assert SettledOrQueued(d, k);
    assert p.filename in d.files && Holds(d.files[p.filename], k) ==> k in KeysHeld(d.files, {p.filename});
    StandingKept(d, PublishTx(d, p, mtime), k);
  }

  lemma PublishSettles(d: Durable, p: Record, mtime: int)
    requires Allowed(d, Publish(p, mtime)) && d.dirty !! {p.key}
    ensures Agrees(p, PublishTx(d, p, mtime).files) <==> Safe(d, Publish(p, mtime))
    ensures Copies(PublishTx(d, p, mtime).files, p.key).Keys != {}
  {
    var after := Copies(PublishTx(d, p, mtime).files, p.key);
    var before := Copies(d.files, p.key);
    assert after == before[p.filename := p.digest];
    assert p.filename in after;
    if Safe(d, Publish(p, mtime)) {
      assert AllMatch(after, p.digest);
    } else {
      var n :| n in before && n != p.filename && before[n] != p.digest;
      assert after[n] != p.digest;
    }
  }

  /** Publishing keeps the invariant exactly when no other copy under the identity would make it a conflict. */
  lemma PublishKeepsInv(d: Durable, p: Record, mtime: int)
    requires Inv(d) && Allowed(d, Publish(p, mtime))
    ensures Inv(PublishTx(d, p, mtime)) <==> Safe(d, Publish(p, mtime))
  {
    var e := PublishTx(d, p, mtime);
    forall k | k in d.packages && k != p.key ensures SettledOrQueued(e, k) {
      PublishFrames(d, p, mtime, k);
    }
    assert WellFormed(e);
    assert e.packages[p.key] == p && (p.key in e.dirty <==> p.key in d.dirty);
    if p.key !in d.dirty {
      PublishSettles(d, p, mtime);
    }
    assert SettledOrQueued(e, p.key) <==> Safe(d, Publish(p, mtime));
  }

  lemma MarkDeletedKeepsInv(d: Durable, keys: set<Key>)
    requires Inv(d)
    ensures Inv(MarkDeletedTx(d, keys))
  {
    var e := MarkDeletedTx(d, keys);
    forall k | k in e.packages ensures SettledOrQueued(e, k) {
      assert SettledOrQueued(d, k);
    }
  }

  lemma ForgetFilesSpares(d: Durable, names: set<string>, k: Key)
    requires k in d.packages && d.packages[k].key == k && Agrees(d.packages[k], d.files)
    ensures Agrees(d.packages[k], d.files - names) <==> Spared(d.packages[k], Copies(d.files, k), names)
  {
    var p, rest := d.packages[k], d.files - names;
    assert Copies(rest, k) == Copies(d.files, k) - names;
    if p.status.Conflict? {
      if Spared(p, Copies(d.files, k), names) {
        var n :| n in Copies(d.files, k) && n !in names && Copies(d.files, k)[n] != p.digest;
        assert n in Copies(rest, k) && !AllMatch(Copies(rest, k), p.digest);
      } else {
        assert AllMatch(Copies(rest, k), p.digest);
      }
    } else if p.status.Stored? {
      StoredNamesACopy(p, d.files);
      assert p.filename in Copies(rest, k) <==> p.filename !in names;
      assert AllMatch(Copies(rest, k), p.digest);
    }
  }

  /** Forgetting removed files keeps the invariant exactly when it spares every record that is not queued. */
  lemma ForgetFilesKeepsInv(d: Durable, names: set<string>)
    requires Inv(d) && d.trusted
    ensures Inv(d.(files := d.files - names)) <==> Safe(d, ForgetFiles(names))
  {
    var e := d.(files := d.files - names);
    assert WellFormed(e);
    forall k | k in d.packages && k !in d.dirty
      ensures SettledOrQueued(e, k) <==> Spared(d.packages[k], Copies(d.files, k), names)
    {
      assert SettledOrQueued(d, k);
      ForgetFilesSpares(d, names, k);
    }
  }
}
