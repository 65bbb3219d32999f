/**
 Publishing one upload: admission, idempotency, confirmation of a package already there, and the
 journal, link, publish, receipt and trim steps of a new one.
 */
module Uploads {
  import opened Wrappers
  import opened Versions
  import opened Inventory
  import opened Protocol
  import opened Runs
  import opened Recovery
  import opened Guarantees
  import opened Limits
  import opened Retention
  import opened Store
  import opened Summaries
  import opened Removal
  import Sync

  datatype Refusal = BeyondRetention | IdempotencyConflict | ContentConflict | PublicationFailed

  datatype Answer =
    | Refused(why: Refusal)
    | Duplicate                        // 200: the package is there already
    | Created(removed: seq<string>)    // 201, with the versions its own trim removed

  // What the inventory says about an upload

  predicate RetentionRefuses(d: Durable, key: Key) {
    IsOutside(KeptVersions(d.packages, key.id), key.version, LimitOf(d, key.id))
  }

  predicate ReceiptConflicts(d: Durable, key: Key, digest: Digest, idem: Option<string>) {
    idem.Some? && idem.value in d.uploads && d.uploads[idem.value] != Receipt(digest, key)
  }

  predicate ContentConflicts(d: Durable, key: Key, digest: Digest) {
    key in d.packages &&
    var p := d.packages[key];
    p.status.Conflict? || p.digest != digest
        || (p.filename in d.disk && d.disk[p.filename].contents != Valid(key, digest))
  }

  predicate InPlace(d: Durable, key: Key) {
    key in d.packages && d.packages[key].filename in d.disk
  }

  /** The record an upload journals: a known package keeps its file name. */
  function Journaled(d: Durable, key: Key, digest: Digest): Record {
    Record(key, digest, if key in d.packages then d.packages[key].filename else CanonicalName(key), Pending)
  }

  function Receipted(d: Durable, idem: Option<string>, key: Key, digest: Digest): Durable {
    if idem.Some? then ReceiptTx(d, idem.value, Receipt(digest, key)) else d
  }

  function Confirmed(d: Durable, key: Key): Durable
    requires InPlace(d, key)
  {
    var p := d.packages[key];
    PublishTx(d, p.(status := Stored), d.disk[p.filename].mtime)
  }

  function Uploaded(key: Key, digest: Digest, mtime: int): File {
    File(digest.size, mtime, Valid(key, digest))
  }

  /** The state once an upload is published and its receipt saved, before its trim. */
  function Accepted(d: Durable, key: Key, digest: Digest, idem: Option<string>, mtime: int): Durable {
    Receipted(Published(d, Journaled(d, key, digest), Uploaded(key, digest, mtime), mtime), idem, key, digest)
  }

  /** s is a durable state of a new upload between its first transaction and its trim. */
  predicate Publishing(d: Durable, key: Key, digest: Digest, idem: Option<string>, mtime: int, s: Durable) {
    var p, file := Journaled(d, key, digest), Uploaded(key, digest, mtime);
    s == JournalTx(d, p) || s == Linked(d, p, file) || s == Published(d, p, file, mtime)
        || s == Accepted(d, key, digest, idem, mtime)
  }

  ghost predicate AllPublishing(d: Durable, key: Key, digest: Digest, idem: Option<string>, mtime: int,
                                t: seq<Event>, from: nat, to: nat) {
    to <= |t| && forall i | from <= i < to :: Publishing(d, key, digest, idem, mtime, t[i].state)
  }

  lemma PublishingStates(d: Durable, key: Key, digest: Digest, idem: Option<string>, mtime: int)
    ensures var p, file := Journaled(d, key, digest), Uploaded(key, digest, mtime);
      && Publishing(d, key, digest, idem, mtime, JournalTx(d, p))
      && Publishing(d, key, digest, idem, mtime, Linked(d, p, file))
      && Publishing(d, key, digest, idem, mtime, Published(d, p, file, mtime))
      && Publishing(d, key, digest, idem, mtime, Accepted(d, key, digest, idem, mtime))
  {
  }

  // The steps

  method Refuses(db: Store, key: Key) returns (refused: bool)
    requires db.Valid()
    ensures refused == RetentionRefuses(db.State(), key)
  {
    hide CompareVersions, IsRun, CacheAgrees;
    var keep := db.Keep(key.id);
    if keep > 0 {
      var siblings := db.List(key.id);
      KeptInListing(siblings, db.packages, key.id);
      refused := Limits.Outside(siblings, key.version, keep);
    } else {
      refused := false;
    }
  }

  method SaveReceiptFor(db: Store, key: Key, digest: Digest, idem: Option<string>)
    requires db.Valid() && key in db.packages && db.packages[key].digest == digest
    modifies db
    ensures db.Valid() && db.State() == Receipted(old(db.State()), idem, key, digest)
    ensures OneStep(old(db.trail), db.trail, db.State())
    ensures idem.None? ==> db.trail == old(db.trail)
  {
    hide IsRun, Store.Consistent;
    if idem.Some? {
      db.Upload(idem.value, Receipt(digest, key));
    }
  }

  /** Confirms a package whose file is in place. */
  method Confirm(db: Store, key: Key, digest: Digest, idem: Option<string>)
    requires db.Valid() && InPlace(db.State(), key) && !ContentConflicts(db.State(), key, digest)
    modifies db
    ensures db.Valid() && old(db.trail) <= db.trail
    ensures db.State() == Receipted(Confirmed(old(db.State()), key), idem, key, digest)
    ensures forall i | |old(db.trail)| <= i < |db.trail| ::
              db.trail[i].state == Confirmed(old(db.State()), key) || db.trail[i].state == db.State()
  {
    hide IsRun, Store.Consistent;
    var p := db.packages[key];
    assert p.key == key by { ConsistentKeys(db, key); }
    db.Publish(p.(status := Stored), db.disk[p.filename].mtime);
    SaveReceiptFor(db, key, digest, idem);
  }

  lemma ConsistentKeys(db: Store, key: Key)
    requires db.Consistent() && key in db.packages
    ensures db.packages[key].key == key
  {
  }

  /**
   Publishes a package whose file is not in place. The journal comes first, so the next scan settles a link
   made before the final commit. linkFails stands for a refusal of the file system.
   */
  method Create(db: Store, key: Key, digest: Digest, idem: Option<string>, mtime: int, linkFails: bool)
    returns (published: bool)
    requires db.Valid() && !InPlace(db.State(), key) && !ContentConflicts(db.State(), key, digest)
    modifies db
    ensures db.Valid() && old(db.trail) <= db.trail
    ensures published == !(linkFails || Journaled(old(db.State()), key, digest).filename in old(db.disk))
    ensures db.State() == if published then Accepted(old(db.State()), key, digest, idem, mtime)
                          else JournalTx(old(db.State()), Journaled(old(db.State()), key, digest))
    ensures AllPublishing(old(db.State()), key, digest, idem, mtime, db.trail, |old(db.trail)|, |db.trail|)
    ensures !published ==> |db.trail| == |old(db.trail)| + 1
    ensures |db.trail| > |old(db.trail)|
            && db.trail[|old(db.trail)|].state == JournalTx(old(db.State()), Journaled(old(db.State()), key, digest))
  {
    hide IsRun, Store.Consistent, Publishing, CanonicalName;
    ghost var d := db.State();
    var name := if key in db.packages then db.packages[key].filename else CanonicalName(key);
    var p := Record(key, digest, name, Pending);
    PublishingStates(d, key, digest, idem, mtime);
    db.Journal(p);
    if linkFails || name in db.disk {
      return false;
    }
    PublishLinked(db, p, idem, mtime);
    return true;
  }

  /** Links the staged file under the record's name, and publishes it. */
  method PublishLinked(db: Store, p: Record, idem: Option<string>, mtime: int)
    requires db.Valid() && p.status.Pending? && p.key in db.packages && db.packages[p.key].digest == p.digest
        && p.filename !in db.disk
    modifies db
    ensures db.Valid() && old(db.trail) <= db.trail
    ensures var d, file := old(db.State()), Uploaded(p.key, p.digest, mtime);
      var linked := d.(disk := d.disk[p.filename := file]);
      var published := PublishTx(linked, p.(status := Stored), mtime);
      && db.State() == Receipted(published, idem, p.key, p.digest)
      && forall i | |old(db.trail)| <= i < |db.trail| ::
           db.trail[i].state == linked || db.trail[i].state == published || db.trail[i].state == db.State()
  {
    hide IsRun, Store.Consistent, PublishTx, ReceiptTx;
    PublishTxHas(db.State(), p, mtime);
    db.LinkFile(p.filename, Uploaded(p.key, p.digest, mtime));
    db.Publish(p.(status := Stored), mtime);
    SaveReceiptFor(db, p.key, p.digest, idem);
  }

  lemma PublishTxHas(d: Durable, p: Record, mtime: int)
    ensures var linked := d.(disk := d.disk[p.filename := Uploaded(p.key, p.digest, mtime)]);
      var published := PublishTx(linked, p.(status := Stored), mtime);
      p.key in published.packages && published.packages[p.key].digest == p.digest
  {
  }

  /** Which answer an upload gets, and the state e it leaves. */
  ghost predicate AnswersUpload(d: Durable, key: Key, digest: Digest, idem: Option<string>, mtime: int, linkFails: bool,
                                stuck: set<string>, forgets: bool, answer: Answer, cut: set<string>, e: Durable) {
    var refused, conflicts := RetentionRefuses(d, key), ReceiptConflicts(d, key, digest, idem);
    var p := Journaled(d, key, digest);
    if refused then answer == Refused(BeyondRetention) && e == d
    else if conflicts then answer == Refused(IdempotencyConflict) && e == d
    else if ContentConflicts(d, key, digest) then answer == Refused(ContentConflict) && e == d
    else if InPlace(d, key) then answer == Duplicate && e == Receipted(Confirmed(d, key), idem, key, digest)
    else if linkFails || p.filename in d.disk then answer == Refused(PublicationFailed) && e == JournalTx(d, p)
    else
      && answer.Created?
      && Elements(answer.removed) == cut && Distinct(answer.removed) && OldestFirst(answer.removed)
      && TrimsTo(Accepted(d, key, digest, idem, mtime), key.id, cut, stuck, forgets, e)
  }

  /** Handles an upload whose package has been inspected. */
  method Upload(db: Store, key: Key, digest: Digest, idem: Option<string>, mtime: int, linkFails: bool,
                stuck: set<string>, forgets: bool)
    returns (answer: Answer, ghost cut: set<string>)
    requires db.Valid()
    modifies db
    ensures db.Valid() && old(db.trail) <= db.trail
    ensures AnswersUpload(old(db.State()), key, digest, idem, mtime, linkFails, stuck, forgets, answer, cut, db.State())
    ensures answer.Refused? && answer.why != PublicationFailed ==> db.trail == old(db.trail)
    ensures answer == Duplicate ==>
      && InPlace(old(db.State()), key)
      && forall i | |old(db.trail)| <= i < |db.trail| ::
           db.trail[i].state == Confirmed(old(db.State()), key) || db.trail[i].state == db.State()
    ensures answer == Refused(PublicationFailed) ==>
      |db.trail| == |old(db.trail)| + 1 && db.trail[|old(db.trail)|].state == db.State()
    ensures answer.Created? ==>
      var accepted := Accepted(old(db.State()), key, digest, idem, mtime);
      exists m | |old(db.trail)| < m <= |db.trail| ::
        && AllPublishing(old(db.State()), key, digest, idem, mtime, db.trail, |old(db.trail)|, m)
        && AllOnTheWay(accepted, CutKeys(accepted.packages, key.id, cut), db.trail, m)
  {
    hide IsRun, Store.Consistent, RetentionRefuses, Confirmed, Accepted, Publishing, TrimsTo, OnTheWay, CutKeys,
      Receipted, JournalTx, CanonicalName;
    cut := {};
    var refused := Refuses(db, key);
    if refused {
      return Refused(BeyondRetention), cut;
    }
    if idem.Some? && idem.value in db.uploads && db.uploads[idem.value] != Receipt(digest, key) {
      return Refused(IdempotencyConflict), cut;
    }
    if key in db.packages {
      var known := db.packages[key];
      if known.status == Conflict || known.digest != digest {
        return Refused(ContentConflict), cut;
      }
      if known.filename in db.disk {
        if db.disk[known.filename].contents != Valid(key, digest) {
          return Refused(ContentConflict), cut;
        }
        Confirm(db, key, digest, idem);
        return Duplicate, cut;
      }
    }
    var published := Create(db, key, digest, idem, mtime, linkFails);
    if !published {
      return Refused(PublicationFailed), cut;
    }
    ghost var m := |db.trail|;
    var removed, count;
    removed, count, cut := Trim(db, key.id, stuck, forgets);
    answer := Created(removed);
    assert AllPublishing(old(db.State()), key, digest, idem, mtime, db.trail, |old(db.trail)|, m);
  }

  /** A version is refused when the extension does not have it, and has as many newer ones as its limit keeps. */
  lemma RefusalMeans(d: Durable, key: Key)
    ensures var limit := if key.id in d.limits then d.limits[key.id] else d.keep;
      var newer := set k | k in d.packages && k.id == key.id && d.packages[k].status != Deleted
                           && CompareVersions(k.version, key.version) > 0 :: k.version;
      var has := exists k | k in d.packages ::
          k.id == key.id && k.version == key.version && d.packages[k].status != Deleted;
      RetentionRefuses(d, key) <==> limit > 0 && !has && |newer| >= limit
  {
    hide CompareVersions;
    var newer := set k | k in d.packages && k.id == key.id && d.packages[k].status != Deleted
                         && CompareVersions(k.version, key.version) > 0 :: k.version;
    assert Newer(KeptVersions(d.packages, key.id), key.version) == newer;
  }

  /** When each answer is given, in the order the conditions are tried. */
  lemma AnswersMean(d: Durable, key: Key, digest: Digest, idem: Option<string>, mtime: int, linkFails: bool,
                    stuck: set<string>, forgets: bool, answer: Answer, cut: set<string>, e: Durable)
    requires AnswersUpload(d, key, digest, idem, mtime, linkFails, stuck, forgets, answer, cut, e)
    ensures answer == Refused(BeyondRetention) <==>
        var limit := if key.id in d.limits then d.limits[key.id] else d.keep;
        var newer := set k | k in d.packages && k.id == key.id && d.packages[k].status != Deleted
                             && CompareVersions(k.version, key.version) > 0 :: k.version;
        var has := exists k | k in d.packages ::
            k.id == key.id && k.version == key.version && d.packages[k].status != Deleted;
        limit > 0 && !has && |newer| >= limit
    ensures answer != Refused(BeyondRetention) ==>
      (answer == Refused(IdempotencyConflict) <==>
       idem.Some? && idem.value in d.uploads && d.uploads[idem.value] != Receipt(digest, key))
    ensures answer != Refused(BeyondRetention) && answer != Refused(IdempotencyConflict) ==>
      (answer == Refused(ContentConflict) <==>
       key in d.packages
       && (d.packages[key].status == Conflict || d.packages[key].digest != digest
           || (d.packages[key].filename in d.disk && d.disk[d.packages[key].filename].contents != Valid(key, digest))))
    ensures answer == Refused(PublicationFailed) || !answer.Refused? ==>
      var name := if key in d.packages then d.packages[key].filename
                  else key.id + "-" + key.version + "-" + key.platform + ".vsix";
      && (answer == Duplicate <==> key in d.packages && name in d.disk)
      && (answer == Refused(PublicationFailed) <==> answer != Duplicate && (linkFails || name in d.disk))
  {
    hide RetentionRefuses, CompareVersions, TrimsTo, Accepted, JournalTx, Confirmed, KeptVersions, LimitOf;
    RefusalMeans(d, key);
  }

  /** What an answer leaves: a refused upload no receipt, an accepted one its record, and its receipt under its key. */
  lemma AnswersLeave(d: Durable, key: Key, digest: Digest, idem: Option<string>, mtime: int, linkFails: bool,
                     stuck: set<string>, forgets: bool, answer: Answer, cut: set<string>, e: Durable)
    requires AnswersUpload(d, key, digest, idem, mtime, linkFails, stuck, forgets, answer, cut, e) && WellFormed(d)
    ensures answer.Refused? ==> e.uploads == d.uploads
    ensures answer.Refused? && answer.why != PublicationFailed ==> e == d
    ensures !answer.Refused? ==>
      && e.uploads == (if idem.Some? then d.uploads[idem.value := Receipt(digest, key)] else d.uploads)
      && key in e.packages && e.packages[key].digest == digest
      && e.packages[key].status == if answer.Created? && key.version in cut then Deleted else Stored
  {
    hide RetentionRefuses, TrimsTo, Accepted, Confirmed, Receipted, JournalTx, Journaled;
    if answer == Duplicate {
      ConfirmedLeaves(d, key, digest, idem);
    } else if answer.Created? {
      var a := Accepted(d, key, digest, idem, mtime);
      AcceptedLeaves(d, key, digest, idem, mtime);
      TrimMarks(a, key.id, cut, stuck, forgets, e);
      TrimKeepsUploads(a, key.id, cut, stuck, forgets, e);
    } else {
      assert JournalTx(d, Journaled(d, key, digest)).uploads == d.uploads by { JournalKeepsUploads(d, key, digest); }
    }
  }

  lemma JournalKeepsUploads(d: Durable, key: Key, digest: Digest)
    ensures JournalTx(d, Journaled(d, key, digest)).uploads == d.uploads
  {
  }

  lemma ReceiptedHas(d: Durable, idem: Option<string>, key: Key, digest: Digest)
    requires !ReceiptConflicts(d, key, digest, idem)
    ensures var e := Receipted(d, idem, key, digest);
      && e.uploads == (if idem.Some? then d.uploads[idem.value := Receipt(digest, key)] else d.uploads)
      && e.packages == d.packages
  {
    if idem.Some? && idem.value in d.uploads {
      assert d.uploads == d.uploads[idem.value := d.uploads[idem.value]];
    }
  }

  lemma ConfirmedLeaves(d: Durable, key: Key, digest: Digest, idem: Option<string>)
    requires InPlace(d, key) && !ContentConflicts(d, key, digest) && !ReceiptConflicts(d, key, digest, idem)
    requires WellFormed(d)
    ensures var e := Receipted(Confirmed(d, key), idem, key, digest);
      && e.uploads == (if idem.Some? then d.uploads[idem.value := Receipt(digest, key)] else d.uploads)
      && key in e.packages && e.packages[key].digest == digest && e.packages[key].status == Stored
  {
    ReceiptedHas(Confirmed(d, key), idem, key, digest);
  }

  lemma AcceptedLeaves(d: Durable, key: Key, digest: Digest, idem: Option<string>, mtime: int)
    requires !ReceiptConflicts(d, key, digest, idem)
    ensures var a := Accepted(d, key, digest, idem, mtime);
      && a.uploads == (if idem.Some? then d.uploads[idem.value := Receipt(digest, key)] else d.uploads)
      && key in a.packages && a.packages[key].digest == digest && a.packages[key].status == Stored
  {
    hide CanonicalName;
    ReceiptedHas(Published(d, Journaled(d, key, digest), Uploaded(key, digest, mtime), mtime), idem, key, digest);
  }

  lemma TrimKeepsUploads(a: Durable, id: string, cut: set<string>, stuck: set<string>, forgets: bool, e: Durable)
    requires TrimsTo(a, id, cut, stuck, forgets, e)
    ensures e.uploads == a.uploads
  {
    hide IsCut, KeptVersions;
  }

  /** The next routine scan need not open the file an upload has published or confirmed. */
  lemma UploadIsNotReopened(d: Durable, key: Key, digest: Digest, idem: Option<string>, mtime: int, batch: set<string>)
    ensures Journaled(d, key, digest).filename !in ChangedIn(Accepted(d, key, digest, idem, mtime), batch)
    ensures InPlace(d, key) && d.packages[key].key == key
            && d.disk[d.packages[key].filename].size == d.packages[key].digest.size ==>
              d.packages[key].filename !in ChangedIn(Confirmed(d, key), batch)
  {
    hide CanonicalName;
  }

  // What an answer promises

  /**
   Answered 201, or stopped anywhere after the link: the next scan finds the exact bytes in place, and the
   package stored exactly when no other copy under its identity differs.
   */
  lemma NewUploadSurvives(d: Durable, key: Key, digest: Digest, idem: Option<string>, mtime: int, s: Durable,
                          full: bool, order: seq<Key>, batches: seq<set<string>>)
    requires Recoverable(d) && !ContentConflicts(d, key, digest)
    requires Uploadable(d, Journaled(d, key, digest), Uploaded(key, digest, mtime))
    requires Publishing(d, key, digest, idem, mtime, s) && s != JournalTx(d, Journaled(d, key, digest))
        && Covers(s, order, batches)
    ensures var p, e := Journaled(d, key, digest), Scan(s, full, order, batches);
      && p.filename in e.disk && e.disk[p.filename] == Uploaded(key, digest, mtime)
      && key in e.packages
      && (e.packages[key] == p.(status := Stored) <==> AllMatch(Copies(d.disk, key), digest))
  {
    hide Scan, Recoverable, Uploadable, Published, Linked;
    LinkedUploadRecovers(d, Journaled(d, key, digest), Uploaded(key, digest, mtime), mtime, s, full, order, batches);
  }

  /**
   Answered 200: the next scan finds the exact bytes still in place, and the package stored exactly when no
   other copy under its identity differs.
   */
  lemma ConfirmedUploadSurvives(d: Durable, key: Key, digest: Digest, idem: Option<string>, s: Durable,
                                full: bool, order: seq<Key>, batches: seq<set<string>>)
    requires Recoverable(d) && Tracked(d) && InPlace(d, key) && !ContentConflicts(d, key, digest)
    requires s == Confirmed(d, key) || s == Receipted(Confirmed(d, key), idem, key, digest)
    requires Covers(s, order, batches)
    ensures var p, e := d.packages[key], Scan(s, full, order, batches);
      && p.filename in e.disk && e.disk[p.filename] == d.disk[p.filename]
      && key in e.packages
      && (e.packages[key] == p.(status := Stored) <==> AllMatch(Copies(d.disk, key), digest))
  {
    hide Scan, Walk;
    ConfirmedIsRecoverable(d, key, digest);
    if s != Confirmed(d, key) {
      ReceiptedIsRecoverable(Confirmed(d, key), idem.value, Receipt(digest, key));
    }
    FileInPlaceSurvives(s, key, full, order, batches);
  }

  lemma ConfirmedIsRecoverable(d: Durable, key: Key, digest: Digest)
    requires Recoverable(d) && Tracked(d) && InPlace(d, key) && !ContentConflicts(d, key, digest)
    ensures Recoverable(Confirmed(d, key))
  {
    var p := d.packages[key].(status := Stored);
    var mtime := d.disk[p.filename].mtime;
    assert p.key == key;
    TrackedIsLocated(d);
    ConfirmingIsSafe(d, p, mtime);
    PublishKeepsInv(d, p, mtime);
  }

  lemma AcceptedIsRecoverable(d: Durable, key: Key, digest: Digest, idem: Option<string>, mtime: int)
    requires Recoverable(d) && !ContentConflicts(d, key, digest)
    requires Uploadable(d, Journaled(d, key, digest), Uploaded(key, digest, mtime))
    ensures var p, a := Journaled(d, key, digest), Accepted(d, key, digest, idem, mtime);
      && Recoverable(a)
      && key in a.packages && a.packages[key] == p.(status := Stored)
      && a.disk == d.disk[p.filename := Uploaded(key, digest, mtime)]
  {
    hide Inv, TrustsFiles, Uploadable;
    var p, file := Journaled(d, key, digest), Uploaded(key, digest, mtime);
    PublishedIsRecoverable(d, p, file, mtime);
    if idem.Some? {
      ReceiptedIsRecoverable(Published(d, p, file, mtime), idem.value, Receipt(digest, key));
    }
  }

  /** The state of an accepted upload somewhere in the trim that follows it, its end included. */
  function Trimming(a: Durable, id: string, cut: set<string>, gone: set<string>, forgotten: set<string>): Durable {
    MidRemoval(a, CutKeys(a.packages, id, cut), gone, forgotten)
  }

  /** A trim ends in such a state, and one that cuts nothing in the accepted state itself. */
  lemma TrimEndsTrimming(a: Durable, id: string, cut: set<string>, stuck: set<string>, forgets: bool, e: Durable)
    requires TrimsTo(a, id, cut, stuck, forgets, e)
    ensures var keys := CutKeys(a.packages, id, cut);
      var gone := if cut == {} then {} else Erasable(a, keys, stuck);
      && gone <= NamesOf(a, keys)
      && e == Trimming(a, id, cut, gone, if forgets then gone else {})
  {
    hide IsCut, KeptVersions;
    if cut == {} {
      assert CutKeys(a.packages, id, cut) == {};
      assert a.disk - {} == a.disk && a.files - {} == a.files && MarkedDeleted(a.packages, {}) == a.packages;
    } else {
      assert a.files - {} == a.files;
    }
  }

  /** Another package that is cut has the new file's name. */
  predicate NameIsCut(d: Durable, key: Key, digest: Digest, cut: set<string>) {
    var name := Journaled(d, key, digest).filename;
    name != "" && exists k | k in d.packages :: k != key && IsCutUnder(d.packages[k], k, key.id, name, cut)
  }

  predicate IsCutUnder(p: Record, k: Key, id: string, name: string, cut: set<string>) {
    k.id == id && !p.status.Deleted? && k.version in cut && p.filename == name
  }

  /** What makes an upload's own trim remove the file just linked. */
  predicate TrimTakesFile(d: Durable, key: Key, digest: Digest, cut: set<string>, stuck: set<string>) {
    var name := Journaled(d, key, digest).filename;
    Bare(name) && name !in stuck && (key.version in cut || NameIsCut(d, key, digest, cut))
  }

  /** The trim means to remove the new file exactly when its version is cut, or another package of its name is. */
  lemma AcceptedNames(d: Durable, key: Key, digest: Digest, idem: Option<string>, mtime: int, cut: set<string>)
    ensures var p, a := Journaled(d, key, digest), Accepted(d, key, digest, idem, mtime);
      p.filename in NamesOf(a, CutKeys(a.packages, key.id, cut)) <==>
      key.version in cut || NameIsCut(d, key, digest, cut)
  {
    hide CutKeys, NamesOf, NameIsCut, CanonicalName;
    var p, a := Journaled(d, key, digest), Accepted(d, key, digest, idem, mtime);
    assert a.packages == d.packages[key := p.(status := Stored)];
    NamesOnceStored(d, key, digest, cut, a);
  }

  lemma NamesOnceStored(d: Durable, key: Key, digest: Digest, cut: set<string>, a: Durable)
    requires var p := Journaled(d, key, digest);
      && a.packages == d.packages[key := p.(status := Stored)]
      && p.filename in a.files && a.files[p.filename].contents == Valid(key, digest)
    ensures Journaled(d, key, digest).filename in NamesOf(a, CutKeys(a.packages, key.id, cut)) <==>
            key.version in cut || NameIsCut(d, key, digest, cut)
  {
    var name := Journaled(d, key, digest).filename;
    hide Journaled;
    if NameIsCut(d, key, digest, cut) {
      var k :| k in d.packages && k != key && IsCutUnder(d.packages[k], k, key.id, name, cut);
      assert k in CutKeys(a.packages, key.id, cut) && a.packages[k].filename == name;
    }
  }

  /** An upload answered 201 has lost its file to its own trim exactly when the trim takes it. */
  lemma AnsweredFileIsGoneExactly(d: Durable, key: Key, digest: Digest, idem: Option<string>, mtime: int,
                                  cut: set<string>, stuck: set<string>, forgets: bool, e: Durable)
    requires TrimsTo(Accepted(d, key, digest, idem, mtime), key.id, cut, stuck, forgets, e)
    ensures Journaled(d, key, digest).filename !in e.disk <==> TrimTakesFile(d, key, digest, cut, stuck)
  {
    hide IsCut, KeptVersions, NameIsCut, CutKeys, NamesOf, Journaled;
    var a, name := Accepted(d, key, digest, idem, mtime), Journaled(d, key, digest).filename;
    assert name in a.disk;
    AcceptedNames(d, key, digest, idem, mtime, cut);
    if cut == {} {
      assert CutKeys(a.packages, key.id, cut) == {} by { NothingIsCut(a.packages, key.id); }
      assert NamesOf(a, {}) == {} by { NoNames(a); }
    }
  }

  lemma NothingIsCut(packages: Packages, id: string)
    ensures CutKeys(packages, id, {}) == {}
  {
  }

  lemma NoNames(d: Durable)
    ensures NamesOf(d, {}) == {}
  {
  }

  /**
   Without ties this can be told from the inventory before the upload: the new version, or one of another package under
   the same file name, has the limit's number of newer versions beside it once the new one is there.
   */
  lemma FileIsGoneForeseeably(d: Durable, key: Key, digest: Digest, idem: Option<string>, mtime: int,
                              cut: set<string>, stuck: set<string>, forgets: bool, e: Durable)
    requires TrimsTo(Accepted(d, key, digest, idem, mtime), key.id, cut, stuck, forgets, e)
    requires NoTies(KeptVersions(d.packages, key.id) + {key.version})
    ensures
      var name, versions := Journaled(d, key, digest).filename, KeptVersions(d.packages, key.id) + {key.version};
      var beyond := set v | v in versions && |Newer(versions, v)| >= LimitOf(d, key.id);
      name !in e.disk <==>
      LimitOf(d, key.id) > 0 && Bare(name) && name !in stuck
      && (key.version in beyond || NameIsCut(d, key, digest, beyond))
  {
    hide IsCut, KeptVersions, Newer, Journaled, NoTies, Accepted, LimitOf, CompareVersions;
    var name, versions := Journaled(d, key, digest).filename, KeptVersions(d.packages, key.id) + {key.version};
    var keep := LimitOf(d, key.id);
    var beyond := set v | v in versions && |Newer(versions, v)| >= keep;
    AcceptedKeeps(d, key, digest, idem, mtime);
    AnsweredFileIsGoneExactly(d, key, digest, idem, mtime, cut, stuck, forgets, e);
    forall v | v in versions ensures v in cut <==> keep > 0 && v in beyond {
      CutExactly(versions, v, keep, cut);
    }
    CutIsAmong(versions, keep, cut);
    assert cut == if keep > 0 then beyond else {};
    assert !NameIsCut(d, key, digest, {});
  }

  lemma CutIsAmong(versions: set<string>, keep: int, cut: set<string>)
    requires IsCut(versions, keep, cut)
    ensures cut <= versions
  {
  }

  /**
   The state in which 201 is answered, and every state of the upload's own trim: as long as the version is not cut
   itself, its bytes are in place after the next scan exactly when the trim has not removed their file, which only a cut
   package of the same file name makes it do; and then the package is stored exactly when no other copy differs.
   */
  lemma TrimmedUploadSurvives(d: Durable, key: Key, digest: Digest, idem: Option<string>, mtime: int,
                              cut: set<string>, gone: set<string>, forgotten: set<string>,
                              full: bool, order: seq<Key>, batches: seq<set<string>>)
    requires Recoverable(d) && !ContentConflicts(d, key, digest) && key.version !in cut
    requires Uploadable(d, Journaled(d, key, digest), Uploaded(key, digest, mtime))
    requires var a := Accepted(d, key, digest, idem, mtime); var keys := CutKeys(a.packages, key.id, cut);
      && forgotten <= gone <= NamesOf(a, keys) && SparesOthers(a, keys, forgotten)
      && Covers(Trimming(a, key.id, cut, gone, forgotten), order, batches)
    ensures var p, a := Journaled(d, key, digest), Accepted(d, key, digest, idem, mtime);
      var s := Trimming(a, key.id, cut, gone, forgotten);
      var e := Scan(s, full, order, batches);
      && (p.filename in e.disk <==> p.filename !in gone)
      && (p.filename in gone ==> NameIsCut(d, key, digest, cut))
      && (p.filename !in gone ==>
            && e.disk[p.filename] == Uploaded(key, digest, mtime)
            && key in e.packages
            && (e.packages[key] == p.(status := Stored) <==> AllMatch(Copies(s.disk, key), digest)))
  {
    hide Scan, Uploadable, Accepted, SparesOthers, Inv, TrustsFiles;
    var p, a := Journaled(d, key, digest), Accepted(d, key, digest, idem, mtime);
    var keys := CutKeys(a.packages, key.id, cut);
    var s := Trimming(a, key.id, cut, gone, forgotten);
    AcceptedIsRecoverable(d, key, digest, idem, mtime);
    RemovalKeepsInv(a, keys, gone, forgotten);
    RemovalIsWellFormed(a, keys, gone, forgotten);
    assert key !in keys && s.packages[key] == p.(status := Stored);
    ScanShrinksDirectory(s, full, order, batches);
    AcceptedNames(d, key, digest, idem, mtime, cut);
    if p.filename !in gone {
      FileInPlaceSurvives(s, key, full, order, batches);
    }
  }

  lemma ScanShrinksDirectory(s: Durable, full: bool, order: seq<Key>, batches: seq<set<string>>)
    requires Recoverable(s) && Covers(s, order, batches)
    ensures Scan(s, full, order, batches).disk.Keys <= s.disk.Keys
  {
    hide Scan;
    ScanTellsTheTruth(s, full, order, batches);
  }

  /** As long as the trim has not cut the version or removed the file, a good upload is stored after any next scan. */
  lemma UnremovedUploadIsStored(d: Durable, key: Key, digest: Digest, idem: Option<string>, mtime: int,
                                cut: set<string>, gone: set<string>, forgotten: set<string>, s: Durable,
                                full: bool, order: seq<Key>, batches: seq<set<string>>)
    requires Recoverable(d) && Tracked(d) && !ContentConflicts(d, key, digest)
    requires key !in d.dirty && (key in d.packages ==> !d.packages[key].status.Deleted?)
    requires Covers(s, order, batches)
    requires
      if InPlace(d, key) then s == Receipted(Confirmed(d, key), idem, key, digest)
      else
        var a := Accepted(d, key, digest, idem, mtime);
        var keys := CutKeys(a.packages, key.id, cut);
        && Uploadable(d, Journaled(d, key, digest), Uploaded(key, digest, mtime))
        && s == Trimming(a, key.id, cut, gone, forgotten)
        && key.version !in cut && forgotten <= gone <= NamesOf(a, keys) && SparesOthers(a, keys, forgotten)
        && Journaled(d, key, digest).filename !in gone
    ensures var p, e := Journaled(d, key, digest), Scan(s, full, order, batches);
      && key in e.packages && e.packages[key] == p.(status := Stored)
      && p.filename in e.disk && e.disk[p.filename].contents == Valid(key, digest)
  {
    hide Scan, Walk, Uploadable, PublishTx, SparesOthers, Accepted, CutKeys, NamesOf;
    CopiesOfSettledMatch(d, key, digest);
    if InPlace(d, key) {
      ConfirmedUploadSurvives(d, key, digest, idem, s, full, order, batches);
      assert d.packages[key].key == key;
    } else {
      AcceptedIsRecoverable(d, key, digest, idem, mtime);
      TrimmedUploadSurvives(d, key, digest, idem, mtime, cut, gone, forgotten, full, order, batches);
      forall n | n in Copies(s.disk, key) ensures Copies(s.disk, key)[n] == digest {
        assert n == Journaled(d, key, digest).filename || n in Copies(d.disk, key);
      }
    }
  }

  /**
   An upload answered 200 or 201, of a record neither queued nor deleted before, is stored with its exact bytes after
   any next scan exactly when its own trim neither cuts its version nor takes its file.
   */
  lemma AnsweredUploadIsStored(d: Durable, key: Key, digest: Digest, idem: Option<string>, mtime: int,
                               cut: set<string>, stuck: set<string>, forgets: bool, s: Durable,
                               full: bool, order: seq<Key>, batches: seq<set<string>>)
    requires Recoverable(d) && Tracked(d) && !ContentConflicts(d, key, digest)
    requires key !in d.dirty && (key in d.packages ==> !d.packages[key].status.Deleted?)
    requires Covers(s, order, batches)
    requires
      if InPlace(d, key) then s == Receipted(Confirmed(d, key), idem, key, digest)
      else
        var a := Accepted(d, key, digest, idem, mtime);
        var keys := CutKeys(a.packages, key.id, cut);
        && Uploadable(d, Journaled(d, key, digest), Uploaded(key, digest, mtime))
        && TrimsTo(a, key.id, cut, stuck, forgets, s)
        && SparesOthers(a, keys, if forgets then Erasable(a, keys, stuck) else {})
    ensures var p, e := Journaled(d, key, digest), Scan(s, full, order, batches);
      (&& key in e.packages && e.packages[key] == p.(status := Stored)
       && p.filename in e.disk && e.disk[p.filename].contents == Valid(key, digest)) <==>
      InPlace(d, key) || (key.version !in cut && !TrimTakesFile(d, key, digest, cut, stuck))
  {
    hide Scan, Uploadable, SparesOthers, Accepted, Confirmed, CutKeys, NamesOf, TrimsTo, Inv, TrustsFiles, Erasable,
      TrimTakesFile, Tracked, ContentConflicts, Trimming;
    if InPlace(d, key) {
      UnremovedUploadIsStored(d, key, digest, idem, mtime, cut, {}, {}, s, full, order, batches);
    } else {
      var a := Accepted(d, key, digest, idem, mtime);
      var keys := CutKeys(a.packages, key.id, cut);
      var gone := if cut == {} then {} else Erasable(a, keys, stuck);
      var forgotten := if forgets then gone else {};
      TrimEndsTrimming(a, key.id, cut, stuck, forgets, s);
      SparingLess(a, keys, if forgets then Erasable(a, keys, stuck) else {}, forgotten);
      AcceptedIsRecoverable(d, key, digest, idem, mtime);
      TrimmedIsRecoverable(a, key, cut, gone, forgotten);
      AnsweredFileIsGoneExactly(d, key, digest, idem, mtime, cut, stuck, forgets, s);
      ScanShrinksDirectory(s, full, order, batches);
      TrimmingDisk(a, key.id, cut, gone, forgotten);
      if key.version in cut {
        CutUploadIsDeleted(a, key, cut, gone, forgotten, full, order, batches);
      } else if !TrimTakesFile(d, key, digest, cut, stuck) {
        assert Journaled(d, key, digest).filename !in gone;
        UnremovedUploadIsStored(d, key, digest, idem, mtime, cut, gone, forgotten, s, full, order, batches);
      }
    }
  }

  lemma SparingLess(d: Durable, keys: set<Key>, names: set<string>, fewer: set<string>)
    requires SparesOthers(d, keys, names) && fewer <= names
    ensures SparesOthers(d, keys, fewer)
  {
  }

  lemma TrimmingDisk(a: Durable, id: string, cut: set<string>, gone: set<string>, forgotten: set<string>)
    ensures Trimming(a, id, cut, gone, forgotten).disk == a.disk - gone
  {
  }

  lemma TrimmedIsRecoverable(a: Durable, key: Key, cut: set<string>, gone: set<string>, forgotten: set<string>)
    requires Recoverable(a) && SparesOthers(a, CutKeys(a.packages, key.id, cut), forgotten)
    requires forgotten <= gone
    ensures Recoverable(Trimming(a, key.id, cut, gone, forgotten))
  {
    hide Inv, TrustsFiles, SparesOthers, CutKeys;
    var keys := CutKeys(a.packages, key.id, cut);
    CutKeysAreKnown(a.packages, key.id, cut);
    RemovalKeepsInv(a, keys, gone, forgotten);
    RemovalIsWellFormed(a, keys, gone, forgotten);
  }

  lemma CutUploadIsDeleted(a: Durable, key: Key, cut: set<string>, gone: set<string>, forgotten: set<string>,
                           full: bool, order: seq<Key>, batches: seq<set<string>>)
    requires Recoverable(Trimming(a, key.id, cut, gone, forgotten))
    requires key in a.packages && !a.packages[key].status.Deleted? && key.version in cut
    requires Covers(Trimming(a, key.id, cut, gone, forgotten), order, batches)
    ensures var e := Scan(Trimming(a, key.id, cut, gone, forgotten), full, order, batches);
      key in e.packages && e.packages[key].status.Deleted?
  {
    hide Scan, Settled;
    RecordAfterScan(Trimming(a, key.id, cut, gone, forgotten), full, order, batches, key);
  }

  // Uploads between scans

  lemma JournalStaysInService(standing: Standing, d: Durable, p: Record)
    requires InService(standing, d) && Allowed(d, Journal(p))
    ensures InService(standing, JournalTx(d, p))
  {
    hide InService;
    StepStaysInService(standing, d, Journal(p));
  }

  /** Every state of a new upload keeps the manager's standing, whatever names it uses. */
  lemma PublishingInService(standing: Standing, d: Durable, key: Key, digest: Digest, idem: Option<string>, mtime: int,
                            s: Durable)
    requires InService(standing, d) && !ContentConflicts(d, key, digest)
    requires Journaled(d, key, digest).filename !in d.disk && Publishing(d, key, digest, idem, mtime, s)
    ensures InService(standing, s)
  {
    hide InService, CanonicalName;
    var p, file := Journaled(d, key, digest), Uploaded(key, digest, mtime);
    JournalStaysInService(standing, d, p);
    var linked := Linked(d, p, file);
    LinkStaysInService(standing, JournalTx(d, p), p.filename, file);
    var published := Published(d, p, file, mtime);
    PublishStaysInService(standing, linked, p.(status := Stored), mtime);
    if idem.Some? {
      ReceiptStaysInService(standing, published, idem.value, Receipt(digest, key));
    }
  }

  lemma LinkStaysInService(standing: Standing, d: Durable, name: string, file: File)
    requires InService(standing, d) && name !in d.disk && file.contents.Valid? && file.contents.key in d.dirty
    ensures InService(standing, d.(disk := d.disk[name := file]))
  {
    hide InService;
    StepStaysInService(standing, d, Action.Link(name, file));
  }

  lemma ReceiptStaysInService(standing: Standing, d: Durable, idem: string, r: Receipt)
    requires InService(standing, d) && r.key in d.packages && d.packages[r.key].digest == r.digest
    ensures InService(standing, ReceiptTx(d, idem, r))
  {
    hide InService;
    StepStaysInService(standing, d, SaveReceipt(idem, r));
  }

  lemma PublishStaysInService(standing: Standing, d: Durable, p: Record, mtime: int)
    requires InService(standing, d) && Allowed(d, Action.Publish(p, mtime)) && !d.packages[p.key].status.Conflict?
    ensures InService(standing, PublishTx(d, p, mtime))
  {
    hide Inv, Safe;
    if !standing.Doubtful? {
      if standing.Complete? {
        CompleteIsUsable(d);
      }
      ConfirmingIsSafe(AsTrusted(d), p, mtime);
    }
    StepStaysInService(standing, d, Action.Publish(p, mtime));
  }

  lemma ConfirmedInService(standing: Standing, d: Durable, key: Key, digest: Digest, idem: Option<string>)
    requires InService(standing, d) && InPlace(d, key) && !ContentConflicts(d, key, digest)
    ensures InService(standing, Confirmed(d, key))
    ensures InService(standing, Receipted(Confirmed(d, key), idem, key, digest))
  {
    hide Inv, Tracked;
    if !standing.Doubtful? {
      KeyOfRecord(AsTrusted(d), key);
      var p := d.packages[key];
      PublishStaysInService(standing, d, p.(status := Stored), d.disk[p.filename].mtime);
      if idem.Some? {
        ReceiptStaysInService(standing, Confirmed(d, key), idem.value, Receipt(digest, key));
      }
    }
  }

  lemma KeyOfRecord(d: Durable, key: Key)
    requires Inv(d) && key in d.packages
    ensures d.packages[key].key == key
  {
  }

  // What an upload does to the kept versions

  lemma PutKeepsVersion(packages: Packages, p: Record)
    requires !p.status.Deleted?
    ensures KeptVersions(packages[p.key := p], p.key.id) == KeptVersions(packages, p.key.id) + {p.key.version}
  {
    var after := packages[p.key := p];
    forall v | v in KeptVersions(packages, p.key.id) ensures v in KeptVersions(after, p.key.id) {
      var k :| k in packages && k.id == p.key.id && !packages[k].status.Deleted? && k.version == v;
      assert k in after && !after[k].status.Deleted?;
    }
    assert p.key in after && after[p.key] == p;
  }

  lemma AcceptedKeeps(d: Durable, key: Key, digest: Digest, idem: Option<string>, mtime: int)
    ensures var e := Accepted(d, key, digest, idem, mtime);
      && KeptVersions(e.packages, key.id) == KeptVersions(d.packages, key.id) + {key.version}
      && LimitOf(e, key.id) == LimitOf(d, key.id)
  {
    hide KeptVersions;
    var p := Journaled(d, key, digest);
    PutKeepsVersion(d.packages, p.(status := Stored));
    assert d.packages[key := p][key := p.(status := Stored)] == d.packages[key := p.(status := Stored)];
  }

  /** A 201 answer is one step of a sync run as Sync sees the server. */
  lemma CreatedIsSent(d: Durable, key: Key, digest: Digest, idem: Option<string>, mtime: int,
                      cut: set<string>, stuck: set<string>, forgets: bool, e: Durable)
    requires !RetentionRefuses(d, key)
    requires TrimsTo(Accepted(d, key, digest, idem, mtime), key.id, cut, stuck, forgets, e)
    ensures Sync.Changes(KeptVersions(d.packages, key.id), Sync.Sent(key.version, cut), LimitOf(d, key.id),
        KeptVersions(e.packages, key.id))
    ensures IsCut(KeptVersions(d.packages, key.id) + {key.version}, LimitOf(d, key.id), cut)
    ensures LimitOf(e, key.id) == LimitOf(d, key.id)
  {
    hide KeptVersions, IsCut, IsOutside, Accepted, Removed;
    AcceptedKeeps(d, key, digest, idem, mtime);
    TrimReachesLimit(Accepted(d, key, digest, idem, mtime), key.id, cut, stuck, forgets, e);
  }
}
