/** The manager: its gate, its reconciliations, and the requests it lets in. */
module Managing {
  import opened Wrappers
  import opened Inventory
  import opened Protocol
  import opened Runs
  import opened Recovery
  import opened Guarantees
  import opened Limits
  import opened Retention
  import opened Interruption
  import opened Store
  import opened Removal
  import opened ScanSteps
  import opened Reconciling
  import opened Uploads
  import opened Catalog
  import opened LibraryLimit
  import opened Gate

  /** What a reconciliation may rely on. */
  ghost predicate Sound(d: Durable, full: bool) {
    NamesFree(d) && MayScan(d, full)
  }

  /** A reconciliation has gone through since the trail had this length. */
  ghost predicate Reconciled(t: seq<Event>, from: nat) {
    exists i | from <= i < |t| :: t[i].action == Trust
  }

  lemma StaysReconciled(u: seq<Event>, t: seq<Event>, from: nat)
    requires u <= t && Reconciled(u, from)
    ensures Reconciled(t, from)
  {
    var i :| from <= i < |u| && u[i].action == Trust;
    assert t[i] == u[i];
  }

  /** What a reconciliation makes of the standing. */
  ghost function StandingAfter(standing: Standing, d: Durable, full: bool, ok: bool): Standing {
    if ok then if Sound(d, full) then Complete else Doubtful
    else if MayScan(d, full) && (full || !standing.Doubtful?) then Usable else Doubtful
  }

  class Manager {
    const db: Store
    var gate: GateState
    ghost var steps: seq<Step>
    ghost var gates: seq<GateState>
    ghost var started: nat     // length of the trail when the process started
    ghost var standing: Standing    // what the last reconciliation left, and requests and edits since have kept

    ghost predicate Valid()
      reads this, db
    {
      && db.Valid()
      && IsGateRun(gates, steps) && gates[|steps|] == gate
      && started <= |db.trail|
      && (gate.scan == Ready ==> Reconciled(db.trail, started))
      && (forall r | r in gate.retries && gate.retries[r].through && gate.retries[r].ok ::
        Reconciled(db.trail, started))
      && InService(standing, db.State())
    }

    constructor (db: Store)
      requires db.Valid()
      ensures Valid() && this.db == db && gate == CLOSED
    {
      this.db, gate := db, CLOSED;
      steps, gates, started, standing := [], [CLOSED], |db.trail|, Doubtful;
    }

    method Move(s: Step)
      requires CanStep(gate, s) && IsGateRun(gates, steps) && gates[|steps|] == gate
      modifies this`gate, this`steps, this`gates
      ensures gate == After(old(gate), s)
      ensures IsGateRun(gates, steps) && gates[|steps|] == gate && steps == old(steps) + [s]
    {
      gate := After(gate, s);
      steps, gates := steps + [s], gates + [gate];
    }

    /** One reconciliation under the locks. Where it fails, every state it passes through is fit for requests. */
    method ReconcileLocked(full: bool, rows: seq<Option<Key>>, batches: seq<set<string>>, batchSize: nat,
                           stuck: set<string>, forgets: bool)
      returns (answer: Option<nat>, ghost cuts: map<string, set<string>>)
      requires Valid() && batchSize > 0 && Covers(db.State(), KeysIn(rows), batches)
      modifies this`standing, db
      ensures Valid() && old(db.trail) <= db.trail
      ensures answer.Some? ==> Reconciled(db.trail, started)
      ensures answer.Some? <==> GoesThrough(old(db.State()), full, KeysIn(rows), batches, stuck)
      ensures answer.Some? ==>
        ReconcilesTo(old(db.State()), full, KeysIn(rows), batches, cuts, answer.value, db.State())
      ensures full ==> |db.trail| > |old(db.trail)|
      ensures answer.None? ==> AllMidScan(old(db.State()), full, KeysIn(rows), batches, db.trail, |old(db.trail)|)
      ensures standing == StandingAfter(old(standing), old(db.State()), full, answer.Some?)
      ensures standing.Complete? ==> Quiet(db.State())
      ensures standing.Usable? ==> AllInService(Usable, db.trail, |old(db.trail)|)
    {
      hide Store.Valid, Covers, KeysIn, AllMidScan, Quiet, AtRest, AllAtRest, Sound, Scan, TrimsSoFar, Walk,
        Prologue, Reconciled, IsGateRun, InService, GoesThrough, MayScan, ReconcilesTo;
      ghost var d, was := db.State(), db.trail;
      TrailEndsHere(db);
      var ok, changed;
      ghost var end, at;
      ok, changed, end, at, cuts := Reconcile(db, full, rows, batches, batchSize, stuck, forgets);
      if Reconciled(was, started) {
        StaysReconciled(was, db.trail, started);
      }
      if ok {
        EndsReconciled(db.trail, started);
      }
      standing := StandingAfter(standing, d, full, ok);
      if standing.Complete? {
        SoundScanEndsQuiet(d, full, KeysIn(rows), batches, end, cuts, changed, db.State());
        QuietIsInService(db.State());
      } else if standing.Usable? {
        if old(standing).Complete? {
          CompleteIsUsable(d);
        }
        TrailEndsHere(db);
        FailureIsUsable(d, full, KeysIn(rows), batches, was, db.trail, db.State());
      }
      DoubtfulHolds(db.State());
      answer := if ok then Some(changed) else None;
    }

    /** The scan in the background after a start. */
    method Startup(rows: seq<Option<Key>>, batches: seq<set<string>>, batchSize: nat, stuck: set<string>, forgets: bool)
      returns (ghost changed: nat, ghost cuts: map<string, set<string>>)
      requires Valid() && gate.scan == Scanning && batchSize > 0 && Covers(db.State(), KeysIn(rows), batches)
      modifies this, db
      ensures Valid() && old(db.trail) <= db.trail && started == old(started)
      ensures gate == After(old(gate), StartupEnds(gate.scan == Ready)) && gate.scan != Scanning
      ensures gate.scan == Failed ==>
          AllMidScan(old(db.State()), false, KeysIn(rows), batches, db.trail, |old(db.trail)|)
      ensures gate.scan == Ready && Sound(old(db.State()), false) ==> standing == Complete && Quiet(db.State())
      ensures gate.scan == Ready <==> GoesThrough(old(db.State()), false, KeysIn(rows), batches, stuck)
      ensures gate.scan == Ready ==>
        ReconcilesTo(old(db.State()), false, KeysIn(rows), batches, cuts, changed, db.State())
    {
      hide Store.Valid, Covers, KeysIn, AllMidScan, Quiet, Sound, Reconciled, InService, IsGateRun, GoesThrough,
        ReconcilesTo;
      var answer;
      answer, cuts := ReconcileLocked(false, rows, batches, batchSize, stuck, forgets);
      changed := if answer.Some? then answer.value else 0;
      Move(StartupEnds(answer.Some?));
    }

    /** A reconciliation is requested: refused while the startup scan runs, otherwise it notes the gate as it is. */
    method Arrive(r: nat) returns (admitted: bool)
      requires Valid() && r !in gate.retries
      modifies this`gate, this`steps, this`gates
      ensures Valid() && (admitted <==> old(gate.scan) != Scanning)
      ensures gate == if admitted then After(old(gate), Arrives(r)) else old(gate)
    {
      hide Store.Valid, Reconciled, InService, IsGateRun;
      admitted := gate.scan != Scanning;
      if admitted {
        Move(Arrives(r));
      }
    }

    /** A requested reconciliation gets the locks. */
    method Retry(r: nat, full: bool, rows: seq<Option<Key>>, batches: seq<set<string>>, batchSize: nat,
                 stuck: set<string>, forgets: bool)
      returns (answer: Option<nat>, ghost cuts: map<string, set<string>>)
      requires Valid() && r in gate.retries && !gate.retries[r].through
      requires batchSize > 0 && Covers(db.State(), KeysIn(rows), batches)
      modifies this, db
      ensures Valid() && old(db.trail) <= db.trail && started == old(started)
      ensures gate == After(old(gate), Reconciles(r, answer.Some?))
      ensures answer.None? ==> AllMidScan(old(db.State()), full, KeysIn(rows), batches, db.trail, |old(db.trail)|)
      ensures answer.Some? <==> GoesThrough(old(db.State()), full, KeysIn(rows), batches, stuck)
      ensures answer.Some? ==>
        ReconcilesTo(old(db.State()), full, KeysIn(rows), batches, cuts, answer.value, db.State())
      ensures full ==> |db.trail| > |old(db.trail)|
      ensures standing == StandingAfter(old(standing), old(db.State()), full, answer.Some?)
      ensures standing.Complete? ==> Quiet(db.State())
      ensures standing.Usable? ==> AllInService(Usable, db.trail, |old(db.trail)|)
    {
      hide Store.Valid, Covers, KeysIn, AllMidScan, Quiet, Sound, Reconciled, InService, IsGateRun, GoesThrough,
        StandingAfter, ReconcilesTo;
      answer, cuts := ReconcileLocked(full, rows, batches, batchSize, stuck, forgets);
      Move(Reconciles(r, answer.Some?));
    }

    /** A requested reconciliation answers, and decides the gate if the scan had failed when it came in. */
    method Finish(r: nat)
      requires Valid() && r in gate.retries && gate.retries[r].through
      modifies this`gate, this`steps, this`gates
      ensures Valid() && gate == After(old(gate), Finishes(r))
    {
      hide Store.Valid, Reconciled, InService, IsGateRun;
      Move(Finishes(r));
    }

    /** Whether a request is let in; otherwise it is answered 503. */
    method AfterScan() returns (served: bool)
      requires Valid()
      ensures served <==> gate.scan == Ready
      ensures served ==> Reconciled(db.trail, started) && HasSucceeded(steps, |steps|)
    {
      hide Store.Valid, Reconciled, InService;
      served := gate.scan == Ready;
      if served {
        OpenMeansSucceeded(gates, steps, |steps|);
      }
    }

    /** Someone else edits the directory. */
    method Edited(edited: Directory)
      requires Valid()
      modifies this`standing, db`disk, db`trail
      ensures Valid() && old(db.trail) <= db.trail && standing == Doubtful
    {
      hide Store.Consistent, IsRun, Reconciled, InService, IsGateRun;
      ghost var was := db.trail;
      db.EditOutside(edited);
      standing := Doubtful;
      DoubtfulHolds(db.State());
      if Reconciled(was, started) {
        StaysReconciled(was, db.trail, started);
      }
    }

    // Requests

    /** An upload. As long as its own trim finds names apart, every state of it keeps the standing. */
    method Upload(key: Key, digest: Digest, idem: Option<string>, mtime: int, linkFails: bool, stuck: set<string>,
                  forgets: bool)
      returns (answer: Option<Answer>, ghost cut: set<string>)
      requires Valid()
      modifies this`standing, db
      ensures Valid() && old(db.trail) <= db.trail
      ensures answer.None? <==> gate.scan != Ready
      ensures answer.None? ==> db.State() == old(db.State()) && db.trail == old(db.trail)
      ensures answer.Some? ==>
        AnswersUpload(old(db.State()), key, digest, idem, mtime, linkFails, stuck, forgets, answer.value, cut,
            db.State())
      ensures var removes := answer.Some? && answer.value.Created? && cut != {};
        standing == if removes && !NamesApart(Accepted(old(db.State()), key, digest, idem, mtime)) then Doubtful
                    else old(standing)
      ensures AllInService(standing, db.trail, |old(db.trail)|)
    {
      hide Store.Consistent, IsRun, Reconciled, InService, AllInService, IsGateRun, RetentionRefuses,
        ContentConflicts, Accepted, Confirmed, TrimsTo, AllPublishing, AllOnTheWay, CutKeys, NamesApart, JournalTx,
        Journaled, Receipted, InPlace;
      ghost var d, was := db.State(), db.trail;
      cut := {};
      NothingPassed(standing, was);
      if gate.scan != Ready {
        return None, {};
      }
      var reply;
      reply, cut := Uploads.Upload(db, key, digest, idem, mtime, linkFails, stuck, forgets);
      answer := Some(reply);
      StaysReconciled(was, db.trail, started);
      if reply.Created? && cut != {} && !NamesApart(Accepted(d, key, digest, idem, mtime)) {
        standing := Doubtful;
        DoubtfulPasses(db.trail, |was|);
        DoubtfulHolds(db.State());
      } else {
        match reply {
          case Refused(why) =>
            if why == PublicationFailed {
              RefusedInService(standing, d, key, digest, was, db.trail);
            }
          case Duplicate =>
            DuplicateInService(standing, d, key, digest, idem, was, db.trail);
          case Created(removed) =>
            CreatedInService(standing, d, key, digest, idem, mtime, cut, stuck, forgets, db.State(), was, db.trail);
        }
      }
    }

    /** A deletion by version. With names apart, every state of it keeps the standing. */
    method DeleteVersions(id: string, through: Option<string>, dryRun: bool, stuck: set<string>, forgets: bool)
      returns (answer: Option<DeleteAnswer>)
      requires Valid()
      modifies this`standing, db
      ensures Valid() && old(db.trail) <= db.trail
      ensures answer.None? <==> gate.scan != Ready
      ensures answer.None? ==> db.State() == old(db.State()) && db.trail == old(db.trail)
      ensures answer.Some? ==>
        AnswersDelete(old(db.State()), id, through, dryRun, stuck, forgets, answer.value, db.State())
      ensures dryRun || Named(old(db.packages), id, through) == {} ==> db.trail == old(db.trail)
      ensures standing == if db.trail == old(db.trail) || NamesApart(old(db.State())) then old(standing) else Doubtful
      ensures AllInService(standing, db.trail, |old(db.trail)|)
    {
      hide Store.Consistent, IsRun, Reconciled, InService, AllInService, IsGateRun, AllOnTheWay, NamesApart, Removed,
        Named;
      ghost var d, was := db.State(), db.trail;
      NothingPassed(standing, was);
      if gate.scan != Ready {
        return None;
      }
      var reply := Removal.DeleteVersions(db, id, through, dryRun, stuck, forgets);
      answer := Some(reply);
      StaysReconciled(was, db.trail, started);
      if db.trail != was && !NamesApart(d) {
        standing := Doubtful;
        DoubtfulPasses(db.trail, |was|);
        DoubtfulHolds(db.State());
      } else if NamesApart(d) {
        var keys := Named(d.packages, id, through);
        NamedAreKnown(d.packages, id, through);
        RemovalStaysDeletable(d, keys, stuck, forgets, !(dryRun || keys == {}), db.State(), db.trail, |was|);
        StandingStays(standing, d, db.State(), db.trail, |was|);
      }
    }

    /** A change of one extension's limit. With names apart where it removes, every state of it keeps the standing. */
    method SetExtensionLimit(id: string, own: Option<nat>, dryRun: bool, stuck: set<string>, forgets: bool)
      returns (t: Option<TrimReport>, ghost cut: set<string>)
      requires Valid()
      modifies this`standing, db
      ensures Valid() && old(db.trail) <= db.trail && (t.Some? ==> fresh(t.value))
      ensures t.None? <==> gate.scan != Ready
      ensures t.None? || dryRun ==> db.State() == old(db.State()) && db.trail == old(db.trail)
      ensures t.Some? ==>
        AnswersLimit(old(db.State()), id, own, dryRun, stuck, forgets, t.value, cut, db.State())
      ensures var keeps := db.trail == old(db.trail) || cut == {} || NamesApart(old(db.State()));
        standing == if keeps then old(standing) else Doubtful
      ensures AllInService(standing, db.trail, |old(db.trail)|)
    {
      hide Store.Consistent, IsRun, Reconciled, InService, AllInService, IsGateRun, AllOnTheWay, NamesApart, TrimsTo,
        Reports, IsCut, LimitOf, KeptVersions, CutKeys, SetKeepTx, Stuck, NamesOf;
      ghost var d, was := db.State(), db.trail;
      cut := {};
      NothingPassed(standing, was);
      if gate.scan != Ready {
        return None, {};
      }
      var keep, report;
      keep, report, cut := Removal.SetExtensionLimit(db, id, own, dryRun, stuck, forgets);
      t := Some(report);
      StaysReconciled(was, db.trail, started);
      if !dryRun {
        if cut == {} || NamesApart(d) {
          ExtensionLimitInService(standing, d, id, own, cut, stuck, forgets, db.State(), was, db.trail);
        } else {
          standing := Doubtful;
          DoubtfulPasses(db.trail, |was|);
          DoubtfulHolds(db.State());
        }
      }
    }

    /** A change of the library's limit. With names apart, every state of it keeps the standing. */
    method SetLibraryLimit(keep: nat, dryRun: bool, stuck: set<string>, forgets: bool)
      returns (t: Option<TrimReport>, ghost cuts: map<string, set<string>>)
      requires Valid() && forall k | k in db.packages :: k.id != ""
      modifies this`standing, db
      ensures Valid() && old(db.trail) <= db.trail && (t.Some? ==> fresh(t.value))
      ensures t.None? <==> gate.scan != Ready
      ensures t.None? || dryRun ==> db.State() == old(db.State()) && db.trail == old(db.trail)
      ensures t.Some? ==>
        ReportsAll(t.value, old(db.packages), cuts) && LimitsTo(old(db.State()), keep, dryRun, cuts, db.State())
      ensures standing == if db.trail == old(db.trail) || NamesApart(old(db.State())) then old(standing) else Doubtful
      ensures AllInService(standing, db.trail, |old(db.trail)|)
    {
      hide Store.Consistent, IsRun, Reconciled, InService, AllInService, IsGateRun, NamesApart, TrimsSoFar,
        ReportsAll, IsCut, KeptVersions, Over, WithinLimit, StaysDeletable;
      ghost var d, was := db.State(), db.trail;
      cuts := map[];
      NothingPassed(standing, was);
      if gate.scan != Ready {
        return None, map[];
      }
      var report;
      report, cuts := LibraryLimit.SetLibraryLimit(db, keep, dryRun, stuck, forgets);
      t := Some(report);
      StaysReconciled(was, db.trail, started);
      if db.trail != was && !NamesApart(d) {
        standing := Doubtful;
        DoubtfulPasses(db.trail, |was|);
        DoubtfulHolds(db.State());
      } else if NamesApart(d) {
        StandingStays(standing, d, db.State(), db.trail, |was|);
      }
    }
  }

  // Standing

  lemma DoubtfulHolds(d: Durable)
    ensures InService(Doubtful, d)
  {
  }

  lemma DoubtfulPasses(t: seq<Event>, from: nat)
    ensures AllInService(Doubtful, t, from)
  {
  }

  lemma NothingPassed(standing: Standing, t: seq<Event>)
    ensures AllInService(standing, t, |t|)
  {
  }

  lemma StandingStays(standing: Standing, d: Durable, e: Durable, t: seq<Event>, from: nat)
    requires InService(standing, d) && NamesApart(d) && StaysDeletable(d, e, t, from)
    ensures InService(standing, e) && AllInService(standing, t, from)
  {
    assert Deletable(standing, d);
  }

  lemma TrailEndsHere(db: Store)
    requires db.Valid()
    ensures |db.trail| > 0 && db.trail[|db.trail| - 1].state == db.State()
  {
  }

  lemma FailureIsUsable(d: Durable, full: bool, order: seq<Key>, batches: seq<set<string>>, u: seq<Event>,
                        t: seq<Event>, s: Durable)
    requires MayScan(d, full) && Covers(d, order, batches) && (full || InService(Usable, d))
    requires u <= t && AllMidScan(d, full, order, batches, t, |u|)
    requires if |t| > |u| then t[|t| - 1].state == s else s == d && !full
    ensures AllInService(Usable, t, |u|) && InService(Usable, s)
  {
    hide MayScan, Covers, MidScan, InService;
    assert forall k | k in order :: k in d.packages by { CoveredAreKnown(d, order, batches); }
    forall i | |u| <= i < |t| ensures InService(Usable, t[i].state) {
      MidScanIsUsable(d, full, t[i].state, order, batches);
    }
  }

  lemma CoveredAreKnown(d: Durable, order: seq<Key>, batches: seq<set<string>>)
    requires Covers(d, order, batches)
    ensures forall k | k in order :: k in d.packages
  {
  }

  lemma EndsReconciled(t: seq<Event>, from: nat)
    requires from < |t| && t[|t| - 1].action == Trust
    ensures Reconciled(t, from)
  {
  }

  lemma SoundScanEndsQuiet(d: Durable, full: bool, order: seq<Key>, batches: seq<set<string>>, end: Durable,
                           cuts: map<string, set<string>>, changed: nat, s: Durable)
    requires Sound(d, full) && Covers(d, order, batches) && end == Scan(d, full, order, batches)
    requires ReconcilesTo(d, full, order, batches, cuts, changed, s)
    requires AtRest(end) ==> AtRest(s)
    ensures Quiet(s)
  {
    hide Scan, Walk, Quiet, NamesFree, MayScan;
    ScanEndsAtRest(d, full, order, batches);
    assert s.(trusted := true) == s;
  }

  // What requests pass through

  lemma RefusedInService(standing: Standing, d: Durable, key: Key, digest: Digest, u: seq<Event>, t: seq<Event>)
    requires InService(standing, d) && !ContentConflicts(d, key, digest)
    requires u <= t && |t| == |u| + 1 && t[|u|].state == JournalTx(d, Journaled(d, key, digest))
    ensures AllInService(standing, t, |u|) && InService(standing, JournalTx(d, Journaled(d, key, digest)))
  {
    hide InService;
    JournalStaysInService(standing, d, Journaled(d, key, digest));
  }

  lemma DuplicateInService(standing: Standing, d: Durable, key: Key, digest: Digest, idem: Option<string>,
                           u: seq<Event>, t: seq<Event>)
    requires InService(standing, d) && InPlace(d, key) && !ContentConflicts(d, key, digest)
    requires forall i | |u| <= i < |t| ::
               t[i].state == Confirmed(d, key) || t[i].state == Receipted(Confirmed(d, key), idem, key, digest)
    ensures AllInService(standing, t, |u|) && InService(standing, Receipted(Confirmed(d, key), idem, key, digest))
  {
    hide InService;
    ConfirmedInService(standing, d, key, digest, idem);
  }

  lemma CreatedInService(standing: Standing, d: Durable, key: Key, digest: Digest, idem: Option<string>, mtime: int,
                         cut: set<string>, stuck: set<string>, forgets: bool, e: Durable, u: seq<Event>, t: seq<Event>)
    requires InService(standing, d) && !ContentConflicts(d, key, digest)
    requires Journaled(d, key, digest).filename !in d.disk && u <= t
    requires var a := Accepted(d, key, digest, idem, mtime);
      && TrimsTo(a, key.id, cut, stuck, forgets, e) && (cut != {} ==> NamesApart(a))
      && exists m | |u| < m <= |t| ::
           AllPublishing(d, key, digest, idem, mtime, t, |u|, m)
               && AllOnTheWay(a, CutKeys(a.packages, key.id, cut), t, m)
    ensures AllInService(standing, t, |u|) && InService(standing, e)
  {
    hide InService, NamesApart, Accepted, Removed, IsCut, OnTheWay, Publishing;
    var a := Accepted(d, key, digest, idem, mtime);
    var keys := CutKeys(a.packages, key.id, cut);
    var m :| |u| < m <= |t| && AllPublishing(d, key, digest, idem, mtime, t, |u|, m) && AllOnTheWay(a, keys, t, m);
    PublishingStates(d, key, digest, idem, mtime);
    PublishingInService(standing, d, key, digest, idem, mtime, a);
    forall i | |u| <= i < m ensures InService(standing, t[i].state) {
      PublishingInService(standing, d, key, digest, idem, mtime, t[i].state);
    }
    TrimInService(standing, a, key.id, cut, stuck, forgets, e, t, m);
    forall i | |u| <= i < |t| ensures InService(standing, t[i].state) {
    }
  }

  /** A trim keeps the standing if it cuts nothing, or names are apart. */
  lemma TrimInService(standing: Standing, d: Durable, id: string, cut: set<string>, stuck: set<string>, forgets: bool,
                      e: Durable, t: seq<Event>, from: nat)
    requires InService(standing, d) && TrimsTo(d, id, cut, stuck, forgets, e) && (cut == {} || NamesApart(d))
    requires AllOnTheWay(d, CutKeys(d.packages, id, cut), t, from)
    ensures AllInService(standing, t, from) && InService(standing, e)
  {
    hide InService, NamesApart, Removed, IsCut, OnTheWay;
    CutKeysAreKnown(d.packages, id, cut);
    if cut == {} {
      assert CutKeys(d.packages, id, cut) == {};
      NothingOnTheWayInService(standing, d, t, from);
    } else {
      OnTheWayInService(standing, d, CutKeys(d.packages, id, cut), t, from);
      RemovedInService(standing, d, CutKeys(d.packages, id, cut), stuck, forgets);
    }
  }

  lemma NothingOnTheWayInService(standing: Standing, d: Durable, t: seq<Event>, from: nat)
    requires InService(standing, d) && AllOnTheWay(d, {}, t, from)
    ensures AllInService(standing, t, from)
  {
    hide InService;
    forall i | from <= i < |t| ensures InService(standing, t[i].state) {
      assert OnTheWay(d, {}, t[i].state);
      var gone, forgotten :| forgotten <= gone <= NamesOf(d, {}) && t[i].state == MidRemoval(d, {}, gone, forgotten);
      assert gone == {} && forgotten == {};
      assert MarkedDeleted(d.packages, {}) == d.packages && d.dirty + {} == d.dirty;
      assert d.disk - {} == d.disk && d.files - {} == d.files;
    }
  }

  lemma NamedAreKnown(packages: Packages, id: string, through: Option<string>)
    ensures Named(packages, id, through) <= packages.Keys
  {
  }

  lemma ExtensionLimitInService(standing: Standing, d: Durable, id: string, own: Option<nat>, cut: set<string>,
                                stuck: set<string>, forgets: bool, e: Durable, u: seq<Event>, t: seq<Event>)
    requires InService(standing, d) && (cut == {} || NamesApart(d)) && u <= t
    requires var limited := SetKeepTx(d, id, own);
      && TrimsTo(limited, id, cut, stuck, forgets, e) && |t| > |u| && t[|u|].state == limited
      && AllOnTheWay(limited, CutKeys(limited.packages, id, cut), t, |u| + 1)
    ensures AllInService(standing, t, |u|) && InService(standing, e)
  {
    hide InService, IsCut, AllOnTheWay, TrimsTo;
    StepStaysInService(standing, d, SetKeep(id, own));
    TrimInService(standing, SetKeepTx(d, id, own), id, cut, stuck, forgets, e, t, |u| + 1);
    forall i | |u| <= i < |t| ensures InService(standing, t[i].state) {
    }
  }
}
