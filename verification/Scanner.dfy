/** The incremental scan: loops over batches, each one short transaction. */
module Scanning {
  import opened Wrappers
  import opened Text
  import opened Inventory
  import opened Protocol
  import opened Recovery
  import opened Guarantees
  import opened Interruption
  import opened Limits
  import opened Bitsets
  import opened Store
  import opened Summaries
  import opened Removal
  import opened ScanSteps

  // The states a scan passes through once its prologue is done; p is the state after the prologue

  ghost predicate Walks(p: Durable, batches: seq<set<string>>, s: Durable) {
    exists j | 0 <= j <= |batches| :: s == Walk(p, batches[..j])
  }

  ghost predicate Drops(p: Durable, batches: seq<set<string>>, s: Durable) {
    exists names | names <= Walk(p, batches).files.Keys && names !! p.disk.Keys :: s == DropTx(Walk(p, batches), names)
  }

  ghost predicate Settles(x: Durable, s: Durable) {
    exists keys, gone | keys <= x.dirty && Leftovers(x, keys) <= gone <= Leftovers(x, x.dirty) ::
        s == PartlySettled(x, keys, gone)
  }

  ghost predicate Passing(p: Durable, batches: seq<set<string>>, s: Durable) {
    Walks(p, batches, s) || Drops(p, batches, s) || Settles(DropVanished(Walk(p, batches)), s)
  }

  ghost predicate AllPassing(p: Durable, batches: seq<set<string>>, t: seq<Event>, from: nat) {
    forall i | from <= i < |t| :: Passing(p, batches, t[i].state)
  }

  lemma PassingOneMore(p: Durable, batches: seq<set<string>>, u: seq<Event>, t: seq<Event>, s: Durable, from: nat)
    requires AllPassing(p, batches, u, from) && OneStep(u, t, s) && Passing(p, batches, s)
    ensures AllPassing(p, batches, t, from)
  {
    hide Passing;
    forall i | from <= i < |t| ensures Passing(p, batches, t[i].state) {
      if i < |u| {
        assert t[i] == u[i];
      }
    }
  }

  /** Each of these states is one an interrupted scan resumes from. */
  lemma PassingIsMidScan(d: Durable, full: bool, order: seq<Key>, batches: seq<set<string>>, s: Durable)
    requires (forall k | k in order :: k in d.packages) && Passing(Prologue(d, full, order), batches, s)
    ensures MidScan(d, full, s, order, batches)
  {
    hide Walk, AdoptTx, DropTx, Leftovers, SettleTx;
    var p := Prologue(d, full, order);
    if Walks(p, batches, s) {
      assert Walking(d, full, s, order, batches);
    } else if Drops(p, batches, s) {
      var names :| names <= Walk(p, batches).files.Keys && names !! p.disk.Keys && s == DropTx(Walk(p, batches), names);
      assert p.disk == d.disk && Walked(d, full, order, batches) == Walk(p, batches);
    } else {
      assert Settling(d, full, s, order, batches);
    }
  }

  // One record

  /** Derives a record's status from the files holding its identity, in the order of their names. */
  method Judge(p: Record, held: map<string, Digest>) returns (r: Record)
    ensures r == Settled(p, held)
  {
    hide InOrder;
    var names := InOrder(held.Keys);
    if |names| == 0 {
      return p.(status := Missing);
    }
    for i := 0 to |names|
      invariant forall j | 0 <= j < i :: held[names[j]] == p.digest
    {
      if held[names[i]] != p.digest {
        return p.(status := Conflict);
      }
    }
    assert AllMatch(held, p.digest) by {
      forall n | n in held ensures held[n] == p.digest {
        assert n in names;
      }
    }
    var name := names[0];
    for i := 0 to |names|
      invariant name == if p.filename in names[..i] then p.filename else names[0]
    {
      if names[i] == p.filename {
        name := names[i];
      }
    }
    assert names[..|names|] == names;
    FirstIsLeast(held.Keys);
    return p.(status := Stored, filename := name);
  }

  lemma FirstIsLeast(names: set<string>)
    requires names != {}
    ensures InOrder(names)[0] == Least(names)
  {
  }

  /** The row ids of the named files. */
  function RowsOf(ids: map<string, nat>, names: set<string>): set<nat> {
    set n | n in names && n in ids :: ids[n]
  }

  lemma RowsOfOneMore(ids: map<string, nat>, names: set<string>, n: string)
    requires n in ids && IsInjective(ids)
    ensures RowsOf(ids, names + {n}) == RowsOf(ids, names) + {ids[n]}
    ensures names <= ids.Keys ==> (ids[n] in RowsOf(ids, names) <==> n in names)
  {
  }

  lemma RowsOfStay(ids: map<string, nat>, later: map<string, nat>, names: set<string>)
    requires names <= ids.Keys && forall n | n in ids :: n in later && later[n] == ids[n]
    ensures RowsOf(later, names) == RowsOf(ids, names)
  {
  }

  class Scanner {
    const db: Store
    const found: Bitset          // rows of the remembered files that are still present
    const batchSize: nat
    var seen: nat
    var changed: nat
    var grew: set<string>        // extensions that gained stored versions
    ghost var visited: set<string>

    ghost predicate Marked()
      reads this, db`files, db`ids, found
    {
      && visited <= db.files.Keys && visited <= db.ids.Keys
      && found.Members() == RowsOf(db.ids, visited)
      && seen == |visited|
    }

    constructor (db: Store, batchSize: nat)
      ensures this.db == db && this.batchSize == batchSize && fresh(found)
      ensures seen == changed == 0 && grew == {} && visited == {} && Marked()
    {
      this.db, this.batchSize := db, batchSize;
      found := new Bitset();
      seen, changed, grew, visited := 0, 0, {}, {};
    }

    /** Marks a file's row as found. */
    method Mark(name: string)
      requires db.IdsValid() && Marked() && name in db.files
      modifies this`seen, this`visited, found
      ensures Marked() && visited == old(visited) + {name}
    {
      RowsOfOneMore(db.ids, visited, name);
      var added := found.Set(db.ids[name]);
      if added {
        seen := seen + 1;
      }
      visited := visited + {name};
    }

    /** Remembers a file and marks its row. */
    method Remember(name: string, file: File)
      requires db.Consistent() && Marked()
      modifies db`files, db`ids, db`lastId, this`seen, this`visited, found
      ensures db.Consistent() && Marked()
      ensures db.files == old(db.files)[name := file] && visited == old(visited) + {name}
    {
      hide CacheAgrees, IsInjective, RowsOf;
      ghost var ids := db.ids;
      db.RememberRow(name, file);
      RowsOfStay(ids, db.ids, visited);
      Mark(name);
    }

    // After an upgrade

    /** A stored record's file is remembered unless its name is taken; any other record is queued. */
    method AdoptRecord(k: Key)
      requires db.Consistent() && k in db.packages
      modifies db`files, db`ids, db`lastId, db`dirty
      ensures db.Consistent() && db.State() == AdoptOne(old(db.State()), k)
    {
      hide Store.Consistent;
      var p := db.packages[k];
      if p.status == Stored && p.filename != "" {
        if p.filename !in db.files {
          db.RememberRow(p.filename, File(p.digest.size, UNKNOWN_TIME, Valid(k, p.digest)));
          return;
        }
      }
      db.Queue(k);
    }

    method AdoptRecords(keys: seq<Key>)
      requires db.Valid() && forall k | k in keys :: k in db.packages
      modifies db
      ensures db.Valid() && db.State() == AdoptTx(old(db.State()), keys)
      ensures db.trail == old(db.trail) + [Event(Action.Adopt(keys), db.State())]
    {
      hide Store.Consistent, IsRun, AdoptOne;
      ghost var d := db.State();
      for i := 0 to |keys|
        invariant db.Consistent() && db.trail == old(db.trail)
        invariant forall k | k in keys[..i] :: k in keys
        invariant db.State() == AdoptTx(d, keys[..i])
      {
        assert keys[i] in keys;
        assert keys[..i + 1][..i] == keys[..i];
        AdoptRecord(keys[i]);
      }
      assert keys[..|keys|] == keys;
      db.Commit(Action.Adopt(keys));
    }

    /** Remembers the files of stored records, range by range of the packages table. */
    method Adopt(rows: seq<Option<Key>>)
      requires db.Valid() && batchSize > 0 && !db.trusted && forall k | k in KeysIn(rows) :: k in db.packages
      modifies db
      ensures db.Valid() && db.State() == AdoptTx(old(db.State()), KeysIn(rows))
      ensures old(db.trail) <= db.trail && AllAdopting(old(db.State()), KeysIn(rows), db.trail, |old(db.trail)|)
    {
      hide Store.Consistent, IsRun, AdoptTx, KeysIn, AllAdopting;
      ghost var d, from := db.State(), |db.trail|;
      AdoptNone(d, rows, db.trail);
      var low := 0;
      while low < |rows|
        invariant low <= |rows| && db.Valid() && old(db.trail) <= db.trail
        invariant forall k | k in KeysIn(rows[..low]) :: k in d.packages
        invariant db.State() == AdoptTx(d, KeysIn(rows[..low]))
        invariant AllAdopting(d, KeysIn(rows), db.trail, from)
      {
        var high := if low + batchSize < |rows| then low + batchSize else |rows|;
        AdoptRange(d, rows, low, high);
        ghost var was := db.trail;
        AdoptRecords(KeysIn(rows[low..high]));
        AdoptingOneMore(d, KeysIn(rows), KeysIn(rows[..high]), was, db.trail, from);
        low := high;
      }
      assert rows[..low] == rows;
    }

    // Verifying a batch

    /** Adopted files take the modification time they have. */
    method Touch(names: set<string>)
      requires db.Consistent() && Marked() && names <= db.files.Keys && names <= db.disk.Keys
      modifies db`files, db`ids, db`lastId, this`seen, this`visited, found
      ensures db.Consistent() && Marked()
      ensures db.files == Touched(old(db.files), db.disk, names) && visited == old(visited) + names
    {
      hide Store.Consistent, Marked, Touched;
      NothingRemembered(db.files, db.disk);
      var rest := names;
      assert names - rest == {};
      while rest != {}
        invariant rest <= names && db.Consistent() && Marked()
        invariant db.files == Touched(old(db.files), db.disk, names - rest)
        invariant visited == old(visited) + (names - rest)
      {
        var name :| name in rest;
        TouchedOneMore(old(db.files), db.disk, names - rest, name);
        TouchingKeeps(old(db.files), db.disk, names - rest);
        assert names - rest + {name} == names - (rest - {name});
        Remember(name, db.files[name].(mtime := db.disk[name].mtime));
        rest := rest - {name};
      }
      assert names - rest == names;
    }

    /** Creates the record of a package seen for the first time; other records are settled later. */
    method Inventory(key: Key, digest: Digest, name: string)
      requires db.Consistent()
      modifies db`packages, db`marked
      ensures db.Consistent()
      ensures db.packages ==
              if key in old(db.packages) then old(db.packages)
              else old(db.packages)[key := Record(key, digest, name, Pending)]
    {
      if key !in db.packages {
        db.Put(Record(key, digest, name, Pending));
      }
    }

    /** Opens one new or changed file, and queues the packages it holds and held. */
    method Open(name: string)
      requires db.Consistent() && Marked() && name in db.disk
      modifies db`packages, db`marked, db`files, db`ids, db`lastId, db`dirty, this`seen, this`visited, found
      ensures db.Consistent() && Marked()
      ensures db.packages == Enter(old(db.packages), db.disk, name)
      ensures db.files == old(db.files)[name := db.disk[name]] && visited == old(visited) + {name}
      ensures db.dirty == old(db.dirty) + KeysHeld(db.disk, {name}) + KeysHeld(old(db.files), {name})
    {
      hide Store.Consistent, Marked, KeysHeld;
      HeldByOne(db.disk, name);
      HeldByOne(db.files, name);
      var file := db.disk[name];
      if file.contents.Valid? {
        Inventory(file.contents.key, file.contents.digest, name);
        db.Queue(file.contents.key);
      }
      if name in db.files && db.files[name].contents.Valid? {
        db.Queue(db.files[name].contents.key);
      }
      Remember(name, file);
    }

    method OpenAll(names: seq<string>)
      requires db.Consistent() && Marked() && Distinct(names) && forall n | n in names :: n in db.disk
      modifies db`packages, db`marked, db`files, db`ids, db`lastId, db`dirty, this`seen, this`visited, found
      ensures db.Consistent() && Marked()
      ensures db.packages == EnterAll(old(db.packages), db.disk, names)
      ensures db.files == Remembered(old(db.files), db.disk, Elements(names))
          && visited == old(visited) + Elements(names)
      ensures db.dirty == old(db.dirty) + KeysHeld(db.disk, Elements(names)) + KeysHeld(old(db.files), Elements(names))
    {
      hide Store.Consistent, Marked, Remembered, Enter, KeysHeld;
      NothingRemembered(db.files, db.disk);
      NoKeysHeld(db.disk);
      NoKeysHeld(db.files);
      assert Elements(names[..0]) == {};
      for i := 0 to |names|
        invariant db.Consistent() && Marked()
        invariant db.packages == EnterAll(old(db.packages), db.disk, names[..i])
        invariant db.files == Remembered(old(db.files), db.disk, Elements(names[..i]))
            && visited == old(visited) + Elements(names[..i])
        invariant db.dirty == old(db.dirty) + KeysHeld(db.disk, Elements(names[..i]))
            + KeysHeld(old(db.files), Elements(names[..i]))
      {
        OpenedOneMore(old(db.files), db.disk, names, i);
        assert names[..i + 1][..i] == names[..i];
        Open(names[i]);
      }
      assert names[..|names|] == names;
    }

    /** Compares a batch with what was remembered: files to open, and files accepted by size. */
    method Classify(batch: set<string>) returns (changed: set<string>, adopted: set<string>)
      requires db.Consistent() && Marked() && batch <= db.disk.Keys
      modifies this`seen, this`visited, found
      ensures Marked()
      ensures changed == ChangedIn(db.State(), batch) && adopted == AdoptedIn(db.State(), batch)
      ensures visited == old(visited) + UnchangedIn(db.State(), batch)
    {
      hide Marked, Store.IdsValid, CacheAgrees, ChangedIn, AdoptedIn, UnchangedIn;
      changed, adopted := {}, {};
      ghost var d := db.State();
      NothingClassified(d);
      var rest := batch;
      assert batch - rest == {};
      while rest != {}
        invariant rest <= batch && Marked()
        invariant changed == ChangedIn(d, batch - rest) && adopted == AdoptedIn(d, batch - rest)
        invariant visited == old(visited) + UnchangedIn(d, batch - rest)
      {
        var name :| name in rest;
        ClassifiedOneMore(d, batch - rest, name);
        assert batch - rest + {name} == batch - (rest - {name});
        rest := rest - {name};
        var file := db.disk[name];
        if name in db.files && db.files[name].size == file.size && db.files[name].mtime == file.mtime {
          Mark(name);
        } else if name in db.files && db.files[name].size == file.size && db.files[name].mtime == UNKNOWN_TIME {
          adopted := adopted + {name};
        } else {
          changed := changed + {name};
        }
      }
      assert batch - rest == batch;
    }

    /** Compares one batch of files with what was remembered, and opens only those that are new or changed. */
    method Verify(batch: set<string>)
      requires db.Valid() && Marked() && batch <= db.disk.Keys
      modifies db, this`seen, this`visited, found
      ensures db.Valid() && Marked()
      ensures db.State() == VerifyTx(old(db.State()), batch) && visited == old(visited) + batch
      ensures OneStep(old(db.trail), db.trail, db.State())
    {
      hide Marked, Store.Consistent, IsRun, OneStep, ChangedIn, AdoptedIn, UnchangedIn, VerifyTx;
      ghost var d := db.State();
      var changed, adopted := Classify(batch);
      ClassesCover(d, batch);
      if changed == {} && adopted == {} {
        NothingToVerify(d, batch);
        NoStep(db.trail, d);
      } else {
        CommitBatch(batch, changed, adopted);
        OneMoreStep(old(db.trail), Event(Action.Verify(batch), db.State()));
      }
    }

    method CommitBatch(batch: set<string>, changed: set<string>, adopted: set<string>)
      requires db.Valid() && Marked() && batch <= db.disk.Keys
      requires changed == ChangedIn(db.State(), batch) && adopted == AdoptedIn(db.State(), batch)
      requires changed <= batch && adopted <= batch && adopted <= db.files.Keys
      modifies db, this`seen, this`visited, found
      ensures db.Valid() && Marked() && visited == old(visited) + adopted + changed
      ensures db.State() == VerifyTx(old(db.State()), batch)
      ensures db.trail == old(db.trail) + [Event(Action.Verify(batch), db.State())]
    {
      hide Marked, Store.Consistent, IsRun, Allowed, Apply, ChangedIn, AdoptedIn, UnchangedIn, VerifyTx, Touched,
        Remembered, KeysHeld;
      ghost var d := db.State();
      UpdateBatch(changed, adopted);
      BatchIsVerified(d, batch, db.State());
      VerifyFollows(d, batch);
      db.Commit(Action.Verify(batch));
    }

    /** The transaction of a batch. */
    method UpdateBatch(changed: set<string>, adopted: set<string>)
      requires db.Consistent() && Marked() && changed <= db.disk.Keys && adopted <= db.files.Keys
          && adopted <= db.disk.Keys
      modifies db`packages, db`marked, db`files, db`ids, db`lastId, db`dirty, this`seen, this`visited, found
      ensures db.Consistent() && Marked() && visited == old(visited) + adopted + changed
      ensures db.State() == old(db.State()).(
                packages := EnterAll(old(db.packages), db.disk, InOrder(changed)),
                files := Remembered(Touched(old(db.files), db.disk, adopted), db.disk, changed),
                dirty := old(db.dirty) + KeysHeld(db.disk, changed)
                    + KeysHeld(Touched(old(db.files), db.disk, adopted), changed))
    {
      hide Marked, Store.Consistent, Touched, Remembered, KeysHeld, EnterAll;
      Touch(adopted);
      var names := InOrder(changed);
      OrderIsDistinct(changed);
      assert Elements(names) == changed;
      OpenAll(names);
    }

    /** Verifies the directory batch by batch. */
    method WalkDirectory(batches: seq<set<string>>)
      requires db.Valid() && Marked() && visited == {} && ListedNames(batches) <= db.disk.Keys
      modifies db, this`seen, this`visited, found
      ensures db.Valid() && Marked() && visited == ListedNames(batches)
      ensures db.State() == Walk(old(db.State()), batches)
      ensures old(db.trail) <= db.trail && AllPassing(old(db.State()), batches, db.trail, |old(db.trail)|)
    {
      hide Marked, Store.Consistent, IsRun, Walk, VerifyTx, ListedNames, AllPassing, Passing, OneStep;
      ghost var p, from := db.State(), |db.trail|;
      StartWalk(p, batches, db.trail);
      for i := 0 to |batches|
        invariant db.Valid() && Marked() && visited == ListedNames(batches[..i])
        invariant db.State() == Walk(p, batches[..i])
        invariant old(db.trail) <= db.trail && AllPassing(p, batches, db.trail, from)
      {
        ghost var was := db.trail;
        WalkOneMore(p, batches, i);
        Verify(batches[i]);
        WalkPasses(p, batches, i + 1);
        StepExtends(was, db.trail, db.State());
        PassingOneMore(p, batches, was, db.trail, db.State(), from);
      }
      assert batches[..|batches|] == batches;
    }

    // Vanished files

    method VanishedRows(low: nat) returns (gone: set<string>)
      requires db.IdsValid() && Marked()
      ensures gone == GoneBetween(db.ids, visited, low, low + batchSize)
    {
      gone := {};
      var rows := set n | n in db.ids && low <= db.ids[n] < low + batchSize;
      var rest := rows;
      while rest != {}
        invariant rest <= rows
        invariant gone == set n | n in rows && n !in rest && n !in visited
      {
        var name :| name in rest;
        rest := rest - {name};
        var present := found.Has(db.ids[name]);
        RowsOfOneMore(db.ids, visited, name);
        if !present {
          gone := gone + {name};
        }
      }
    }

    /** Forgets vanished files in one transaction. */
    method DropRows(gone: set<string>)
      requires db.Valid() && Marked() && gone <= db.files.Keys && gone !! visited && visited == db.disk.Keys
      modifies db
      ensures db.Valid() && Marked() && db.lastId == old(db.lastId) && db.disk == old(db.disk)
      ensures db.State() == DropTx(old(db.State()), gone)
      ensures db.ids.Keys == old(db.ids).Keys - gone && forall n | n in db.ids ::
          n in old(db.ids) && db.ids[n] == old(db.ids)[n]
      ensures db.trail == old(db.trail) + [Event(Drop(gone), db.State())]
    {
      hide Store.Consistent, Marked, IsRun, KeysHeld, Allowed, Apply, DropTx;
      ghost var d, ids := db.State(), db.ids;
      DropFollows(d, gone);
      DropTxHas(d, gone);
      RowsAreFiles(db);
      MarksHold(this);
      db.dirty := db.dirty + KeysHeld(db.files, gone);
      db.ForgetRows(gone);
      RowsAreFiles(db);
      MarksStay(this, ids);
      db.Commit(Drop(gone));
    }

    /** One range of row ids. */
    method DropRange(low: nat, ghost w: Durable, ghost ids: map<string, nat>, ghost from: nat)
      requires db.Valid() && Marked() && visited == db.disk.Keys == w.disk.Keys && ids.Keys == w.files.Keys
      requires DroppedBelow(w, ids, low, db.State(), db.ids)
      requires from <= |db.trail| && AllDropped(w, db.trail, from)
      modifies db
      ensures db.Valid() && Marked() && db.lastId == old(db.lastId) && db.disk == old(db.disk)
      ensures DroppedBelow(w, ids, low + batchSize, db.State(), db.ids)
      ensures old(db.trail) <= db.trail && AllDropped(w, db.trail, from)
    {
      hide Store.Consistent, Marked, IsRun, AllDropped, DropTx, GoneBelow, GoneBetween;
      RowsAreFiles(db);
      var gone := VanishedRows(low);
      NextRange(ids, db.ids, visited, low, low + batchSize);
      ghost var all := GoneBelow(ids, visited, low) + gone;
      DropsAddUp(w, GoneBelow(ids, visited, low), gone);
      NamesBelow(ids, visited, low + batchSize);
      if gone != {} {
        ghost var was := db.trail;
        DropRows(gone);
        DroppedOneMore(w, all, was, db.trail, Drop(gone), from);
      } else {
        assert all == GoneBelow(ids, visited, low);
      }
    }

    /** Forgets files that are no longer in the directory and queues their packages. */
    method ForgetVanished()
      requires db.Valid() && Marked() && visited == db.disk.Keys && batchSize > 0
      modifies db
      ensures db.Valid() && db.State() == DropVanished(old(db.State()))
      ensures old(db.trail) <= db.trail && AllDropped(old(db.State()), db.trail, |old(db.trail)|)
    {
      hide Store.Consistent, Marked, IsRun, AllDropped, DropTx, Dropped, DroppedBelow, DropVanished;
      ghost var w, ids, from := db.State(), db.ids, |db.trail|;
      NothingDropped(w, db.trail);
      RowsAreFiles(db);
      if |db.files| == seen {
        NoneVanished(this);
        return;
      }
      var low, last := 0, db.lastId;
      FirstRange(w, ids);
      while low <= last
        invariant db.Valid() && Marked() && db.lastId == last && db.disk == w.disk
        invariant DroppedBelow(w, ids, low, db.State(), db.ids)
        invariant old(db.trail) <= db.trail && AllDropped(w, db.trail, from)
      {
        DropRange(low, w, ids, from);
        low := low + batchSize;
      }
      AllRanges(w, ids, low, db.State(), db.ids);
    }

    // Settling

    /** Settles the records among keys inside one transaction, counting the changes. */
    method SettleRecords(keys: set<Key>)
      requires db.Consistent()
      modifies db`packages, db`marked, this`changed, this`grew
      ensures db.Consistent()
      ensures db.packages == SettledPart(old(db.packages), db.files, keys * old(db.packages).Keys)
      ensures changed == old(changed) + |StatusChanges(old(db.packages), db.packages)|
      ensures grew == old(grew) + Grown(old(db.packages), db.packages)
    {
      hide Store.Consistent, SettledRecord, SettledPart, StatusChanges, Grown, Counted;
      ghost var before, c, g := db.packages, changed, grew;
      var records := keys * db.packages.Keys;
      var rest := records;
      CountedNone(before, db.files, c, g);
      assert records - rest == {};
      while rest != {}
        invariant rest <= records && db.Consistent()
        invariant Counted(before, db.files, records - rest, db.packages, c, g, changed, grew)
      {
        var k :| k in rest;
        CountedOneMore(before, db.files, records - rest, db.packages, c, g, changed, grew, k);
        assert records - rest + {k} == records - (rest - {k});
        rest := rest - {k};
        SettleRecord(k);
      }
      assert records - rest == records;
      CountedAll(before, db.files, records, db.packages, c, g, changed, grew);
    }

    /** Settles one record; one recorded as deleted keeps its status. */
    method SettleRecord(k: Key)
      requires db.Consistent() && k in db.packages
      modifies db`packages, db`marked, this`changed, this`grew
      ensures db.Consistent()
      ensures var p := old(db.packages)[k]; var r := SettledRecord(p, db.files);
        && db.packages == old(db.packages)[k := r]
        && changed == old(changed) + (if r.status != p.status then 1 else 0)
        && grew == old(grew) + (if r.status.Stored? && !p.status.Stored? then {k.id} else {})
    {
      hide CacheAgrees, IsInjective, Settled, Copies;
      var p := db.packages[k];
      assert p.key == k;
      if p.status == Deleted {
        assert db.packages == db.packages[k := p];
        return;
      }
      var r := Judge(p, Copies(db.files, k));
      SettledKeepsKey(p, Copies(db.files, k));
      if r.status == Stored && p.status != Stored {
        grew := grew + {p.key.id};
      }
      if r.status != p.status {
        changed := changed + 1;
      }
      if r.status != p.status || r.filename != p.filename {
        db.Put(r);
      } else {
        assert db.packages == db.packages[k := r];
      }
    }

    /** Removes leftovers of deleted packages from the directory, stopping at one that cannot be removed. */
    method EraseLeftovers(names: set<string>, stuck: set<string>) returns (ok: bool)
      requires db.Valid()
      modifies db`disk, db`trail
      ensures db.Valid() && old(db.trail) <= db.trail
      ensures ok <==> forall n | n in names :: !Sticks(n, old(db.disk), stuck)
      ensures ok ==> db.State() == old(db.State()).(disk := old(db.disk) - names)
      ensures Unlinked(old(db.State()), names, db.State())
      ensures AllUnlinked(old(db.State()), names, db.trail, |old(db.trail)|)
    {
      hide IsRun, Store.Consistent, Unlinked, AllUnlinked, OneStep, Sticks;
      ghost var d, from := db.State(), |db.trail|;
      NoneUnlinked(d, names, db.trail);
      var rest := names;
      while rest != {}
        invariant rest <= names && db.Valid() && old(db.trail) <= db.trail
        invariant db.State() == d.(disk := d.disk - (names - rest))
        invariant forall n | n in names && n !in rest :: !Sticks(n, d.disk, stuck)
        invariant AllUnlinked(d, names, db.trail, from)
      {
        var name :| name in rest;
        ghost var was := db.trail;
        StickingLater(name, d.disk, names - rest, stuck);
        SomeUnlinked(d, names, names - rest);
        var erased := EraseOne(db, name, stuck);
        if !erased {
          assert db.disk == d.disk - (names - rest);
          UnlinkedOneMore(d, names, was, db.trail, db.State(), from);
          StepExtends(was, db.trail, db.State());
          return false;
        }
        rest := rest - {name};
        assert db.disk == d.disk - (names - rest);
        SomeUnlinked(d, names, names - rest);
        UnlinkedOneMore(d, names, was, db.trail, db.State(), from);
        StepExtends(was, db.trail, db.State());
      }
      assert names - rest == names;
      SomeUnlinked(d, names, names);
      return true;
    }

    /** Settles some queued packages in one transaction; leftovers of deleted ones go first. */
    method SettleBatch(keys: set<Key>, stuck: set<string>) returns (ok: bool)
      requires db.Valid() && keys <= db.dirty
      modifies db, this`changed, this`grew
      ensures db.Valid() && old(db.trail) <= db.trail
      ensures var d, left := old(db.State()), Leftovers(old(db.State()), keys);
        && (ok <==> forall n | n in left :: !Sticks(n, d.disk, stuck))
        && (ok ==> db.State() == SettleTx(d.(disk := d.disk - left), keys))
        && (ok ==>
              && changed == old(changed) + |StatusChanges(d.packages, db.packages)|
              && grew == old(grew) + Grown(d.packages, db.packages))
        && (!ok ==> Unlinked(d, left, db.State()))
        && forall i | |old(db.trail)| <= i < |db.trail| ::
              Unlinked(d, left, db.trail[i].state) || (ok && db.trail[i].state == db.State())
    {
      hide IsRun, Store.Consistent, Unlinked, Sticks, SettleTx, Leftovers, StatusChanges, Grown, SettledPart;
      ghost var d := db.State();
      var left := Leftovers(db.State(), keys);
      ok := EraseLeftovers(left, stuck);
      if !ok {
        return;
      }
      LeftoversIgnoreDisk(d, db.disk, keys);
      SettleCommitted(keys, left);
    }

    method SettleCommitted(keys: set<Key>, left: set<string>)
      requires db.Valid() && keys <= db.dirty && left == Leftovers(db.State(), keys) && left !! db.disk.Keys
      modifies db, this`changed, this`grew
      ensures db.Valid() && db.trail == old(db.trail) + [Event(Action.Settle(keys), db.State())]
      ensures db.State() == SettleTx(old(db.State()), keys)
      ensures changed == old(changed) + |StatusChanges(old(db.packages), db.packages)|
      ensures grew == old(grew) + Grown(old(db.packages), db.packages)
    {
      hide IsRun, Store.Consistent, SettleTx, Leftovers, StatusChanges, Grown, SettledPart, Allowed, Apply;
      ghost var d := db.State();
      SettleFollows(d, keys);
      SettleRecords(keys);
      db.ForgetRows(left);
      db.dirty := db.dirty - keys;
      BatchIsSettled(d, keys, db.State());
      db.Commit(Action.Settle(keys));
    }

    /** The first queued packages in the order of their keys, a batch of them at most. */
    method NextBatch() returns (keys: set<Key>)
      requires db.dirty != {} && batchSize > 0
      ensures keys <= db.dirty && keys != {} && |keys| == (if |db.dirty| <= batchSize then |db.dirty| else batchSize)
      ensures forall k, j | k in keys && j in db.dirty - keys :: CompareText(KeyText(k), KeyText(j)) <= 0
      ensures forall k, j | k in keys && j in db.dirty - keys ::
                var a, b := k.id + "@" + k.version + "@" + k.platform, j.id + "@" + j.version + "@" + j.platform;
                a == b || TextBefore(a, b)
    {
      hide KeyText, CompareText;
      keys := {};
      var rest := db.dirty;
      while rest != {} && |keys| < batchSize
        invariant keys !! rest && keys + rest == db.dirty && |keys| <= batchSize && (keys == {} ==> rest != {})
        invariant |keys| + |rest| == |db.dirty|
        invariant forall k, j | k in keys && j in rest :: CompareText(KeyText(k), KeyText(j)) <= 0
      {
        var k := FirstKey(rest);
        keys := keys + {k};
        rest := rest - {k};
      }
      assert rest == db.dirty - keys;
      if rest == {} {
        assert keys == db.dirty;
      }
      KeyTextsMean(keys, rest);
    }

    /** One more batch of the queue; done is what x had queued and is settled by now. */
    method SettleNext(ghost x: Durable, ghost done: set<Key>, keys: set<Key>, stuck: set<string>, ghost from: nat)
      returns (ok: bool)
      requires db.Valid() && keys <= db.dirty && keys <= x.dirty && keys !! done
      requires SettledTo(x, done, stuck, db.State()) && KeysAgree(x.packages)
      requires from <= |db.trail| && AllSettling(x, db.trail, from)
      modifies db, this`changed, this`grew
      ensures db.Valid() && old(db.trail) <= db.trail
      ensures AllSettling(x, db.trail, from) && Settles(x, db.State())
      ensures !ok ==> exists n :: n in Leftovers(x, x.dirty) && Sticks(n, x.disk, stuck)
      ensures ok ==>
        && SettledTo(x, done + keys, stuck, db.State())
        && changed - old(changed) ==
          |StatusChanges(x.packages, db.packages)| - |StatusChanges(x.packages, old(db.packages))|
        && Grown(x.packages, db.packages) ==
          Grown(x.packages, old(db.packages)) + (Grown(old(db.packages), db.packages))
        && grew == old(grew) + Grown(old(db.packages), db.packages)
    {
      hide IsRun, Store.Consistent, Unlinked, Sticks, SettleTx, Leftovers, StatusChanges, Grown, SettledTo,
        AllSettling, Settles;
      ghost var s, was := db.State(), db.trail;
      SettleStep(x, done, keys, stuck, s);
      ok := SettleBatch(keys, stuck);
      ghost var left := Leftovers(s, keys);
      if ok {
        SettledToSettles(x, done + keys, stuck, db.State());
        StepChanges(x, done, keys, stuck, s, db.State());
      } else {
        UnlinkedSettles(x, done, keys, stuck, s, db.State());
      }
      forall i | |was| <= i < |db.trail| ensures Settles(x, db.trail[i].state) {
        if Unlinked(s, left, db.trail[i].state) {
          UnlinkedSettles(x, done, keys, stuck, s, db.trail[i].state);
        }
      }
      SettlingExtends(x, was, db.trail, from);
    }

    /** Settles every queued package. */
    method Settle(stuck: set<string>) returns (ok: bool)
      requires db.Valid() && batchSize > 0
      modifies db, this`changed, this`grew
      ensures db.Valid() && old(db.trail) <= db.trail
      ensures var x := old(db.State());
        && (ok <==> forall n | n in Leftovers(x, x.dirty) :: !Sticks(n, x.disk, stuck))
        && (ok ==> db.State() == SettleAll(x))
        && (ok ==>
              && changed == old(changed) + |StatusChanges(x.packages, db.packages)|
              && grew == old(grew) + Grown(x.packages, db.packages))
        && AllSettling(x, db.trail, |old(db.trail)|)
        && Settles(x, db.State())
    {
      hide IsRun, Store.Consistent, Unlinked, Sticks, SettleTx, SettleAll, Leftovers, StatusChanges, Grown,
        SettledTo, AllSettling, Settles;
      ghost var x, from, done := db.State(), |db.trail|, {};
      NothingSettled(x, stuck, db.trail);
      KeysAreKeys(db);
      NoChange(x.packages);
      while db.dirty != {}
        invariant db.Valid() && old(db.trail) <= db.trail
        invariant SettledTo(x, done, stuck, db.State())
        invariant changed == old(changed) + |StatusChanges(x.packages, db.packages)|
            && grew == old(grew) + Grown(x.packages, db.packages)
        invariant AllSettling(x, db.trail, from) && Settles(x, db.State())
        decreases x.dirty - done
      {
        var keys := NextBatch();
        DirtyAfter(x, done, stuck, db.State());
        assert x.dirty - (done + keys) < x.dirty - done;
        ok := SettleNext(x, done, keys, stuck, from);
        if !ok {
          return;
        }
        done := done + keys;
      }
      SettledAtLast(x, done, stuck, db.State());
      return true;
    }
  }

  lemma KeyTextsMean(some: set<Key>, others: set<Key>)
    requires forall k, j | k in some && j in others :: CompareText(KeyText(k), KeyText(j)) <= 0
    ensures forall k, j | k in some && j in others ::
              var a, b := k.id + "@" + k.version + "@" + k.platform, j.id + "@" + j.version + "@" + j.platform;
              a == b || TextBefore(a, b)
  {
    hide CompareText, TextBefore;
    forall k, j | k in some && j in others ensures KeyText(k) == KeyText(j) || TextBefore(KeyText(k), KeyText(j)) {
      TextMeans(KeyText(k), KeyText(j));
      TextOrder(KeyText(k), KeyText(j));
    }
  }

  method FirstKey(keys: set<Key>) returns (first: Key)
    requires keys != {}
    ensures first in keys && forall k | k in keys :: CompareText(KeyText(first), KeyText(k)) <= 0
  {
    hide KeyText, CompareText;
    first :| first in keys;
    TextOrder(KeyText(first), KeyText(first));
    var rest := keys - {first};
    while rest != {}
      invariant rest <= keys && first in keys && forall k | k in keys - rest ::
          CompareText(KeyText(first), KeyText(k)) <= 0
    {
      var k :| k in rest;
      TextOrder(KeyText(k), KeyText(k));
      rest := rest - {k};
      if CompareText(KeyText(k), KeyText(first)) < 0 {
        forall j | j in keys - rest ensures CompareText(KeyText(k), KeyText(j)) <= 0 {
          TextPrecedes(KeyText(k), KeyText(first), KeyText(j));
        }
        first := k;
      } else {
        TextOrder(KeyText(first), KeyText(k));
        TextOrder(KeyText(k), KeyText(first));
      }
    }
    assert keys - rest == keys;
  }

  // What settling leaves behind at each point

  ghost predicate KeysAgree(packages: Packages) {
    forall k | k in packages :: packages[k].key == k
  }

  lemma KeysAreKeys(db: Store)
    requires db.Consistent()
    ensures KeysAgree(db.packages)
  {
  }

  /** s is x with the queued packages of done settled. */
  ghost predicate SettledTo(x: Durable, done: set<Key>, stuck: set<string>, s: Durable) {
    && done <= x.dirty
    && s == PartlySettled(x, done, Leftovers(x, done))
    && forall n | n in Leftovers(x, done) :: !Sticks(n, x.disk, stuck)
  }

  ghost predicate AllSettling(x: Durable, t: seq<Event>, from: nat) {
    forall i | from <= i < |t| :: Settles(x, t[i].state)
  }

  lemma NothingSettled(x: Durable, stuck: set<string>, t: seq<Event>)
    ensures SettledTo(x, {}, stuck, x) && Settles(x, x) && AllSettling(x, t, |t|)
  {
    SettlingNone(x);
    assert Leftovers(x, {}) == {};
  }

  lemma SettlingExtends(x: Durable, u: seq<Event>, t: seq<Event>, from: nat)
    requires u <= t && AllSettling(x, u, from) && forall i | |u| <= i < |t| :: Settles(x, t[i].state)
    ensures AllSettling(x, t, from)
  {
    hide Settles;
    forall i | from <= i < |t| ensures Settles(x, t[i].state) {
      if i < |u| {
        assert t[i] == u[i];
      }
    }
  }

  lemma LeftoversGrow(x: Durable, a: set<Key>, b: set<Key>)
    requires a <= b
    ensures Leftovers(x, a) <= Leftovers(x, b)
  {
  }

  lemma LeftoversApart(x: Durable, a: set<Key>, b: set<Key>)
    requires a !! b
    ensures Leftovers(x, a) !! Leftovers(x, b)
  {
  }

  lemma DirtyAfter(x: Durable, done: set<Key>, stuck: set<string>, s: Durable)
    requires SettledTo(x, done, stuck, s)
    ensures s.dirty == x.dirty - done && s.packages.Keys == x.packages.Keys
    ensures forall k | k in x.packages && k !in done :: s.packages[k] == x.packages[k]
  {
  }

  lemma SettledToSettles(x: Durable, done: set<Key>, stuck: set<string>, s: Durable)
    requires SettledTo(x, done, stuck, s)
    ensures Settles(x, s)
  {
    LeftoversGrow(x, done, x.dirty);
  }

  lemma SettledAtLast(x: Durable, done: set<Key>, stuck: set<string>, s: Durable)
    requires SettledTo(x, done, stuck, s) && s.dirty == {}
    ensures s == SettleAll(x) && forall n | n in Leftovers(x, x.dirty) :: !Sticks(n, x.disk, stuck)
  {
    DirtyAfter(x, done, stuck, s);
    forall k | k in x.dirty ensures k in done {
      assert k !in x.dirty - done;
    }
    assert done == x.dirty;
    AllSettled(x);
  }

  /** One more batch settled. */
  lemma SettleStep(x: Durable, done: set<Key>, keys: set<Key>, stuck: set<string>, s: Durable)
    requires SettledTo(x, done, stuck, s) && keys <= x.dirty && keys !! done && KeysAgree(x.packages)
    ensures var left := Leftovers(s, keys);
      && left <= Leftovers(x, x.dirty)
      && (forall n | n in left :: Sticks(n, s.disk, stuck) == Sticks(n, x.disk, stuck))
      && ((forall n | n in left :: !Sticks(n, s.disk, stuck)) ==>
            SettledTo(x, done + keys, stuck, SettleTx(s.(disk := s.disk - left), keys)))
  {
    hide SettleTx, Leftovers;
    var gone := Leftovers(x, done);
    LeftoversLater(x, done, gone, keys);
    LeftoversGrow(x, keys, x.dirty);
    LeftoversApart(x, done, keys);
    LeftoversJoin(x, done, keys);
    SettlingAddsUp(x, done, gone, keys);
    PartlySettledDisk(x, done, gone);
  }

  lemma PartlySettledDisk(x: Durable, keys: set<Key>, gone: set<string>)
    ensures PartlySettled(x, keys, gone).disk == x.disk - gone
  {
  }

  /** States in the middle of a batch. */
  lemma UnlinkedSettles(x: Durable, done: set<Key>, keys: set<Key>, stuck: set<string>, s: Durable, t: Durable)
    requires SettledTo(x, done, stuck, s) && keys <= x.dirty && keys !! done && Unlinked(s, Leftovers(s, keys), t)
    ensures Settles(x, t)
  {
    hide SettleTx, Leftovers;
    var gone := Leftovers(x, done);
    LeftoversLater(x, done, gone, keys);
    LeftoversGrow(x, keys, x.dirty);
    LeftoversGrow(x, done, x.dirty);
    var more :| more <= Leftovers(s, keys) && t == s.(disk := s.disk - more);
    UnlinkingWhileSettling(x, done, gone, more);
    assert t == PartlySettled(x, done, gone + more);
  }

  lemma StepChanges(x: Durable, done: set<Key>, keys: set<Key>, stuck: set<string>, s: Durable, t: Durable)
    requires SettledTo(x, done, stuck, s) && SettledTo(x, done + keys, stuck, t) && keys !! done
    requires t == SettleTx(s.(disk := s.disk - Leftovers(s, keys)), keys)
    ensures |StatusChanges(x.packages, t.packages)| ==
        |StatusChanges(x.packages, s.packages)| + |StatusChanges(s.packages, t.packages)|
    ensures Grown(x.packages, t.packages) == Grown(x.packages, s.packages) + Grown(s.packages, t.packages)
  {
    ChangesAddUp(x.packages, s.packages, t.packages, done, keys);
  }

  lemma NoneUnlinked(d: Durable, names: set<string>, t: seq<Event>)
    ensures AllUnlinked(d, names, t, |t|) && Unlinked(d, names, d) && d.disk - {} == d.disk && names - names == {}
  {
    assert d == d.(disk := d.disk - {});
  }

  lemma SomeUnlinked(d: Durable, names: set<string>, gone: set<string>)
    requires gone <= names
    ensures Unlinked(d, names, d.(disk := d.disk - gone))
  {
  }

  lemma StickingLater(name: string, disk: Directory, gone: set<string>, stuck: set<string>)
    requires name !in gone
    ensures Sticks(name, disk - gone, stuck) == Sticks(name, disk, stuck)
  {
  }

  lemma SettledKeepsKey(p: Record, copies: map<string, Digest>)
    ensures Settled(p, copies).key == p.key && Settled(p, copies).digest == p.digest
    ensures Settled(p, copies).status == p.status && Settled(p, copies).filename == p.filename ==>
        Settled(p, copies) == p
  {
  }

  lemma SettleFollows(d: Durable, keys: set<Key>)
    requires keys <= d.dirty && Leftovers(d, keys) !! d.disk.Keys
    ensures Allowed(d, Action.Settle(keys)) && Apply(d, Action.Settle(keys)) == SettleTx(d, keys)
  {
  }

  /** s is w without the vanished files whose row ids are below low; left are the ids still in the table. */
  ghost predicate DroppedBelow(w: Durable, ids: map<string, nat>, low: nat, s: Durable, left: map<string, nat>) {
    var gone := GoneBelow(ids, w.disk.Keys, low);
    s == DropTx(w, gone) && left.Keys == ids.Keys - gone && forall n | n in left :: left[n] == ids[n]
  }

  lemma FirstRange(w: Durable, ids: map<string, nat>)
    ensures DroppedBelow(w, ids, 0, w, ids)
  {
    assert GoneBelow(ids, w.disk.Keys, 0) == {};
    DroppingNone(w);
  }

  lemma AllRanges(w: Durable, ids: map<string, nat>, high: nat, s: Durable, left: map<string, nat>)
    requires DroppedBelow(w, ids, high, s, left) && ids.Keys == w.files.Keys && forall n | n in ids :: ids[n] < high
    ensures s == DropVanished(w)
  {
    assert GoneBelow(ids, w.disk.Keys, high) == w.files.Keys - w.disk.Keys;
  }

  lemma NamesBelow(ids: map<string, nat>, present: set<string>, high: nat)
    ensures GoneBelow(ids, present, high) <= ids.Keys && GoneBelow(ids, present, high) !! present
  {
  }

  lemma DropTxHas(d: Durable, gone: set<string>)
    ensures DropTx(d, gone) == d.(files := d.files - gone, dirty := d.dirty + KeysHeld(d.files, gone))
  {
  }

  lemma MarksHold(sc: Scanner)
    requires sc.Marked()
    ensures sc.visited <= sc.db.files.Keys && sc.visited <= sc.db.ids.Keys
    ensures sc.found.Members() == RowsOf(sc.db.ids, sc.visited) && sc.seen == |sc.visited|
  {
  }

  /** The marks stay right when rows of other files go. */
  lemma MarksStay(sc: Scanner, before: map<string, nat>)
    requires sc.visited <= sc.db.files.Keys && sc.visited <= sc.db.ids.Keys
    requires sc.found.Members() == RowsOf(before, sc.visited) && sc.seen == |sc.visited|
    requires forall n | n in sc.db.ids :: n in before && sc.db.ids[n] == before[n]
    ensures sc.Marked()
  {
    RowsOfStay(sc.db.ids, before, sc.visited);
  }

  /** s is w with some vanished files forgotten. */
  ghost predicate Dropped(w: Durable, s: Durable) {
    exists names | names <= w.files.Keys && names !! w.disk.Keys :: s == DropTx(w, names)
  }

  ghost predicate AllDropped(w: Durable, t: seq<Event>, from: nat) {
    forall i | from <= i < |t| :: Dropped(w, t[i].state)
  }

  lemma NothingDropped(w: Durable, t: seq<Event>)
    ensures AllDropped(w, t, |t|)
  {
  }

  lemma DroppedOneMore(w: Durable, names: set<string>, u: seq<Event>, t: seq<Event>, a: Action, from: nat)
    requires AllDropped(w, u, from) && names <= w.files.Keys && names !! w.disk.Keys
        && t == u + [Event(a, DropTx(w, names))]
    ensures AllDropped(w, t, from)
  {
    hide DropTx;
  }

  lemma DropFollows(d: Durable, gone: set<string>)
    requires gone !! d.disk.Keys
    ensures Allowed(d, Drop(gone)) && Apply(d, Drop(gone)) == DropTx(d, gone)
  {
  }

  lemma StartWalk(p: Durable, batches: seq<set<string>>, t: seq<Event>)
    ensures Walk(p, batches[..0]) == p && ListedNames(batches[..0]) == {}
    ensures AllPassing(p, batches, t, |t|)
  {
  }

  lemma WalkPasses(p: Durable, batches: seq<set<string>>, j: nat)
    requires j <= |batches|
    ensures Passing(p, batches, Walk(p, batches[..j]))
  {
    hide Walk;
  }

  lemma StepExtends(u: seq<Event>, t: seq<Event>, s: Durable)
    requires OneStep(u, t, s)
    ensures u <= t
  {
  }

  lemma RowsAreFiles(db: Store)
    requires db.Consistent()
    ensures db.IdsValid() && db.ids.Keys == db.files.Keys && forall n | n in db.ids :: db.ids[n] <= db.lastId
  {
  }

  /** As many rows as found files means that nothing has to be forgotten. */
  lemma NoneVanished(sc: Scanner)
    requires sc.Marked() && sc.visited == sc.db.disk.Keys && |sc.db.files| == sc.seen
    ensures DropVanished(sc.db.State()) == sc.db.State()
  {
    var w := sc.db.State();
    SameCountMeansNoneVanished(sc.db.files, sc.visited);
    DroppingNone(w);
    assert w.files.Keys - w.disk.Keys == {};
  }

  ghost predicate AllAdopting(d: Durable, order: seq<Key>, t: seq<Event>, from: nat)
    requires forall k | k in order :: k in d.packages
  {
    forall i | from <= i < |t| :: Adopting(d, t[i].state, order)
  }

  lemma AdoptNone(d: Durable, rows: seq<Option<Key>>, t: seq<Event>)
    requires forall k | k in KeysIn(rows) :: k in d.packages
    ensures KeysIn(rows[..0]) == [] && AdoptTx(d, []) == d && AllAdopting(d, KeysIn(rows), t, |t|)
  {
  }

  lemma AdoptingOneMore(d: Durable, order: seq<Key>, part: seq<Key>, u: seq<Event>, t: seq<Event>, from: nat)
    requires (forall k | k in order :: k in d.packages) && part <= order && !d.trusted
    requires AllAdopting(d, order, u, from) && |t| == |u| + 1 && u <= t
    requires (forall k | k in part :: k in d.packages) && t[|u|].state == AdoptTx(d, part)
    ensures AllAdopting(d, order, t, from)
  {
    hide AdoptTx;
    assert part == order[..|part|];
    assert Adopting(d, t[|u|].state, order);
    forall i | from <= i < |t| ensures Adopting(d, t[i].state, order) {
      if i < |u| {
        assert t[i] == u[i];
      }
    }
  }

  lemma NoStep(t: seq<Event>, s: Durable)
    ensures OneStep(t, t, s)
  {
  }

  lemma OneMoreStep(t: seq<Event>, e: Event)
    ensures OneStep(t, t + [e], e.state)
  {
  }

  lemma VerifyFollows(d: Durable, batch: set<string>)
    requires batch <= d.disk.Keys
    ensures Allowed(d, Action.Verify(batch)) && Apply(d, Action.Verify(batch)) == VerifyTx(d, batch)
  {
  }

  lemma NothingClassified(d: Durable)
    ensures ChangedIn(d, {}) == {} && AdoptedIn(d, {}) == {} && UnchangedIn(d, {}) == {}
  {
  }

  lemma ClassesCover(d: Durable, batch: set<string>)
    requires batch <= d.disk.Keys
    ensures AdoptedIn(d, batch) <= d.files.Keys && AdoptedIn(d, batch) <= batch && ChangedIn(d, batch) <= batch
    ensures UnchangedIn(d, batch) + AdoptedIn(d, batch) + ChangedIn(d, batch) == batch
    ensures ChangedIn(d, batch) == AdoptedIn(d, batch) == {} ==> UnchangedIn(d, batch) == batch
  {
  }

  lemma OrderIsDistinct(names: set<string>)
    ensures Distinct(InOrder(names))
  {
    var order := InOrder(names);
    forall i, j | 0 <= i < j < |order| ensures order[i] != order[j] {
      TextOrder(order[i], order[j]);
    }
  }

  lemma TouchingKeeps(files: Directory, disk: Directory, names: set<string>)
    ensures Touched(files, disk, names).Keys == files.Keys
  {
  }

  lemma NoKeysHeld(dir: Directory)
    ensures KeysHeld(dir, {}) == {}
  {
  }

  lemma HeldByOne(dir: Directory, name: string)
    ensures KeysHeld(dir, {name}) == if name in dir && dir[name].contents.Valid? then {dir[name].contents.key} else {}
  {
  }

  lemma OpenedOneMore(files: Directory, disk: Directory, names: seq<string>, i: nat)
    requires i < |names| && Distinct(names) && names[i] in disk
    ensures var done, next := Elements(names[..i]), Elements(names[..i + 1]);
      && next == done + {names[i]}
      && Remembered(files, disk, next) == Remembered(files, disk, done)[names[i] := disk[names[i]]]
      && KeysHeld(disk, next) == KeysHeld(disk, done) + KeysHeld(disk, {names[i]})
      && KeysHeld(files, next) == KeysHeld(files, done) + KeysHeld(Remembered(files, disk, done), {names[i]})
  {
    var done := Elements(names[..i]);
    assert names[..i + 1] == names[..i] + [names[i]];
    assert Elements(names[..i + 1]) == done + {names[i]};
    assert names[i] !in done;
    RememberedOneMore(files, disk, done, names[i]);
    KeysHeldOneMore(disk, done, names[i]);
    KeysHeldOneMore(files, done, names[i]);
  }
}
