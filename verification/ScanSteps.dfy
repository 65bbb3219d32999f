/** What single steps of a scan add up to: the bridge between the loops of the scanner and the phases of a scan. */
module ScanSteps {
  import opened Wrappers
  import opened Text
  import opened Inventory
  import opened Protocol
  import opened Recovery
  import opened Guarantees
  import opened Interruption

  // Verifying a batch

  /** The files of a batch accepted by size alone. */
  function AdoptedIn(d: Durable, batch: set<string>): set<string> {
    set n | n in batch && n in d.disk && n in d.files && d.files[n].size == d.disk[n].size
            && d.files[n].mtime != d.disk[n].mtime && d.files[n].mtime == UNKNOWN_TIME
  }

  function UnchangedIn(d: Durable, batch: set<string>): set<string> {
    batch - ChangedIn(d, batch) - AdoptedIn(d, batch)
  }

  /** Adopted files get the modification time they have. */
  function Touched(files: Directory, disk: Directory, names: set<string>): Directory {
    map n | n in files :: if n in names && n in disk then files[n].(mtime := disk[n].mtime) else files[n]
  }

  /** Opened files are remembered as they are. */
  function Remembered(files: Directory, disk: Directory, names: set<string>): Directory {
    map n | n in files.Keys + names * disk.Keys :: if n in names && n in disk then disk[n] else files[n]
  }

  lemma TouchedOneMore(files: Directory, disk: Directory, names: set<string>, n: string)
    requires n in files && n in disk && n !in names
    ensures Touched(files, disk, names + {n}) ==
        Touched(files, disk, names)[n := Touched(files, disk, names)[n].(mtime := disk[n].mtime)]
  {
  }

  lemma RememberedOneMore(files: Directory, disk: Directory, names: set<string>, n: string)
    requires n in disk
    ensures Remembered(files, disk, names + {n}) == Remembered(files, disk, names)[n := disk[n]]
  {
  }

  lemma NothingRemembered(files: Directory, disk: Directory)
    ensures Remembered(files, disk, {}) == files && Touched(files, disk, {}) == files
  {
  }

  lemma KeysHeldOneMore(dir: Directory, names: set<string>, n: string)
    ensures KeysHeld(dir, names + {n}) ==
            KeysHeld(dir, names) + (if n in dir && dir[n].contents.Valid? then {dir[n].contents.key} else {})
  {
  }

  lemma TouchingHoldsKeys(d: Durable, batch: set<string>, changed: set<string>, adopted: set<string>)
    ensures KeysHeld(Touched(d.files, d.disk, adopted), changed) == KeysHeld(d.files, changed)
  {
    var touched := Touched(d.files, d.disk, adopted);
    assert forall n | n in d.files :: touched[n].contents == d.files[n].contents;
  }

  lemma BatchFiles(d: Durable, batch: set<string>)
    requires batch <= d.disk.Keys
    ensures Remembered(Touched(d.files, d.disk, AdoptedIn(d, batch)), d.disk, ChangedIn(d, batch)) ==
        VerifiedFiles(d, batch)
  {
    var files := Remembered(Touched(d.files, d.disk, AdoptedIn(d, batch)), d.disk, ChangedIn(d, batch));
    forall n | n in files ensures files[n] == VerifiedFiles(d, batch)[n] {
      if n in batch && n !in ChangedIn(d, batch) {
        assert n in d.files && Accepts(d.files[n], d.disk[n]);
      }
    }
  }

  /** The transaction of a batch does what VerifyTx says. */
  lemma BatchIsVerified(d: Durable, batch: set<string>, e: Durable)
    requires batch <= d.disk.Keys
    requires var changed, adopted := ChangedIn(d, batch), AdoptedIn(d, batch);
      e == d.(packages := EnterAll(d.packages, d.disk, InOrder(changed)),
              files := Remembered(Touched(d.files, d.disk, adopted), d.disk, changed),
              dirty := d.dirty + KeysHeld(d.disk, changed) + KeysHeld(Touched(d.files, d.disk, adopted), changed))
    ensures e == VerifyTx(d, batch)
  {
    BatchFiles(d, batch);
    TouchingHoldsKeys(d, batch, ChangedIn(d, batch), AdoptedIn(d, batch));
  }

  lemma NothingToVerify(d: Durable, batch: set<string>)
    requires batch <= d.disk.Keys && ChangedIn(d, batch) == {} && AdoptedIn(d, batch) == {}
    ensures VerifyTx(d, batch) == d
  {
    BatchFiles(d, batch);
    NothingRemembered(d.files, d.disk);
    assert KeysHeld(d.disk, {}) == {} && KeysHeld(d.files, {}) == {};
    assert InOrder({}) == [];
  }

  /** Size and modification time are those remembered. */
  predicate SameFile(d: Durable, n: string) {
    n in d.files && n in d.disk && d.files[n].size == d.disk[n].size && d.files[n].mtime == d.disk[n].mtime
  }

  /** The file was adopted from a record, and its size is the recorded one. */
  predicate SameSize(d: Durable, n: string) {
    n in d.files && n in d.disk && d.files[n].size == d.disk[n].size && d.files[n].mtime == UNKNOWN_TIME
  }

  lemma ClassifiedOneMore(d: Durable, names: set<string>, n: string)
    requires n in d.disk && n !in names
    ensures SameFile(d, n) ==>
              && UnchangedIn(d, names + {n}) == UnchangedIn(d, names) + {n}
              && AdoptedIn(d, names + {n}) == AdoptedIn(d, names) && ChangedIn(d, names + {n}) == ChangedIn(d, names)
    ensures !SameFile(d, n) && SameSize(d, n) ==>
              && UnchangedIn(d, names + {n}) == UnchangedIn(d, names)
              && AdoptedIn(d, names + {n}) == AdoptedIn(d, names) + {n}
                && ChangedIn(d, names + {n}) == ChangedIn(d, names)
    ensures !SameFile(d, n) && !SameSize(d, n) ==>
              && UnchangedIn(d, names + {n}) == UnchangedIn(d, names)
              && AdoptedIn(d, names + {n}) == AdoptedIn(d, names)
                && ChangedIn(d, names + {n}) == ChangedIn(d, names) + {n}
  {
  }

  // Dropping vanished files

  lemma DroppingNone(d: Durable)
    ensures DropTx(d, {}) == d
  {
    assert d.files - {} == d.files && KeysHeld(d.files, {}) == {};
  }

  lemma DropsAddUp(d: Durable, a: set<string>, b: set<string>)
    ensures DropTx(DropTx(d, a), b) == DropTx(d, a + b)
  {
    assert d.files - a - b == d.files - (a + b);
    assert KeysHeld(d.files, a) + KeysHeld(d.files - a, b) == KeysHeld(d.files, a + b);
  }

  /** As many files remembered as found means that none has vanished. */
  lemma SameCountMeansNoneVanished(files: Directory, visited: set<string>)
    requires visited <= files.Keys && |files| == |visited|
    ensures files.Keys == visited
  {
    assert |files.Keys| == |files|;
    var rest := files.Keys - visited;
    assert files.Keys == visited + rest;
    assert |rest| == 0;
  }

  /** Vanished files with row ids below low. */
  function GoneBelow(ids: map<string, nat>, present: set<string>, low: nat): set<string> {
    set n | n in ids && n !in present && ids[n] < low
  }

  function GoneBetween(ids: map<string, nat>, present: set<string>, low: nat, high: nat): set<string> {
    set n | n in ids && n !in present && low <= ids[n] < high
  }

  lemma NextRange(ids: map<string, nat>, left: map<string, nat>, present: set<string>, low: nat, high: nat)
    requires low <= high && left.Keys == ids.Keys - GoneBelow(ids, present, low) && forall n | n in left ::
        left[n] == ids[n]
    ensures GoneBelow(ids, present, high) == GoneBelow(ids, present, low) + GoneBetween(left, present, low, high)
    ensures GoneBetween(left, present, low, high) <= left.Keys && GoneBetween(left, present, low, high) !! present
  {
  }

  // Walking

  lemma WalkOneMore(p: Durable, batches: seq<set<string>>, i: nat)
    requires i < |batches| && ListedNames(batches) <= p.disk.Keys
    ensures Walk(p, batches[..i + 1]) == VerifyTx(Walk(p, batches[..i]), batches[i])
    ensures ListedNames(batches[..i + 1]) == ListedNames(batches[..i]) + batches[i]
    ensures Walk(p, batches[..i]).disk == p.disk && batches[i] <= p.disk.Keys
  {
    assert batches[..i + 1][..i] == batches[..i];
    WalkKeepsDisk(p, batches[..i]);
    ListedNamesGrow(batches, i + 1);
  }

  // Settling

  lemma SettlingNone(x: Durable)
    ensures PartlySettled(x, {}, {}) == x
  {
    assert Leftovers(x, {}) == {};
    assert x.disk - {} == x.disk && x.files - {} == x.files && x.dirty - {} == x.dirty;
    assert forall k | k in x.packages :: PartlySettled(x, {}, {}).packages[k] == x.packages[k];
  }

  lemma UnlinkingWhileSettling(x: Durable, keys: set<Key>, gone: set<string>, more: set<string>)
    ensures PartlySettled(x, keys, gone).(disk := PartlySettled(x, keys, gone).disk - more) ==
        PartlySettled(x, keys, gone + more)
  {
    assert x.disk - gone - more == x.disk - (gone + more);
  }

  lemma LeftoversLater(x: Durable, keys: set<Key>, gone: set<string>, next: set<Key>)
    requires keys !! next
    ensures Leftovers(PartlySettled(x, keys, gone), next) == Leftovers(x, next)
  {
    var s := PartlySettled(x, keys, gone);
    forall n ensures n in Leftovers(s, next) <==> n in Leftovers(x, next) {
      if n in x.files && x.files[n].contents.Valid? && x.files[n].contents.key in next {
        assert n !in Leftovers(x, keys);
      }
    }
  }

  lemma LeftoversJoin(x: Durable, a: set<Key>, b: set<Key>)
    ensures Leftovers(x, a + b) == Leftovers(x, a) + Leftovers(x, b)
  {
  }

  lemma SettledLater(x: Durable, keys: set<Key>, gone: set<string>, next: set<Key>, k: Key)
    requires keys !! next && k in next && k in x.packages && x.packages[k].key == k
    ensures PartlySettled(x, keys, gone).packages[k] == x.packages[k]
    ensures SettledRecord(x.packages[k], PartlySettled(x, keys, gone).files) == SettledRecord(x.packages[k], x.files)
  {
    SettleKeepsCopies(x, keys, k);
  }

  /** Settling batch after batch settles their union. */
  lemma SettlingAddsUp(x: Durable, keys: set<Key>, gone: set<string>, next: set<Key>)
    requires keys !! next && forall k | k in x.packages :: x.packages[k].key == k
    ensures var s := PartlySettled(x, keys, gone);
      PartlySettled(s, next, Leftovers(s, next)) == PartlySettled(x, keys + next, gone + Leftovers(x, next))
  {
    hide Settled, Leftovers;
    var s := PartlySettled(x, keys, gone);
    var t, u := PartlySettled(s, next, Leftovers(s, next)), PartlySettled(x, keys + next, gone + Leftovers(x, next));
    LeftoversLater(x, keys, gone, next);
    LeftoversJoin(x, keys, next);
    assert t.disk == u.disk;
    assert t.dirty == u.dirty;
    PartsSettleTheSame(x, keys, gone, next);
    assert t.packages == u.packages;
    var a, b := Leftovers(x, keys), Leftovers(x, next);
    assert t.files == u.files by {
      assert (x.files - a) - b == x.files - (a + b);
      SettleForgets(s.(disk := s.disk - Leftovers(s, next)), next);
      SettleForgets(x.(disk := x.disk - gone), keys);
      SettleForgets(x.(disk := x.disk - (gone + b)), keys + next);
      LeftoversIgnoreDisk(s, s.disk - Leftovers(s, next), next);
      LeftoversIgnoreDisk(x, x.disk - gone, keys);
      LeftoversIgnoreDisk(x, x.disk - (gone + b), keys + next);
    }
  }

  lemma SettleForgets(d: Durable, keys: set<Key>)
    ensures SettleTx(d, keys).files == d.files - Leftovers(d, keys)
  {
  }

  lemma LeftoversIgnoreDisk(d: Durable, disk: Directory, keys: set<Key>)
    ensures Leftovers(d.(disk := disk), keys) == Leftovers(d, keys)
  {
  }

  lemma PartsSettleTheSame(x: Durable, keys: set<Key>, gone: set<string>, next: set<Key>)
    requires keys !! next && forall k | k in x.packages :: x.packages[k].key == k
    ensures var s := PartlySettled(x, keys, gone);
      PartlySettled(s, next, Leftovers(s, next)).packages ==
          PartlySettled(x, keys + next, gone + Leftovers(x, next)).packages
  {
    hide Settled, Leftovers, SettledRecord;
    var s := PartlySettled(x, keys, gone);
    var t, u := PartlySettled(s, next, Leftovers(s, next)), PartlySettled(x, keys + next, gone + Leftovers(x, next));
    forall k | k in x.packages ensures t.packages[k] == u.packages[k] {
      if k in next {
        SettledLater(x, keys, gone, next, k);
      }
    }
  }

  /** The queue settled to the end is what SettleAll says. */
  lemma AllSettled(x: Durable)
    ensures PartlySettled(x, x.dirty, Leftovers(x, x.dirty)) == SettleAll(x)
  {
  }

  /** The records of done settled, the others as they were. */
  function SettledPart(packages: Packages, files: Directory, done: set<Key>): Packages {
    map k | k in packages :: if k in done then SettledRecord(packages[k], files) else packages[k]
  }

  lemma SettledOneMore(packages: Packages, files: Directory, done: set<Key>, k: Key)
    requires k in packages && k !in done
    ensures SettledPart(packages, files, done).Keys == packages.Keys
    ensures SettledPart(packages, files, done)[k] == packages[k]
    ensures SettledPart(packages, files, done + {k}) ==
        SettledPart(packages, files, done)[k := SettledRecord(packages[k], files)]
  {
  }

  /** The records of done are settled and their changes counted, starting from these counts. */
  ghost predicate Counted(packages: Packages, files: Directory, done: set<Key>, now: Packages,
                          changed0: nat, grew0: set<string>, changed: nat, grew: set<string>) {
    && now == SettledPart(packages, files, done)
    && changed == changed0 + |StatusChanges(packages, now)|
    && grew == grew0 + Grown(packages, now)
  }

  lemma CountedNone(packages: Packages, files: Directory, changed: nat, grew: set<string>)
    ensures Counted(packages, files, {}, packages, changed, grew, changed, grew)
  {
    SettledNone(packages, files);
    NoChange(packages);
  }

  lemma CountedOneMore(packages: Packages, files: Directory, done: set<Key>, now: Packages,
                       changed0: nat, grew0: set<string>, changed: nat, grew: set<string>, k: Key)
    requires Counted(packages, files, done, now, changed0, grew0, changed, grew) && k in packages && k !in done
    ensures k in now && now[k] == packages[k]
    ensures var r := SettledRecord(packages[k], files);
      Counted(packages, files, done + {k}, now[k := r], changed0, grew0,
              changed + (if r.status != packages[k].status then 1 else 0),
              grew + (if r.status.Stored? && !packages[k].status.Stored? then {k.id} else {}))
  {
    hide SettledPart, SettledRecord, StatusChanges, Grown;
    SettledOneMore(packages, files, done, k);
    OneChange(packages, now, SettledRecord(packages[k], files), k);
  }

  lemma CountedAll(packages: Packages, files: Directory, done: set<Key>, now: Packages,
                   changed0: nat, grew0: set<string>, changed: nat, grew: set<string>)
    requires Counted(packages, files, done, now, changed0, grew0, changed, grew)
    ensures now == SettledPart(packages, files, done)
    ensures changed == changed0 + |StatusChanges(packages, now)| && grew == grew0 + Grown(packages, now)
  {
  }

  lemma SettledNone(packages: Packages, files: Directory)
    ensures SettledPart(packages, files, {}) == packages
  {
  }

  lemma BatchIsSettled(d: Durable, keys: set<Key>, e: Durable)
    requires e == d.(packages := SettledPart(d.packages, d.files, keys * d.packages.Keys),
                     files := d.files - Leftovers(d, keys), dirty := d.dirty - keys)
    ensures e == SettleTx(d, keys)
  {
    hide SettledRecord;
  }

  // Counting changes

  /** Records change batch by batch, each at most once. */
  lemma ChangesAddUp(a: Packages, b: Packages, c: Packages, first: set<Key>, second: set<Key>)
    requires first !! second && a.Keys == b.Keys == c.Keys
    requires forall k | k in a && k !in first :: b[k] == a[k]
    requires forall k | k in a && k !in second :: c[k] == b[k]
    ensures |StatusChanges(a, c)| == |StatusChanges(a, b)| + |StatusChanges(b, c)|
    ensures Grown(a, c) == Grown(a, b) + Grown(b, c)
  {
    StatusesAddUp(a, b, c, first, second);
    assert StatusChanges(a, b) !! StatusChanges(b, c) by {
      assert StatusChanges(a, b) <= first && StatusChanges(b, c) <= second;
    }
    forall id | id in Grown(a, c) ensures id in Grown(a, b) + Grown(b, c) {
      var k :| k in a && k in c && !a[k].status.Stored? && c[k].status.Stored? && k.id == id;
      assert k in b;
    }
    forall id | id in Grown(a, b) ensures id in Grown(a, c) {
      var k :| k in a && k in b && !a[k].status.Stored? && b[k].status.Stored? && k.id == id;
      assert k in first && c[k] == b[k];
    }
    forall id | id in Grown(b, c) ensures id in Grown(a, c) {
      var k :| k in b && k in c && !b[k].status.Stored? && c[k].status.Stored? && k.id == id;
      assert k in second && b[k] == a[k];
    }
  }

  lemma StatusesAddUp(a: Packages, b: Packages, c: Packages, first: set<Key>, second: set<Key>)
    requires first !! second && a.Keys == b.Keys == c.Keys
    requires forall k | k in a && k !in first :: b[k] == a[k]
    requires forall k | k in a && k !in second :: c[k] == b[k]
    ensures StatusChanges(a, c) == StatusChanges(a, b) + StatusChanges(b, c)
  {
  }

  lemma OneChange(a: Packages, b: Packages, q: Record, k: Key)
    requires a.Keys == b.Keys && k in a && b[k] == a[k]
    ensures |StatusChanges(a, b[k := q])| == |StatusChanges(a, b)| + (if q.status != a[k].status then 1 else 0)
    ensures Grown(a, b[k := q]) == Grown(a, b) + (if q.status.Stored? && !a[k].status.Stored? then {k.id} else {})
  {
    hide StatusChanges, Grown;
    ChangeOneMore(a, b, q, k);
    GrowthOneMore(a, b, q, k);
    if q.status == a[k].status {
      assert StatusChanges(a, b) + {} == StatusChanges(a, b);
    }
  }

  lemma ChangeOneMore(a: Packages, b: Packages, q: Record, k: Key)
    requires a.Keys == b.Keys && k in a && b[k] == a[k]
    ensures k !in StatusChanges(a, b)
    ensures StatusChanges(a, b[k := q]) == StatusChanges(a, b) + (if q.status != a[k].status then {k} else {})
  {
  }

  lemma GrowthOneMore(a: Packages, b: Packages, q: Record, k: Key)
    requires a.Keys == b.Keys && k in a && b[k] == a[k]
    ensures Grown(a, b[k := q]) == Grown(a, b) + (if q.status.Stored? && !a[k].status.Stored? then {k.id} else {})
  {
    var c := b[k := q];
    forall id | id in Grown(a, b) ensures id in Grown(a, c) {
      var j :| j in a && j in b && !a[j].status.Stored? && b[j].status.Stored? && j.id == id;
      assert c[j] == b[j];
    }
    assert k in c && c[k] == q;
  }

  lemma NoChange(a: Packages)
    ensures StatusChanges(a, a) == {} && Grown(a, a) == {}
  {
  }

  // Adoption in batches

  lemma {:induction false} AdoptsAddUp(d: Durable, a: seq<Key>, b: seq<Key>)
    requires forall k | k in a + b :: k in d.packages
    ensures forall k | k in a :: k in d.packages
    ensures forall k | k in b :: k in AdoptTx(d, a).packages
    ensures AdoptTx(AdoptTx(d, a), b) == AdoptTx(d, a + b)
  {
    hide AdoptOne;
    assert forall k | k in a :: k in a + b;
    assert forall k | k in b :: k in a + b;
    if |b| == 0 {
      assert a + b == a;
    } else {
      var c := a + b;
      assert c[..|c| - 1] == a + b[..|b| - 1] && c[|c| - 1] == b[|b| - 1];
      AdoptsAddUp(d, a, b[..|b| - 1]);
    }
  }

  /** The keys in a range of rows; None where a row is gone. */
  function KeysIn(rows: seq<Option<Key>>): (keys: seq<Key>)
    ensures forall k :: k in keys <==> Some(k) in rows
  {
    if |rows| == 0 then []
    else
      var front, last := KeysIn(rows[..|rows| - 1]), rows[|rows| - 1];
      assert rows == rows[..|rows| - 1] + [last];
      if last.Some? then front + [last.value] else front
  }

  lemma {:induction false} KeysInJoins(a: seq<Option<Key>>, b: seq<Option<Key>>)
    ensures KeysIn(a + b) == KeysIn(a) + KeysIn(b)
  {
    if |b| == 0 {
      assert a + b == a;
    } else {
      var c := a + b;
      assert c[..|c| - 1] == a + b[..|b| - 1] && c[|c| - 1] == b[|b| - 1];
      KeysInJoins(a, b[..|b| - 1]);
    }
  }

  /** Adopting one more range of rows. */
  lemma AdoptRange(d: Durable, rows: seq<Option<Key>>, low: nat, high: nat)
    requires low <= high <= |rows| && forall k | k in KeysIn(rows) :: k in d.packages
    ensures KeysIn(rows[..high]) == KeysIn(rows[..low]) + KeysIn(rows[low..high])
    ensures KeysIn(rows[..high]) <= KeysIn(rows)
    ensures forall k | k in KeysIn(rows[..low]) || k in KeysIn(rows[low..high]) || k in KeysIn(rows[..high]) ::
        k in d.packages
    ensures AdoptTx(AdoptTx(d, KeysIn(rows[..low])), KeysIn(rows[low..high])) == AdoptTx(d, KeysIn(rows[..high]))
  {
    assert rows[..high] == rows[..low] + rows[low..high];
    KeysInJoins(rows[..low], rows[low..high]);
    assert rows == rows[..high] + rows[high..];
    KeysInJoins(rows[..high], rows[high..]);
    var keys := KeysIn(rows);
    forall k | k in KeysIn(rows[..high]) ensures k in d.packages {
      assert k in keys;
    }
    AdoptsAddUp(d, KeysIn(rows[..low]), KeysIn(rows[low..high]));
  }
}
