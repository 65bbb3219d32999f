/**
 The store's tables and the extension directory, updated in place. Every committed change appends an event
 to the trail, so the trail is a run and each state in it is one a restart may find.
 */
module Store {
  import opened Wrappers
  import opened Text
  import opened Inventory
  import opened Protocol
  import opened Limits
  import opened Retention
  import opened Summaries

  class Store {
    // packages, files, dirty, uploads, limits and the meta entries
    var packages: Packages
    var files: Directory
    var ids: map<string, nat>          // row id of each remembered file
    var lastId: nat
    var dirty: set<Key>
    var trusted: bool
    var uploads: map<string, Receipt>
    var limits: map<string, nat>
    var keep: nat
    // summaries and summary_dirty
    var summaries: map<string, Summary>
    var marked: set<string>
    // the extension directory
    var disk: Directory
    ghost var trail: seq<Event>

    function State(): Durable
      reads this
    {
      Durable(packages, files, dirty, trusted, uploads, limits, keep, disk)
    }

    ghost predicate IdsValid()
      reads this`files, this`ids, this`lastId
    {
      && ids.Keys == files.Keys
      && (forall n | n in ids :: 0 < ids[n] <= lastId)
      && IsInjective(ids)
    }

    /** Holds also inside a transaction. */
    ghost predicate Consistent()
      reads this`packages, this`files, this`ids, this`lastId, this`summaries, this`marked
    {
      && IdsValid()
      && CacheAgrees(packages, summaries, marked)
      && forall k | k in packages :: packages[k].key == k
    }

    ghost predicate Valid()
      reads this
    {
      Consistent() && IsRun(trail) && trail[|trail| - 1].state == State()
    }

    /**
     The first open after an upgrade: records without remembered files, every extension marked. Receipts and
     limits may be there already.
     */
    constructor Upgrade(packages: Packages, uploads: map<string, Receipt>, limits: map<string, nat>, keep: nat,
                        disk: Directory)
      requires forall k | k in packages :: packages[k].key == k
      requires forall i | i in uploads ::
          uploads[i].key in packages && packages[uploads[i].key].digest == uploads[i].digest
      ensures Valid() && State() == Durable(packages, map[], {}, false, uploads, limits, keep, disk)
      ensures Inv(State()) && |trail| == 1
    {
      this.packages, this.uploads, this.limits, this.keep, this.disk := packages, uploads, limits, keep, disk;
      files, ids, lastId, dirty, trusted := map[], map[], 0, {}, false;
      summaries, marked := map[], set k | k in packages :: k.id;
      var d := Durable(packages, map[], {}, false, uploads, limits, keep, disk);
      trail := [Event(Action.Outside(disk), d)];
      assert forall k | k in packages :: SettledOrQueued(d, k);
    }

    // Inside a transaction

    /** Writes a record; the triggers mark its extension. */
    method Put(p: Record)
      requires Consistent()
      modifies this`packages, this`marked
      ensures Consistent()
      ensures packages == old(packages)[p.key := p] && marked == old(marked) + {p.key.id}
    {
      MarkingKeepsCache(packages, packages[p.key := p], summaries, marked, marked + {p.key.id});
      packages := packages[p.key := p];
      marked := marked + {p.key.id};
    }

    /** Queues a package for the next scan. */
    method Queue(key: Key)
      requires Consistent()
      modifies this`dirty
      ensures Consistent() && dirty == old(dirty) + {key}
    {
      dirty := dirty + {key};
    }

    /** A row id nobody has; SQLite may reuse ids of deleted rows. */
    method UnusedId() returns (id: nat)
      requires IdsValid()
      ensures id > 0 && forall n | n in ids :: ids[n] != id
    {
      var guess: nat := *;
      if guess > 0 && guess !in ids.Values {
        assert forall n | n in ids :: ids[n] in ids.Values;
        return guess;
      }
      return lastId + 1;
    }

    /** Remembers a file, under its old row id if it has one. */
    method RememberRow(name: string, file: File)
      requires Consistent()
      modifies this`files, this`ids, this`lastId
      ensures Consistent()
      ensures files == old(files)[name := file]
      ensures ids.Keys == old(ids).Keys + {name} && forall n | n in old(ids) :: ids[n] == old(ids)[n]
    {
      hide CacheAgrees, IsInjective;
      if name !in ids {
        var id := UnusedId();
        NewIdKeepsInjective(ids, name, id);
        ids := ids[name := id];
        lastId := if id > lastId then id else lastId;
      }
      files := files[name := file];
    }

    method ForgetRow(name: string)
      requires Consistent()
      modifies this`files, this`ids
      ensures Consistent()
      ensures files == old(files) - {name} && ids == old(ids) - {name}
    {
      files := files - {name};
      ids := ids - {name};
    }

    /** Remembers what a file contains; a package that held the name before is queued. */
    method RememberFile(name: string, file: File)
      requires Consistent() && file.contents.Valid?
      modifies this`files, this`ids, this`lastId, this`dirty
      ensures Consistent()
      ensures files == old(files)[name := file]
      ensures dirty == old(dirty) + (KeysHeld(old(files), {name}) - {file.contents.key})
    {
      if name in files && files[name].contents.Valid? && files[name].contents.key != file.contents.key {
        Queue(files[name].contents.key);
      }
      RememberRow(name, file);
    }

    /** Appends the event of a change just committed. */
    ghost method Commit(a: Action)
      requires IsRun(trail) && Allowed(trail[|trail| - 1].state, a)
      requires State() == Apply(trail[|trail| - 1].state, a)
      modifies this`trail
      ensures IsRun(trail) && trail == old(trail) + [Event(a, State())]
    {
      RunExtends(trail, Event(a, State()));
      trail := trail + [Event(a, State())];
    }

    // Transactions and directory operations

    method Journal(p: Record)
      requires Valid() && Allowed(State(), Action.Journal(p))
      modifies this`packages, this`marked, this`dirty, this`trail
      ensures Valid() && trail == old(trail) + [Event(Action.Journal(p), State())]
      ensures State() == JournalTx(old(State()), p)
    {
      Put(p);
      Queue(p.key);
      Commit(Action.Journal(p));
    }

    method Publish(p: Record, mtime: int)
      requires Valid() && Allowed(State(), Action.Publish(p, mtime))
      modifies this`packages, this`marked, this`files, this`ids, this`lastId, this`dirty, this`trail
      ensures Valid() && trail == old(trail) + [Event(Action.Publish(p, mtime), State())]
      ensures State() == PublishTx(old(State()), p, mtime)
    {
      Put(p);
      RememberFile(p.filename, RememberedAs(p, mtime));
      Commit(Action.Publish(p, mtime));
    }

    /** Saves an upload's receipt; one saved before under the same key stays. */
    method Upload(idem: string, r: Receipt)
      requires Valid() && Allowed(State(), SaveReceipt(idem, r))
      modifies this`uploads, this`trail
      ensures Valid() && trail == old(trail) + [Event(SaveReceipt(idem, r), State())]
      ensures State() == ReceiptTx(old(State()), idem, r)
    {
      if idem !in uploads {
        uploads := uploads[idem := r];
      }
      Commit(SaveReceipt(idem, r));
    }

    method PutDeleted(targets: seq<Record>)
      requires Consistent()
      requires forall p | p in targets :: p.key in packages && packages[p.key] == p
      modifies this`packages, this`marked, this`dirty
      ensures Consistent()
      ensures packages == MarkedDeleted(old(packages), KeysOf(targets)) && dirty == old(dirty) + KeysOf(targets)
      ensures MarksOnly(old(marked), marked, targets)
    {
      hide CacheAgrees, IsInjective, MarkedDeleted;
      MarkingNone(packages);
      assert KeysOf(targets[..0]) == {};
      for i := 0 to |targets|
        invariant Consistent()
        invariant packages == MarkedDeleted(old(packages), KeysOf(targets[..i]))
            && dirty == old(dirty) + KeysOf(targets[..i])
        invariant MarksOnly(old(marked), marked, targets)
      {
        MarkingOneMore(old(packages), targets, i);
        Put(targets[i].(status := Deleted));
        Queue(targets[i].key);
      }
      assert targets[..|targets|] == targets;
    }

    /** Records that these packages' files are being deleted, and queues them for the next scan. */
    method MarkDeleted(targets: seq<Record>)
      requires Valid()
      requires forall p | p in targets :: p.key in packages && packages[p.key] == p
      modifies this`packages, this`marked, this`dirty, this`trail
      ensures Valid() && trail == old(trail) + [Event(Action.MarkDeleted(KeysOf(targets)), State())]
      ensures State() == MarkDeletedTx(old(State()), KeysOf(targets))
      ensures MarksOnly(old(marked), marked, targets)
    {
      PutDeleted(targets);
      Commit(Action.MarkDeleted(KeysOf(targets)));
    }

    method ForgetRows(names: set<string>)
      requires Consistent()
      modifies this`files, this`ids
      ensures Consistent()
      ensures files == old(files) - names
      ensures forall n | n in ids :: n in old(ids) && ids[n] == old(ids)[n]
    {
      hide CacheAgrees, IsInjective;
      var rest := names;
      while rest != {}
        invariant rest <= names && Consistent()
        invariant files == old(files) - (names - rest)
        invariant forall n | n in ids :: n in old(ids) && ids[n] == old(ids)[n]
      {
        var name :| name in rest;
        ForgetRow(name);
        rest := rest - {name};
      }
      assert names - rest == names;
    }

    method ForgetFiles(names: set<string>)
      requires Valid() && names !! disk.Keys
      modifies this`files, this`ids, this`trail
      ensures Valid() && trail == old(trail) + [Event(Action.ForgetFiles(names), State())]
      ensures State() == old(State()).(files := old(files) - names)
    {
      ForgetRows(names);
      Commit(Action.ForgetFiles(names));
    }

    method SetKeepDefault(n: nat)
      requires Valid()
      modifies this`keep, this`trail
      ensures Valid() && trail == old(trail) + [Event(Action.SetKeepDefault(n), State())]
      ensures State() == old(State()).(keep := n)
    {
      keep := n;
      Commit(Action.SetKeepDefault(n));
    }

    method SetKeep(id: string, own: Option<nat>)
      requires Valid()
      modifies this`limits, this`trail
      ensures Valid() && trail == old(trail) + [Event(Action.SetKeep(id, own), State())]
      ensures State() == SetKeepTx(old(State()), id, own)
    {
      match own {
        case None => limits := limits - {id};
        case Some(n) => limits := limits[id := n];
      }
      Commit(Action.SetKeep(id, own));
    }

    /** os.Link: fails when the name is taken. */
    method LinkFile(name: string, file: File)
      requires Valid() && name !in disk
      modifies this`disk, this`trail
      ensures Valid() && trail == old(trail) + [Event(Link(name, file), State())]
      ensures State() == old(State()).(disk := old(disk)[name := file])
    {
      disk := disk[name := file];
      Commit(Link(name, file));
    }

    /** os.Remove of an entry that is there. */
    method RemoveFile(name: string)
      requires Valid()
      modifies this`disk, this`trail
      ensures Valid() && trail == old(trail) + [Event(Unlink(name), State())]
      ensures State() == old(State()).(disk := old(disk) - {name})
    {
      disk := disk - {name};
      Commit(Unlink(name));
    }

    method ForgetAll()
      requires Valid()
      modifies this`files, this`ids, this`trusted, this`dirty, this`trail
      ensures Valid() && trail == old(trail) + [Event(Forget, State())]
      ensures State() == ForgetTx(old(State()))
    {
      files, ids := map[], map[];
      trusted := false;
      dirty := dirty + packages.Keys;
      Commit(Forget);
    }

    method MarkTrusted()
      requires Valid()
      modifies this`trusted, this`trail
      ensures Valid() && trail == old(trail) + [Event(Trust, State())]
      ensures State() == old(State()).(trusted := true)
    {
      trusted := true;
      Commit(Trust);
    }

    /** Someone else changes the directory. */
    method EditOutside(edited: Directory)
      requires Valid()
      modifies this`disk, this`trail
      ensures Valid() && trail == old(trail) + [Event(Action.Outside(edited), State())]
      ensures State() == old(State()).(disk := edited)
    {
      disk := edited;
      Commit(Action.Outside(edited));
    }

    // Queries

    /** The version limit that applies to an extension; 0 keeps every version. */
    method Keep(id: string) returns (limit: nat)
      ensures limit == LimitOf(State(), id)
    {
      if id in limits {
        return limits[id];
      }
      return keep;
    }

    /** An extension's records, each once, ordered by version and platform as text. */
    method List(id: string) returns (out: seq<Record>)
      requires Consistent()
      ensures Lists(out, packages, id) && InKeyOrder(out)
      ensures forall i, j | 0 <= i < j < |out| ::
                || TextBefore(out[i].key.version, out[j].key.version)
                || (out[i].key.version == out[j].key.version && TextBefore(out[i].key.platform, out[j].key.platform))
    {
      hide KeyBefore, InKeyOrder, CacheAgrees, IsInjective, ListsBut;
      out := [];
      var rest := packages.Keys;
      NothingListed(packages, id);
      while rest != {}
        invariant rest <= packages.Keys && InKeyOrder(out) && ListsBut(out, packages, id, rest)
      {
        var k :| k in rest;
        if k.id == id {
          var j := 0;
          while j < |out| && KeyBefore(out[j].key, k)
            invariant j <= |out| && forall i | 0 <= i < j :: KeyBefore(out[i].key, k)
          {
            j := j + 1;
          }
          ListedOneMore(out, packages, id, rest, k, j);
          out := out[..j] + [packages[k]] + out[j..];
        } else {
          OtherListed(out, packages, id, rest, k);
        }
        rest := rest - {k};
      }
      AllListed(out, packages, id);
      KeyOrderMeans(out);
    }

    /** The names of the remembered files that hold one key. */
    method FilesOf(key: Key) returns (names: seq<string>)
      ensures Distinct(names) && forall n :: n in names <==> n in files && Holds(files[n], key)
    {
      names := [];
      var rest := files.Keys;
      while rest != {}
        invariant rest <= files.Keys && Distinct(names)
        invariant forall n :: n in names <==> n in files && n !in rest && Holds(files[n], key)
      {
        var n :| n in rest;
        rest := rest - {n};
        if Holds(files[n], key) {
          names := names + [n];
        }
      }
    }

    /** One query: the files of up to a thousand keys. */
    method FilesOfBatch(keys: seq<Key>) returns (names: seq<string>)
      requires Distinct(keys)
      ensures Distinct(names) && forall n :: n in names <==> HoldsOneOf(files, n, keys)
    {
      hide Holds;
      names := [];
      for i := 0 to |keys|
        invariant Distinct(names) && forall n :: n in names <==> HoldsOneOf(files, n, keys[..i])
      {
        var more := FilesOf(keys[i]);
        HoldingOneMore(files, keys, i);
        names := Append(names, more);
      }
      assert keys[..|keys|] == keys;
    }

    /** The files remembered for these keys, each once, a thousand keys at a time. */
    method FilesHolding(keys: seq<Key>) returns (names: seq<string>)
      requires Distinct(keys)
      ensures Distinct(names) && forall n :: n in names <==> HoldsOneOf(files, n, keys)
    {
      names := [];
      var low := 0;
      while low < |keys|
        invariant low <= |keys| && Distinct(names) && forall n :: n in names <==> HoldsOneOf(files, n, keys[..low])
      {
        var high := if low + 1000 < |keys| then low + 1000 else |keys|;
        var batch := FilesOfBatch(keys[low..high]);
        HoldingJoins(files, keys, low, high);
        names := Append(names, batch);
        low := high;
      }
      assert keys[..low] == keys;
    }
  }

  /** The file is remembered for one of the keys. */
  predicate HoldsOneOf(files: Directory, n: string, keys: seq<Key>) {
    n in files && files[n].contents.Valid? && files[n].contents.key in keys
  }

  lemma HoldingJoins(files: Directory, keys: seq<Key>, low: nat, high: nat)
    requires Distinct(keys) && low <= high <= |keys|
    ensures Distinct(keys[low..high])
    ensures forall n :: HoldsOneOf(files, n, keys[..high]) <==>
        HoldsOneOf(files, n, keys[..low]) || HoldsOneOf(files, n, keys[low..high])
    ensures forall n :: !(HoldsOneOf(files, n, keys[..low]) && HoldsOneOf(files, n, keys[low..high]))
  {
    assert keys[..high] == keys[..low] + keys[low..high];
  }

  lemma HoldingOneMore(files: Directory, keys: seq<Key>, i: nat)
    requires Distinct(keys) && i < |keys|
    ensures forall n :: HoldsOneOf(files, n, keys[..i + 1]) <==>
                        HoldsOneOf(files, n, keys[..i]) || (n in files && Holds(files[n], keys[i]))
    ensures forall n :: !(HoldsOneOf(files, n, keys[..i]) && n in files && Holds(files[n], keys[i]))
  {
    assert keys[..i + 1] == keys[..i] + [keys[i]];
  }

  /** Two lists of different names, one after the other. */
  function Append(a: seq<string>, b: seq<string>): (r: seq<string>)
    requires Distinct(a) && Distinct(b) && forall n | n in a :: n !in b
    ensures Distinct(r) && forall n :: n in r <==> n in a || n in b
  {
    var r := a + b;
    assert forall i | 0 <= i < |a| :: a[i] in a;
    assert forall i | 0 <= i < |b| :: b[i] in b;
    assert forall i, j | 0 <= i < j < |r| :: r[i] != r[j] by {
      forall i, j | 0 <= i < j < |r| ensures r[i] != r[j] {
        if i < |a| && j >= |a| {
          assert r[j] == b[j - |a|];
        }
      }
    }
    r
  }

  ghost predicate IsInjective(ids: map<string, nat>) {
    forall m, n | m in ids && n in ids && ids[m] == ids[n] :: m == n
  }

  lemma NewIdKeepsInjective(ids: map<string, nat>, name: string, id: nat)
    requires IsInjective(ids) && forall n | n in ids :: ids[n] != id
    ensures IsInjective(ids[name := id])
  {
  }

  /** Only extensions of these records get marked. */
  ghost predicate MarksOnly(before: set<string>, after: set<string>, targets: seq<Record>) {
    forall id | id in after && id !in before :: exists p | p in targets :: p.key.id == id
  }

  lemma MarkingNone(packages: Packages)
    ensures MarkedDeleted(packages, {}) == packages
  {
  }

  /** One more record deleted inside the transaction. */
  lemma MarkingOneMore(packages: Packages, targets: seq<Record>, i: nat)
    requires i < |targets| && forall p | p in targets :: p.key in packages && packages[p.key] == p
    ensures KeysOf(targets[..i + 1]) == KeysOf(targets[..i]) + {targets[i].key}
    ensures MarkedDeleted(packages, KeysOf(targets[..i + 1])) ==
            MarkedDeleted(packages, KeysOf(targets[..i]))[targets[i].key := targets[i].(status := Deleted)]
  {
    assert targets[i] in targets;
    assert targets[..i + 1] == targets[..i] + [targets[i]];
  }

  /** The order of a listing within one extension. */
  predicate KeyBefore(a: Key, b: Key) {
    CompareText(a.version, b.version) < 0 || (a.version == b.version && CompareText(a.platform, b.platform) < 0)
  }

  ghost predicate InKeyOrder(ps: seq<Record>) {
    forall i, j | 0 <= i < j < |ps| :: KeyBefore(ps[i].key, ps[j].key)
  }

  lemma KeyOrderMeans(ps: seq<Record>)
    ensures InKeyOrder(ps) <==> forall i, j | 0 <= i < j < |ps| ::
              || TextBefore(ps[i].key.version, ps[j].key.version)
              || (ps[i].key.version == ps[j].key.version && TextBefore(ps[i].key.platform, ps[j].key.platform))
  {
    hide CompareText, TextBefore;
    forall i, j | 0 <= i < j < |ps|
      ensures KeyBefore(ps[i].key, ps[j].key) <==>
          || TextBefore(ps[i].key.version, ps[j].key.version)
          || (ps[i].key.version == ps[j].key.version && TextBefore(ps[i].key.platform, ps[j].key.platform))
    {
      TextMeans(ps[i].key.version, ps[j].key.version);
      TextMeans(ps[i].key.platform, ps[j].key.platform);
    }
  }

  /** A listing of one extension, but for the records of rest. */
  ghost predicate ListsBut(out: seq<Record>, packages: Packages, id: string, rest: set<Key>) {
    && (forall p | p in out :: p.key in packages && p.key !in rest && p.key.id == id && packages[p.key] == p)
    && (forall k | k in packages && k !in rest && k.id == id :: packages[k] in out)
    && DifferentKeys(out)
  }

  lemma NothingListed(packages: Packages, id: string)
    ensures InKeyOrder([]) && ListsBut([], packages, id, packages.Keys)
  {
  }

  lemma AllListed(out: seq<Record>, packages: Packages, id: string)
    requires ListsBut(out, packages, id, {})
    ensures Lists(out, packages, id)
  {
  }

  lemma OtherListed(out: seq<Record>, packages: Packages, id: string, rest: set<Key>, k: Key)
    requires ListsBut(out, packages, id, rest) && k.id != id
    ensures ListsBut(out, packages, id, rest - {k})
  {
  }

  lemma ListedOneMore(out: seq<Record>, packages: Packages, id: string, rest: set<Key>, k: Key, j: nat)
    requires ListsBut(out, packages, id, rest) && InKeyOrder(out) && k in rest && k in packages && k.id == id
        && packages[k].key == k
    requires j <= |out| && forall i | 0 <= i < j :: KeyBefore(out[i].key, k)
    requires j < |out| ==> !KeyBefore(out[j].key, k)
    ensures var r := out[..j] + [packages[k]] + out[j..];
      InKeyOrder(r) && ListsBut(r, packages, id, rest - {k})
  {
    hide KeyBefore, InKeyOrder, DifferentKeys;
    assert forall i | 0 <= i < |out| :: out[i] in out;
    InsertKeepsKeyOrder(out, j, packages[k]);
    InsertKeepsDifferent(out, j, packages[k]);
    InsertedMembers(out, j, packages[k]);
  }

  ghost predicate DifferentKeys(ps: seq<Record>) {
    forall i, j | 0 <= i < j < |ps| :: ps[i].key != ps[j].key
  }

  lemma InsertedMembers(ps: seq<Record>, j: nat, p: Record)
    requires j <= |ps|
    ensures forall q :: q in ps[..j] + [p] + ps[j..] <==> q in ps || q == p
  {
    assert ps == ps[..j] + ps[j..];
  }

  lemma InsertKeepsDifferent(ps: seq<Record>, j: nat, p: Record)
    requires j <= |ps| && DifferentKeys(ps) && forall i | 0 <= i < |ps| :: ps[i].key != p.key
    ensures DifferentKeys(ps[..j] + [p] + ps[j..])
  {
    var r := ps[..j] + [p] + ps[j..];
    forall a, b | 0 <= a < b < |r| ensures r[a].key != r[b].key {
      assert r[a] == (if a < j then ps[a] else if a == j then p else ps[a - 1]);
      assert r[b] == (if b < j then ps[b] else if b == j then p else ps[b - 1]);
    }
  }

  lemma KeysAreOrdered(a: Key, b: Key, c: Key)
    ensures a.id == b.id && a != b && !KeyBefore(a, b) ==> KeyBefore(b, a)
    ensures KeyBefore(a, b) && KeyBefore(b, c) ==> KeyBefore(a, c)
  {
    TextOrder(a.version, b.version);
    TextOrder(b.version, a.version);
    TextOrder(a.platform, b.platform);
    TextOrder(b.platform, a.platform);
    TextPrecedes(a.version, b.version, c.version);
    TextPrecedes(a.platform, b.platform, c.platform);
  }

  lemma InsertKeepsKeyOrder(ps: seq<Record>, j: nat, p: Record)
    requires InKeyOrder(ps) && j <= |ps| && forall i | 0 <= i < |ps| :: ps[i].key.id == p.key.id && ps[i].key != p.key
    requires forall i | 0 <= i < j :: KeyBefore(ps[i].key, p.key)
    requires j < |ps| ==> !KeyBefore(ps[j].key, p.key)
    ensures InKeyOrder(ps[..j] + [p] + ps[j..])
  {
    hide KeyBefore;
    var r := ps[..j] + [p] + ps[j..];
    forall i | j <= i < |ps| ensures KeyBefore(p.key, ps[i].key) {
      KeysAreOrdered(ps[j].key, p.key, p.key);
      KeysAreOrdered(p.key, ps[j].key, ps[i].key);
    }
    forall a, b | 0 <= a < b < |r| ensures KeyBefore(r[a].key, r[b].key) {
      assert r[a] == (if a < j then ps[a] else if a == j then p else ps[a - 1]);
      assert r[b] == (if b < j then ps[b] else if b == j then p else ps[b - 1]);
    }
  }

  /** A listing has every record of one extension, once. */
  ghost predicate Lists(out: seq<Record>, packages: Packages, id: string) {
    && (forall p | p in out :: p.key in packages && p.key.id == id && packages[p.key] == p)
    && (forall k | k in packages && k.id == id :: packages[k] in out)
    && DifferentKeys(out)
  }

  function KeysOf(ps: seq<Record>): set<Key> { set p | p in ps :: p.key }
}
