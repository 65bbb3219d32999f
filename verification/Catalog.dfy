/** The summary cache at work: its refresh, the library's totals, and the library-wide version limit. */
module Catalog {
  import opened Wrappers
  import opened Text
  import opened Versions
  import opened Inventory
  import opened Limits
  import opened Retention
  import opened Summaries
  import opened Store
  import opened Removal

  // Refreshing

  function Without(m: Packages, keys: set<Key>): Packages {
    map k | k in m && k !in keys :: m[k]
  }

  lemma PartHas(packages: Packages, id: string, keys: set<Key>)
    requires keys == set k | k in packages && k.id == id
    ensures Part(packages, id).Keys == keys && (keys == {} <==> Part(packages, id) == map[])
    ensures forall k | k in keys :: Part(packages, id)[k] == packages[k]
    ensures Without(Part(packages, id), keys) == map[] && Without(Part(packages, id), {}) == Part(packages, id)
  {
  }

  lemma WithoutOneLess(m: Packages, rest: set<Key>, k: Key)
    requires k in m && k in rest
    ensures Without(m, rest - {k}) == Without(m, rest)[k := m[k]] && k !in Without(m, rest)
  {
  }

  /** One extension's row, from its records; none without records. */
  method Summarize(db: Store, id: string) returns (row: Option<Summary>)
    requires db.Consistent()
    ensures if Part(db.packages, id) == map[] then row.None?
        else row.Some? && Summarizes(row.value, Part(db.packages, id))
  {
    hide CacheAgrees, IsInjective, Summarizes, Tally.Valid, Without, Part;
    ghost var part := Part(db.packages, id);
    var keys := set k | k in db.packages && k.id == id;
    PartHas(db.packages, id, keys);
    if keys == {} {
      return None;
    }
    var tally := new Tally();
    var rest := keys;
    while rest != {}
      invariant rest <= keys && fresh(tally) && tally.Valid()
      invariant tally.added == Without(part, rest)
    {
      var k :| k in rest;
      WithoutOneLess(part, rest, k);
      rest := rest - {k};
      tally.Add(db.packages[k]);
    }
    var summary := tally.Row();
    return Some(summary);
  }

  /** Up to a thousand marked extensions. */
  method MarkedBatch(db: Store) returns (ids: set<string>)
    requires db.marked != {}
    ensures ids <= db.marked && ids != {}
  {
    var id :| id in db.marked;
    ids := {id};
    var rest := db.marked - ids;
    while rest != {} && |ids| < 1000
      invariant rest == db.marked - ids && ids <= db.marked && ids != {}
    {
      id :| id in rest;
      ids := ids + {id};
      rest := rest - {id};
    }
  }

  /** The rows of ids are replaced: right where rows has one, absent elsewhere. */
  lemma ReplacingRows(packages: Packages, before: map<string, Summary>, marked: set<string>, ids: set<string>,
                      rows: map<string, Summary>)
    requires CacheAgrees(packages, before, marked) && rows.Keys <= ids
    requires forall id | id in ids :: RowAgrees(packages, rows, id)
    ensures CacheAgrees(packages, (before - ids) + rows, marked - ids)
  {
    hide Summarizes, Part;
    var after := (before - ids) + rows;
    forall id | id !in marked - ids ensures RowAgrees(packages, after, id) {
      if id in ids {
        assert id in after <==> id in rows;
      } else {
        assert RowAgrees(packages, before, id);
      }
    }
  }

  function PutAll(packages: Packages, ps: seq<Record>): Packages {
    if |ps| == 0 then packages
    else
      var p := ps[|ps| - 1];
      PutAll(packages, ps[..|ps| - 1])[p.key := p]
  }

  /** One batch in one transaction. */
  method RefreshBatch(db: Store)
    requires db.Consistent() && db.marked != {}
    modifies db`summaries, db`marked
    ensures db.Consistent() && db.marked < old(db.marked)
  {
    hide IsInjective, RowAgrees, Summarizes, Part;
    var ids := MarkedBatch(db);
    var rows := Rows(db, ids);
    ReplacingRows(db.packages, db.summaries, db.marked, ids, rows);
    db.summaries := (db.summaries - ids) + rows;
    db.marked := db.marked - ids;
  }

  /**
   Recomputes the rows of marked extensions, batch by batch, until none is marked. Between batches others may write
   records, which marks more; others holds what they still want to write, and written says how much of it they have.
   */
  method RefreshSummaries(db: Store, others: seq<Record>) returns (written: nat)
    requires db.Consistent()
    modifies db`packages, db`summaries, db`marked
    ensures db.Consistent() && db.marked == {}
    ensures written <= |others| && db.packages == PutAll(old(db.packages), others[..written])
  {
    hide Store.Consistent;
    written := 0;
    while db.marked != {}
      invariant db.Consistent() && written <= |others| && db.packages == PutAll(old(db.packages), others[..written])
      decreases |others| - written, db.marked
    {
      var write := *;
      if write && written < |others| {
        assert others[..written + 1][..written] == others[..written];
        db.Put(others[written]);
        written := written + 1;
      } else {
        RefreshBatch(db);
      }
    }
  }

  method Rows(db: Store, ids: set<string>) returns (rows: map<string, Summary>)
    requires db.Consistent()
    ensures rows.Keys <= ids && forall id | id in ids :: RowAgrees(db.packages, rows, id)
  {
    hide Store.Consistent, Summarizes, Part;
    rows := map[];
    var rest := ids;
    while rest != {}
      invariant rest <= ids && rows.Keys <= ids - rest
      invariant forall id | id in ids && id !in rest :: RowAgrees(db.packages, rows, id)
    {
      var id :| id in rest;
      rest := rest - {id};
      var row := Summarize(db, id);
      if row.Some? {
        rows := rows[id := row.value];
      }
    }
  }

  // Totals

  datatype Totals = Totals(extensions: nat, versions: nat, packages: nat, bytes: nat, attention: nat, deleted: nat,
      deletedBytes: nat)

  function IdsOf(keys: set<Key>): set<string> {
    set k | k in keys :: k.id
  }

  function Releases(keys: set<Key>): set<(string, string)> {
    set k | k in keys :: (k.id, k.version)
  }

  /** The totals counted directly over packages. */
  ghost predicate CountsAll(t: Totals, m: Packages) {
    && t.extensions == |IdsOf(WithStatus(m, Stored))|
    && t.versions == |Releases(WithStatus(m, Stored))|
    && t.packages == |WithStatus(m, Stored)|
    && t.bytes == TotalBytes(m)
    && t.attention == |WithStatus(m, Missing)| + |WithStatus(m, Pending)| + |WithStatus(m, Conflict)|
    && t.deleted == |WithStatus(m, Deleted)|
    && t.deletedBytes == DeletedBytes(m)
  }

  function Among(packages: Packages, ids: set<string>): Packages {
    map k | k in packages && k.id in ids :: packages[k]
  }

  function Tagged(id: string, versions: set<string>): set<(string, string)> {
    set v | v in versions :: (id, v)
  }

  lemma {:induction false} TaggedSize(id: string, versions: set<string>)
    ensures |Tagged(id, versions)| == |versions|
    decreases |versions|
  {
    if versions != {} {
      var v :| v in versions;
      TaggedSize(id, versions - {v});
      assert Tagged(id, versions) == Tagged(id, versions - {v}) + {(id, v)};
    }
  }

  lemma StatusSetsJoin(m: Packages, part: Packages, status: Status)
    requires m.Keys !! part.Keys
    ensures WithStatus(m + part, status) == WithStatus(m, status) + WithStatus(part, status)
    ensures WithStatus(m, status) !! WithStatus(part, status)
    ensures WithStatus(m, status) <= m.Keys && WithStatus(part, status) <= part.Keys
  {
  }

  lemma StatusesJoin(m: Packages, part: Packages, status: Status)
    requires m.Keys !! part.Keys
    ensures WithStatus(m + part, status) == WithStatus(m, status) + WithStatus(part, status)
    ensures |WithStatus(m + part, status)| == |WithStatus(m, status)| + |WithStatus(part, status)|
    ensures SizeSum(m + part, WithStatus(m + part, status)) ==
        SizeSum(m, WithStatus(m, status)) + SizeSum(part, WithStatus(part, status))
  {
    hide SizeSum, WithStatus;
    var all := m + part;
    StatusSetsJoin(m, part, status);
    SizeSumJoins(all, WithStatus(m, status), WithStatus(part, status));
    SizeSumFrames(all, m, WithStatus(m, status));
    SizeSumFrames(all, part, WithStatus(part, status));
  }

  /** Another extension's keys add its versions, and itself if there are any. */
  lemma ReleasesJoin(keys: set<Key>, more: set<Key>, id: string)
    requires (forall k | k in keys :: k.id != id) && forall k | k in more :: k.id == id
    ensures |Releases(keys + more)| == |Releases(keys)| + |VersionsOfKeys(more)|
    ensures |IdsOf(keys + more)| == |IdsOf(keys)| + (if |more| > 0 then 1 else 0)
  {
    hide Tagged, IdsOf;
    var r, q := Releases(keys), Releases(more);
    TaggedSize(id, VersionsOfKeys(more));
    ReleasesOfOne(more, id);
    assert Releases(keys + more) == r + q;
    assert r !! q;
    assert |r + q| == |r| + |q|;
    IdsJoin(keys, more, id);
  }

  lemma IdsJoin(keys: set<Key>, more: set<Key>, id: string)
    requires (forall k | k in keys :: k.id != id) && forall k | k in more :: k.id == id
    ensures |IdsOf(keys + more)| == |IdsOf(keys)| + (if |more| > 0 then 1 else 0)
  {
    if |more| > 0 {
      var k :| k in more;
      assert IdsOf(keys + more) == IdsOf(keys) + {id};
    } else {
      assert keys + more == keys;
    }
  }

  lemma ReleasesOfOne(keys: set<Key>, id: string)
    requires forall k | k in keys :: k.id == id
    ensures Releases(keys) == Tagged(id, VersionsOfKeys(keys))
  {
    forall r | r in Tagged(id, VersionsOfKeys(keys)) ensures r in Releases(keys) {
      var k :| k in keys && k.version == r.1;
    }
  }

  function AddRow(t: Totals, s: Summary): Totals {
    Totals(t.extensions + (if s.stored > 0 then 1 else 0), t.versions + s.storedVersions, t.packages + s.stored,
        t.bytes + s.bytes,
           t.attention + s.attention, t.deleted + s.deleted, t.deletedBytes + s.deletedBytes)
  }

  lemma AmongJoins(packages: Packages, ids: set<string>, id: string)
    requires id !in ids
    ensures Among(packages, ids + {id}) == Among(packages, ids) + Part(packages, id)
    ensures Among(packages, ids).Keys !! Part(packages, id).Keys
    ensures forall k | k in WithStatus(Among(packages, ids), Stored) :: k.id != id
    ensures forall k | k in WithStatus(Part(packages, id), Stored) :: k.id == id
  {
  }

  lemma AddingARow(packages: Packages, ids: set<string>, id: string, t: Totals, s: Summary)
    requires CountsAll(t, Among(packages, ids)) && id !in ids && Summarizes(s, Part(packages, id))
    ensures CountsAll(AddRow(t, s), Among(packages, ids + {id}))
  {
    hide CompareVersions, IsLatest, SizeSum, WithStatus, IdsOf, Releases, VersionsOfKeys, NotDeletedKeys, Among, Part;
    var m, part := Among(packages, ids), Part(packages, id);
    AmongJoins(packages, ids, id);
    StatusesJoin(m, part, Stored);
    StatusesJoin(m, part, Missing);
    StatusesJoin(m, part, Pending);
    StatusesJoin(m, part, Conflict);
    StatusesJoin(m, part, Deleted);
    ReleasesJoin(WithStatus(m, Stored), WithStatus(part, Stored), id);
  }

  lemma EveryRowIsAPart(packages: Packages, rows: map<string, Summary>)
    requires CacheAgrees(packages, rows, {})
    ensures forall id | id in rows :: Summarizes(rows[id], Part(packages, id))
    ensures Among(packages, rows.Keys) == packages
    ensures Among(packages, {}) == map[]
  {
    hide Summarizes;
    forall id | id in rows ensures Summarizes(rows[id], Part(packages, id)) {
      assert RowAgrees(packages, rows, id);
    }
    forall k | k in packages ensures k.id in rows {
      assert RowAgrees(packages, rows, k.id);
      assert k in Part(packages, k.id);
    }
  }

  lemma NothingCounted()
    ensures CountsAll(Totals(0, 0, 0, 0, 0, 0, 0), map[])
  {
    var none: Packages := map[];
    assert forall status :: WithStatus(none, status) == {};
    assert IdsOf({}) == {} && Releases({}) == {};
  }

  /** Sums the rows of the refreshed cache. */
  method CountTotals(db: Store) returns (t: Totals)
    requires db.Consistent()
    modifies db`packages, db`summaries, db`marked
    ensures db.Consistent() && CountsAll(t, db.packages) && db.packages == old(db.packages)
  {
    hide IsInjective, Summarizes, Part, CountsAll, Among, RowAgrees;
    var _ := RefreshSummaries(db, []);
    EveryRowIsAPart(db.packages, db.summaries);
    NothingCounted();
    t := Totals(0, 0, 0, 0, 0, 0, 0);
    var rows, rest := db.summaries, db.summaries.Keys;
    assert rows.Keys - rest == {};
    while rest != {}
      invariant db.Consistent() && db.packages == old(db.packages) && rest <= rows.Keys
          && CountsAll(t, Among(db.packages, rows.Keys - rest))
    {
      var id :| id in rest;
      AddingARow(db.packages, rows.Keys - rest, id, t, rows[id]);
      assert rows.Keys - rest + {id} == rows.Keys - (rest - {id});
      t := AddRow(t, rows[id]);
      rest := rest - {id};
    }
    assert rows.Keys - rest == rows.Keys;
  }

  /** The totals, directly over the packages table. */
  lemma TotalsMean(t: Totals, packages: Packages)
    requires CountsAll(t, packages)
    ensures var stored := set k | k in packages && packages[k].status == Stored;
      var deleted := set k | k in packages && packages[k].status == Deleted;
      && t.extensions == |set k | k in stored :: k.id| && t.versions == |set k | k in stored :: (k.id, k.version)|
      && t.packages == |stored| && t.deleted == |deleted|
      && t.attention == |packages.Keys| - |stored| - |deleted|
      && t.bytes == SizeSum(packages, stored) && t.deletedBytes == SizeSum(packages, deleted)
  {
    hide SizeSum;
    var stored, deleted := WithStatus(packages, Stored), WithStatus(packages, Deleted);
    assert stored == set k | k in packages && packages[k].status == Stored;
    assert deleted == set k | k in packages && packages[k].status == Deleted;
    assert IdsOf(stored) == set k | k in stored :: k.id;
    assert Releases(stored) == set k | k in stored :: (k.id, k.version);
    StatusesCover(packages);
  }

  lemma StatusesCover(packages: Packages)
    ensures |packages.Keys| ==
            |WithStatus(packages, Stored)| + |WithStatus(packages, Deleted)| + |WithStatus(packages, Missing)|
            + |WithStatus(packages, Pending)| + |WithStatus(packages, Conflict)|
  {
    var a, b, c := WithStatus(packages, Missing), WithStatus(packages, Pending), WithStatus(packages, Conflict);
    var stored, deleted := WithStatus(packages, Stored), WithStatus(packages, Deleted);
    StatusesPart(packages);
    hide WithStatus;
    assert |stored + deleted| == |stored| + |deleted|;
    assert |stored + deleted + a| == |stored + deleted| + |a|;
    assert |stored + deleted + a + b| == |stored + deleted + a| + |b|;
    assert |stored + deleted + a + b + c| == |stored + deleted + a + b| + |c|;
  }

  lemma StatusesPart(packages: Packages)
    ensures var a, b, c := WithStatus(packages, Missing), WithStatus(packages, Pending), WithStatus(packages, Conflict);
      var stored, deleted := WithStatus(packages, Stored), WithStatus(packages, Deleted);
      && stored !! deleted && stored + deleted !! a && stored + deleted + a !! b && stored + deleted + a + b !! c
      && packages.Keys == stored + deleted + a + b + c
  {
  }

  // Extensions over the library's limit

  /** The extensions without a limit of their own that keep more than keep versions. */
  function Over(packages: Packages, limits: map<string, nat>, keep: nat): set<string> {
    set k | k in packages && k.id !in limits && |KeptVersions(packages, k.id)| > keep :: k.id
  }

  lemma OverMeans(packages: Packages, limits: map<string, nat>, keep: nat)
    ensures forall id :: id in Over(packages, limits, keep) <==>
              id !in limits
              && |set k | k in packages && k.id == id && packages[k].status != Deleted :: k.version| > keep
  {
    forall id
      ensures id in Over(packages, limits, keep) <==>
          id !in limits && |set k | k in packages && k.id == id && packages[k].status != Deleted :: k.version| > keep
    {
      var kept := set k | k in packages && k.id == id && packages[k].status != Deleted :: k.version;
      assert KeptVersions(packages, id) == kept;
      if |kept| > keep {
        var v :| v in kept;
        var k :| k in packages && k.id == id && packages[k].status != Deleted && k.version == v;
        assert k.id in Over(packages, limits, keep) <==> k.id !in limits;
      }
    }
  }

  /** What the cache lists after an ID. */
  function Listed(rows: map<string, Summary>, limits: map<string, nat>, keep: nat, after: string): set<string> {
    set id | id in rows && CompareText(id, after) > 0 && rows[id].versions > keep && id !in limits
  }

  lemma RowCountsKept(packages: Packages, rows: map<string, Summary>, id: string)
    requires RowAgrees(packages, rows, id)
    ensures id in rows <==> exists k :: k in packages && k.id == id
    ensures id in rows ==> rows[id].versions == |KeptVersions(packages, id)|
    ensures id !in rows ==> KeptVersions(packages, id) == {}
  {
    hide IsLatest;
    var part := Part(packages, id);
    assert VersionsOfKeys(NotDeletedKeys(part)) == KeptVersions(packages, id) by {
      forall v | v in KeptVersions(packages, id) ensures v in VersionsOfKeys(NotDeletedKeys(part)) {
        var k :| k in packages && k.id == id && !packages[k].status.Deleted? && k.version == v;
        assert k in NotDeletedKeys(part);
      }
    }
    if id !in rows {
      assert forall k | k in packages && k.id == id :: k in part;
    } else {
      var k :| k in part;
      assert k in packages && k.id == id;
    }
  }

  /** The part of order that is left once its first m are visited, and the last one visited. */
  ghost predicate Visiting(order: seq<string>, m: nat, after: string) {
    m <= |order| && after == if m == 0 then "" else order[m - 1]
  }

  /** Of an ascending order, the IDs after the last one visited are exactly those not visited yet. */
  lemma AfterLast(order: seq<string>, m: nat, after: string, id: string)
    requires Ascending(order) && Visiting(order, m, after) && id in order && id != ""
    ensures CompareText(id, after) > 0 <==> id in order[m..]
  {
    var i :| 0 <= i < |order| && order[i] == id;
    TextOrder(id, after);
    if m > 0 {
      TextOrder(order[i], order[m - 1]);
      if i >= m {
        assert order[m..][i - m] == id;
      } else {
        forall j | m <= j < |order| ensures order[j] != id {
          TextOrder(id, order[j]);
        }
      }
    }
  }

  lemma VisitedIsBefore(order: seq<string>, m: nat, after: string, id: string)
    requires Ascending(order) && Visiting(order, m, after) && id in order[..m]
    ensures CompareText(id, after) <= 0 && id !in order[m..]
  {
    var i :| 0 <= i < m && order[i] == id;
    TextOrder(id, after);
    forall j | m <= j < |order| ensures order[j] != id {
      TextOrder(id, order[j]);
    }
  }

  /** Where every extension not visited yet is as it was, and its row is right. */
  ghost predicate RestIntact(before: Packages, now: Packages, rows: map<string, Summary>, done: set<string>) {
    forall id | id !in done :: Part(now, id) == Part(before, id) && RowAgrees(before, rows, id)
  }

  lemma PartsKeep(before: Packages, now: Packages, id: string)
    requires Part(now, id) == Part(before, id)
    ensures KeptVersions(now, id) == KeptVersions(before, id)
    ensures forall cut :: CutKeys(now, id, cut) == CutKeys(before, id, cut)
  {
    assert forall k | k in now && k.id == id :: k in Part(now, id);
    assert forall k | k in before && k.id == id :: k in Part(before, id);
    assert forall k | k in Part(now, id) :: k in now && now[k] == Part(now, id)[k];
    assert forall k | k in Part(before, id) :: k in before && before[k] == Part(before, id)[k];
  }

  /** The next page of the query is the next stretch of the order. */
  lemma NextPage(before: Packages, now: Packages, rows: map<string, Summary>, limits: map<string, nat>, keep: nat,
                 order: seq<string>, m: nat, after: string)
    requires order == InOrder(Over(before, limits, keep)) && Visiting(order, m, after)
    requires RestIntact(before, now, rows, Elements(order[..m])) && forall k | k in before :: k.id != ""
    ensures InOrder(Listed(rows, limits, keep, after)) == order[m..]
  {
    hide RowAgrees, KeptVersions, InOrder;
    var listed, rest := Listed(rows, limits, keep, after), order[m..];
    assert order == order[..m] + rest;
    forall id ensures id in listed <==> id in rest {
      if id !in Elements(order[..m]) {
        RowCountsKept(before, rows, id);
        if id in Over(before, limits, keep) {
          AfterLast(order, m, after, id);
        }
      } else {
        VisitedIsBefore(order, m, after, id);
      }
    }
    AscendingIsUnique(InOrder(listed), rest);
  }
}
