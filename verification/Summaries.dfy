/**
 The summary cache: one row of totals per extension, recomputed for the extensions marked as changed.

 Part picks an extension's records out of the table; Summarizes says declaratively what its row must hold.
 */
module Summaries {
  import opened Wrappers
  import opened Versions
  import opened Inventory

  datatype Summary = Summary(
    latest: Option<string>,
    versions: nat,
    storedVersions: nat,
    packages: nat,
    bytes: nat,
    stored: nat,
    missing: nat,
    pending: nat,
    conflict: nat,
    deleted: nat,
    deletedBytes: nat,
    attention: nat)

  function Part(packages: Packages, id: string): Packages {
    map k | k in packages && k.id == id :: packages[k]
  }

  function WithStatus(m: Packages, status: Status): set<Key> {
    set k | k in m && m[k].status == status
  }

  function NotDeletedKeys(m: Packages): set<Key> {
    set k | k in m && !m[k].status.Deleted?
  }

  function VersionsOfKeys(keys: set<Key>): set<string> {
    set k | k in keys :: k.version
  }

  ghost function SizeSum(m: Packages, keys: set<Key>): nat
    requires keys <= m.Keys
    decreases |keys|
  {
    if keys == {} then 0
    else var k :| k in keys; m[k].digest.size + SizeSum(m, keys - {k})
  }

  lemma {:induction false} SizeSumTakes(m: Packages, keys: set<Key>, k: Key)
    requires keys <= m.Keys && k in keys
    ensures SizeSum(m, keys) == m[k].digest.size + SizeSum(m, keys - {k})
    decreases |keys|
  {
    var j :| j in keys && SizeSum(m, keys) == m[j].digest.size + SizeSum(m, keys - {j});
    if j != k {
      SizeSumTakes(m, keys - {j}, k);
      SizeSumTakes(m, keys - {k}, j);
      assert keys - {j} - {k} == keys - {k} - {j};
    }
  }

  lemma SizeSumAdds(m: Packages, keys: set<Key>, k: Key)
    requires keys <= m.Keys && k in m && k !in keys
    ensures SizeSum(m, keys + {k}) == SizeSum(m, keys) + m[k].digest.size
  {
    SizeSumTakes(m, keys + {k}, k);
    assert keys + {k} - {k} == keys;
  }

  /** Only the records of the keys themselves matter. */
  lemma {:induction false} SizeSumFrames(m: Packages, n: Packages, keys: set<Key>)
    requires keys <= m.Keys && keys <= n.Keys && forall k | k in keys :: m[k].digest == n[k].digest
    ensures SizeSum(m, keys) == SizeSum(n, keys)
    decreases |keys|
  {
    if keys != {} {
      var k :| k in keys;
      SizeSumTakes(m, keys, k);
      SizeSumTakes(n, keys, k);
      SizeSumFrames(m, n, keys - {k});
    }
  }

  lemma {:induction false} SizeSumJoins(m: Packages, a: set<Key>, b: set<Key>)
    requires a <= m.Keys && b <= m.Keys && a !! b
    ensures SizeSum(m, a + b) == SizeSum(m, a) + SizeSum(m, b)
    decreases |b|
  {
    if b == {} {
      assert a + b == a;
    } else {
      var k :| k in b;
      SizeSumJoins(m, a, b - {k});
      SizeSumTakes(m, b, k);
      SizeSumTakes(m, a + b, k);
      assert a + b - {k} == a + (b - {k});
    }
  }

  /** The newest version not deleted, or the newest deleted one if all are. */
  ghost predicate IsLatest(latest: Option<string>, m: Packages) {
    var candidates := if NotDeletedKeys(m) != {} then VersionsOfKeys(NotDeletedKeys(m)) else VersionsOfKeys(m.Keys);
    if candidates == {} then latest.None?
    else latest.Some? && latest.value in candidates && forall v | v in candidates ::
        CompareVersions(v, latest.value) <= 0
  }

  ghost predicate Summarizes(s: Summary, m: Packages) {
    && IsLatest(s.latest, m)
    && s.versions == |VersionsOfKeys(NotDeletedKeys(m))|
    && s.storedVersions == |VersionsOfKeys(WithStatus(m, Stored))|
    && s.packages == |NotDeletedKeys(m)|
    && s.bytes == SizeSum(m, WithStatus(m, Stored))
    && s.stored == |WithStatus(m, Stored)|
    && s.missing == |WithStatus(m, Missing)|
    && s.pending == |WithStatus(m, Pending)|
    && s.conflict == |WithStatus(m, Conflict)|
    && s.deleted == |WithStatus(m, Deleted)|
    && s.deletedBytes == SizeSum(m, WithStatus(m, Deleted))
    && s.attention == s.missing + s.pending + s.conflict
  }

  /** The cache row of one extension is right: absent without records, else the totals of its records. */
  ghost predicate RowAgrees(packages: Packages, rows: map<string, Summary>, id: string) {
    if Part(packages, id) == map[] then id !in rows
    else id in rows && Summarizes(rows[id], Part(packages, id))
  }

  /** What an extension's row says about the packages table. */
  lemma RowMeans(packages: Packages, rows: map<string, Summary>, id: string)
    requires RowAgrees(packages, rows, id)
    ensures var mine := map k | k in packages && k.id == id :: packages[k];
      var kept := set k | k in mine && mine[k].status != Deleted;
      var stored := set k | k in mine && mine[k].status == Stored;
      var deleted := set k | k in mine && mine[k].status == Deleted;
      && (id in rows <==> mine != map[])
      && (id in rows ==>
            var row := rows[id];
            && row.versions == |set k | k in kept :: k.version| && row.packages == |kept|
            && row.storedVersions == |set k | k in stored :: k.version| && row.stored == |stored|
            && row.missing == |set k | k in mine && mine[k].status == Missing|
            && row.pending == |set k | k in mine && mine[k].status == Pending|
            && row.conflict == |set k | k in mine && mine[k].status == Conflict|
            && row.deleted == |deleted| && row.attention == row.missing + row.pending + row.conflict
            && row.bytes == SizeSum(mine, stored) && row.deletedBytes == SizeSum(mine, deleted))
  {
    hide IsLatest;
    var mine := map k | k in packages && k.id == id :: packages[k];
    var kept := set k | k in mine && mine[k].status != Deleted;
    var stored := set k | k in mine && mine[k].status == Stored;
    assert Part(packages, id) == mine && NotDeletedKeys(mine) == kept && WithStatus(mine, Stored) == stored;
    assert VersionsOfKeys(kept) == set k | k in kept :: k.version;
    assert VersionsOfKeys(stored) == set k | k in stored :: k.version;
    assert WithStatus(mine, Missing) == set k | k in mine && mine[k].status == Missing;
    assert WithStatus(mine, Pending) == set k | k in mine && mine[k].status == Pending;
    assert WithStatus(mine, Conflict) == set k | k in mine && mine[k].status == Conflict;
    assert WithStatus(mine, Deleted) == set k | k in mine && mine[k].status == Deleted;
  }

  /** The latest version is not deleted unless all are, and no other such version is newer. */
  lemma LatestMeans(packages: Packages, rows: map<string, Summary>, id: string)
    requires RowAgrees(packages, rows, id) && id in rows
    ensures rows[id].latest.Some?
    ensures var all := forall k | k in packages && k.id == id :: packages[k].status == Deleted;
      && (exists k | k in packages && k.id == id ::
            (all || packages[k].status != Deleted) && k.version == rows[id].latest.value)
      && forall k | k in packages && k.id == id && (all || packages[k].status != Deleted) ::
           CompareVersions(k.version, rows[id].latest.value) <= 0
  {
    hide CompareVersions, SizeSum;
    var part := Part(packages, id);
    var all := forall k | k in packages && k.id == id :: packages[k].status == Deleted;
    assert all <==> NotDeletedKeys(part) == {} by {
      if !all {
        var k :| k in packages && k.id == id && packages[k].status != Deleted;
        assert k in NotDeletedKeys(part);
      }
    }
    var candidates := if all then part.Keys else NotDeletedKeys(part);
    assert part.Keys != {};
    var some :| some in candidates;
    assert some.version in VersionsOfKeys(candidates);
    forall k | k in packages && k.id == id && (all || packages[k].status != Deleted)
      ensures k.version in VersionsOfKeys(candidates)
    {
      assert k in candidates;
    }
  }

  /** Every extension that is not marked has the right row. */
  ghost predicate CacheAgrees(packages: Packages, rows: map<string, Summary>, marked: set<string>) {
    forall id :: id !in marked ==> RowAgrees(packages, rows, id)
  }

  /** Marking the extensions whose records change keeps the cache honest. */
  lemma MarkingKeepsCache(before: Packages, after: Packages, rows: map<string, Summary>, marked: set<string>,
                          now: set<string>)
    requires CacheAgrees(before, rows, marked) && marked <= now
    requires forall k: Key | k.id !in now :: (k in before <==> k in after) && (k in before ==> after[k] == before[k])
    ensures CacheAgrees(after, rows, now)
  {
    forall id | id !in now ensures RowAgrees(after, rows, id) {
      assert Part(after, id) == Part(before, id);
      assert RowAgrees(before, rows, id);
    }
  }

  // Accumulating one extension's totals

  /** A status that was never counted has no entry. */
  function CountIn(counts: map<Status, nat>, status: Status): nat {
    if status in counts then counts[status] else 0
  }

  ghost predicate LatestAgrees(latest: Option<string>, latestKept: bool, m: Packages) {
    IsLatest(latest, m) && latestKept == (NotDeletedKeys(m) != {})
  }

  ghost predicate TotalsAgree(versions: set<string>, storedVersions: set<string>, packages: nat, bytes: nat,
                              deletedBytes: nat, m: Packages) {
    && versions == VersionsOfKeys(NotDeletedKeys(m))
    && storedVersions == VersionsOfKeys(WithStatus(m, Stored))
    && packages == |NotDeletedKeys(m)|
    && bytes == SizeSum(m, WithStatus(m, Stored))
    && deletedBytes == SizeSum(m, WithStatus(m, Deleted))
  }

  ghost predicate CountsAgree(counts: map<Status, nat>, m: Packages) {
    forall status :: CountIn(counts, status) == |WithStatus(m, status)|
  }

  lemma CountsStep(counts: map<Status, nat>, m: Packages, p: Record)
    requires CountsAgree(counts, m) && p.key !in m
    ensures CountsAgree(counts[p.status := CountIn(counts, p.status) + 1], m[p.key := p])
  {
    var n, after := m[p.key := p], counts[p.status := CountIn(counts, p.status) + 1];
    SetsStep(m, p);
    forall status ensures CountIn(after, status) == |WithStatus(n, status)| {
      assert CountIn(counts, status) == |WithStatus(m, status)|;
    }
  }

  /** Whether version takes over as the latest. */
  predicate TakesOver(latest: Option<string>, latestKept: bool, version: string, kept: bool) {
    latest.None? || (kept && !latestKept) || (kept == latestKept && CompareVersions(version, latest.value) > 0)
  }

  /** One extension's totals, fed one record at a time. */
  class Tally {
    var latest: Option<string>
    var latestKept: bool
    var versions: set<string>
    var storedVersions: set<string>
    var counts: map<Status, nat>
    var packages: nat
    var bytes: nat
    var deletedBytes: nat
    ghost var added: Packages

    ghost predicate Valid()
      reads this
    {
      && LatestAgrees(latest, latestKept, added)
      && TotalsAgree(versions, storedVersions, packages, bytes, deletedBytes, added)
      && CountsAgree(counts, added)
    }

    constructor ()
      ensures Valid() && added == map[]
    {
      latest, latestKept := None, false;
      versions, storedVersions, counts := {}, {}, map[];
      packages, bytes, deletedBytes := 0, 0, 0;
      added := map[];
    }

    /** The record's version takes over when nothing kept is newer; a kept version beats a deleted one. */
    method NoteLatest(version: string, kept: bool)
      modifies this`latest, this`latestKept
      ensures latest == if TakesOver(old(latest), old(latestKept), version, kept) then Some(version) else old(latest)
      ensures latestKept == if TakesOver(old(latest), old(latestKept), version, kept) then kept else old(latestKept)
    {
      if TakesOver(latest, latestKept, version, kept) {
        latest, latestKept := Some(version), kept;
      }
    }

    /** Deleted records add to the deleted bytes only; stored ones also to the stored totals. */
    method NoteTotals(p: Record)
      modifies this`deletedBytes, this`bytes, this`storedVersions, this`packages, this`versions
      ensures deletedBytes == old(deletedBytes) + if p.status == Deleted then p.digest.size else 0
      ensures bytes == old(bytes) + if p.status == Stored then p.digest.size else 0
      ensures storedVersions == old(storedVersions) + if p.status == Stored then {p.key.version} else {}
      ensures packages == old(packages) + if p.status == Deleted then 0 else 1
      ensures versions == old(versions) + if p.status == Deleted then {} else {p.key.version}
    {
      if p.status == Deleted {
        deletedBytes := deletedBytes + p.digest.size;
        return;
      }
      if p.status == Stored {
        bytes := bytes + p.digest.size;
        storedVersions := storedVersions + {p.key.version};
      }
      packages := packages + 1;
      versions := versions + {p.key.version};
    }

    method Add(p: Record)
      requires Valid() && p.key !in added
      modifies this
      ensures Valid() && added == old(added)[p.key := p]
    {
      hide CompareVersions, TakesOver, LatestAgrees, TotalsAgree, CountsAgree, CountIn;
      LatestStep(latest, latestKept, added, p);
      TotalsStep(versions, storedVersions, packages, bytes, deletedBytes, added, p);
      CountsStep(counts, added, p);
      counts := counts[p.status := CountIn(counts, p.status) + 1];
      NoteLatest(p.key.version, p.status != Deleted);
      NoteTotals(p);
      added := added[p.key := p];
    }

    method Row() returns (s: Summary)
      requires Valid()
      ensures Summarizes(s, added)
    {
      var stored, missing, pending := CountIn(counts, Stored), CountIn(counts, Missing), CountIn(counts, Pending);
      var conflict, deleted := CountIn(counts, Conflict), CountIn(counts, Deleted);
      s := Summary(latest, |versions|, |storedVersions|, packages, bytes, stored, missing, pending, conflict, deleted,
          deletedBytes,
                   missing + pending + conflict);
    }
  }

  /** What one more record does to each set. */
  lemma SetsStep(m: Packages, p: Record)
    requires p.key !in m
    ensures var n := m[p.key := p];
      && (forall status ::
        WithStatus(n, status) == if status == p.status then WithStatus(m, status) + {p.key} else WithStatus(m, status))
      && NotDeletedKeys(n) == (if p.status == Deleted then NotDeletedKeys(m) else NotDeletedKeys(m) + {p.key})
      && VersionsOfKeys(NotDeletedKeys(m) + {p.key}) == VersionsOfKeys(NotDeletedKeys(m)) + {p.key.version}
      && VersionsOfKeys(WithStatus(m, Stored) + {p.key}) == VersionsOfKeys(WithStatus(m, Stored)) + {p.key.version}
  {
    var n := m[p.key := p];
    forall status
      ensures WithStatus(n, status) == if status == p.status then WithStatus(m, status) + {p.key}
                                       else WithStatus(m, status)
    {
    }
  }

  /** What one more record does to the versions and packages that are not deleted. */
  lemma KeptStep(m: Packages, p: Record)
    requires p.key !in m
    ensures var n := m[p.key := p];
      && |NotDeletedKeys(n)| == |NotDeletedKeys(m)| + (if p.status == Deleted then 0 else 1)
      && VersionsOfKeys(NotDeletedKeys(n)) ==
        VersionsOfKeys(NotDeletedKeys(m)) + (if p.status == Deleted then {} else {p.key.version})
  {
    hide WithStatus, VersionsOfKeys;
    SetsStep(m, p);
    assert p.key !in NotDeletedKeys(m);
    var versions := VersionsOfKeys(NotDeletedKeys(m));
    assert versions + {} == versions;
  }

  lemma StoredVersionsStep(m: Packages, p: Record)
    requires p.key !in m
    ensures VersionsOfKeys(WithStatus(m[p.key := p], Stored)) ==
            VersionsOfKeys(WithStatus(m, Stored)) + (if p.status == Stored then {p.key.version} else {})
  {
    SetsStep(m, p);
    if p.status != Stored {
      assert VersionsOfKeys(WithStatus(m, Stored)) + {} == VersionsOfKeys(WithStatus(m, Stored));
    }
  }

  /** What one more record does to each sum. */
  lemma SumsStep(m: Packages, p: Record, status: Status)
    requires p.key !in m
    ensures SizeSum(m[p.key := p], WithStatus(m[p.key := p], status)) ==
            SizeSum(m, WithStatus(m, status)) + (if p.status == status then p.digest.size else 0)
  {
    var n := m[p.key := p];
    SetsStep(m, p);
    SizeSumFrames(m, n, WithStatus(m, status));
    if p.status == status {
      SizeSumAdds(n, WithStatus(m, status), p.key);
    }
  }

  lemma TotalsStep(versions: set<string>, storedVersions: set<string>, packages: nat, bytes: nat, deletedBytes: nat,
                   m: Packages, p: Record)
    requires p.key !in m && TotalsAgree(versions, storedVersions, packages, bytes, deletedBytes, m)
    ensures TotalsAgree(versions + (if p.status == Deleted then {} else {p.key.version}),
                        storedVersions + (if p.status == Stored then {p.key.version} else {}),
                        packages + (if p.status == Deleted then 0 else 1),
                        bytes + (if p.status == Stored then p.digest.size else 0),
                        deletedBytes + (if p.status == Deleted then p.digest.size else 0), m[p.key := p])
  {
    hide SizeSum, WithStatus, NotDeletedKeys, VersionsOfKeys;
    KeptStep(m, p);
    StoredVersionsStep(m, p);
    SumsStep(m, p, Stored);
    SumsStep(m, p, Deleted);
  }

  lemma NoLatestMeansEmpty(m: Packages)
    requires IsLatest(None, m)
    ensures m.Keys == {} && NotDeletedKeys(m) == {}
  {
    hide CompareVersions;
    assert forall k | k in NotDeletedKeys(m) :: k.version in VersionsOfKeys(NotDeletedKeys(m));
    assert forall k | k in m.Keys :: k.version in VersionsOfKeys(m.Keys);
  }

  /** Taking over exactly when TakesOver says so keeps the latest version the latest. */
  lemma LatestStep(latest: Option<string>, latestKept: bool, m: Packages, p: Record)
    requires p.key !in m && LatestAgrees(latest, latestKept, m)
    ensures var kept := p.status != Deleted;
      var takes := TakesOver(latest, latestKept, p.key.version, kept);
      LatestAgrees(if takes then Some(p.key.version) else latest, if takes then kept else latestKept, m[p.key := p])
  {
    hide CompareVersions;
    var n, kept, v := m[p.key := p], p.status != Deleted, p.key.version;
    assert NotDeletedKeys(n) == if kept then NotDeletedKeys(m) + {p.key} else NotDeletedKeys(m);
    assert n.Keys == m.Keys + {p.key};
    assert VersionsOfKeys(n.Keys) == VersionsOfKeys(m.Keys) + {v};
    assert VersionsOfKeys(NotDeletedKeys(m) + {p.key}) == VersionsOfKeys(NotDeletedKeys(m)) + {v};
    CompareVersionsIsPreorder(v, v, v);
    if latest.Some? {
      forall w ensures CompareVersions(w, latest.value) <= 0 && CompareVersions(latest.value, v) <= 0 ==>
          CompareVersions(w, v) <= 0 {
        CompareVersionsIsPreorder(w, latest.value, v);
      }
      CompareVersionsIsPreorder(v, latest.value, v);
      CompareVersionsIsPreorder(latest.value, v, v);
    }
    if latest.None? {
      NoLatestMeansEmpty(m);
    }
  }
}
