/**
 The library-wide version limit: every extension without a limit of its own that is over it is visited
 exactly once, in ID order, although visits delete packages and the cache is refreshed meanwhile.
 */
module LibraryLimit {
  import opened Text
  import opened Versions
  import opened Inventory
  import opened Protocol
  import opened Runs
  import opened Guarantees
  import opened Limits
  import opened Retention
  import opened Interruption
  import opened Summaries
  import opened Store
  import opened Removal
  import opened Catalog

  function CutVersions(cuts: map<string, set<string>>): set<(string, string)> {
    set id, v | id in cuts && v in cuts[id] :: (id, v)
  }

  /** What a report says about several extensions of a library when these versions are cut. */
  ghost predicate ReportsAll(t: TrimReport, packages: Packages, cuts: map<string, set<string>>)
    reads t`extensions, t`versions, t`packages, t`bytes
  {
    var keys := TrimmedKeys(packages, cuts);
    && t.extensions == |cuts|
    && t.versions == |CutVersions(cuts)|
    && t.packages == |keys|
    && t.bytes == SizeSum(packages, StoredAmong(packages, keys))
  }

  /** What is true once the extensions of done have been visited; s is the state then. */
  ghost predicate Visited(d: Durable, keep: nat, dryRun: bool, done: set<string>, cuts: map<string, set<string>>,
                          s: Durable, rows: map<string, Summary>, marked: set<string>) {
    && (if dryRun then s == d else TrimsSoFar(d, cuts, done, s))
    && cuts.Keys == done && (forall id | id in done :: IsCut(KeptVersions(d.packages, id), keep, cuts[id]))
    && RestIntact(d.packages, s.packages, rows, done)
    && marked <= done
  }

  /** The files a limit leaves to retry: by extension, the names it means to remove that cannot go. */
  function StuckAt(d: Durable, cuts: map<string, set<string>>, stuck: set<string>): set<(string, string)> {
    set id, n | id in cuts && n in Stuck(NamesOf(d, CutKeys(d.packages, id, cuts[id])), d.disk, stuck) :: (id, n)
  }

  /** s is d after some removals: what cannot be removed is still there, remembered as it was. */
  ghost predicate StuckStays(d: Durable, s: Durable, stuck: set<string>) {
    && s.packages.Keys == d.packages.Keys
    && (forall k | k in d.packages :: s.packages[k].filename == d.packages[k].filename)
    && s.disk.Keys <= d.disk.Keys && s.files.Keys <= d.files.Keys
    && (forall n | n in s.files :: s.files[n] == d.files[n])
    && (forall n | n in d.disk && n in stuck :: n in s.disk && (n in d.files ==> n in s.files))
  }

  /** The report counts the files left so far. */
  ghost predicate Retries(remaining: nat, d: Durable, dryRun: bool, cuts: map<string, set<string>>, stuck: set<string>,
                          s: Durable) {
    StuckStays(d, s, stuck) && remaining == if dryRun then 0 else |StuckAt(d, cuts, stuck)|
  }

  lemma StillStuck(d: Durable, s: Durable, stuck: set<string>, keys: set<Key>)
    requires StuckStays(d, s, stuck)
    ensures Stuck(NamesOf(s, keys), s.disk, stuck) == Stuck(NamesOf(d, keys), d.disk, stuck)
  {
    forall n | n in d.disk && n in stuck ensures n in NamesOf(s, keys) <==> n in NamesOf(d, keys) {
      if k :| k in keys && k in d.packages && d.packages[k].filename == n && n != "" {
        assert s.packages[k].filename == n;
      }
    }
  }

  lemma RemovalLeavesStuck(d: Durable, s: Durable, stuck: set<string>, keys: set<Key>, forgets: bool)
    requires StuckStays(d, s, stuck)
    ensures StuckStays(d, Removed(s, keys, stuck, forgets), stuck)
  {
    hide NamesOf, Bare;
    var gone := Erasable(s, keys, stuck);
    assert forall n | n in gone :: !(n in s.disk && n in stuck);
    assert s.files - {} == s.files;
  }

  lemma StuckOneMore(d: Durable, cuts: map<string, set<string>>, stuck: set<string>, id: string, cut: set<string>)
    requires id !in cuts
    ensures |StuckAt(d, cuts[id := cut], stuck)| ==
            |StuckAt(d, cuts, stuck)| + |Stuck(NamesOf(d, CutKeys(d.packages, id, cut)), d.disk, stuck)|
  {
    hide Stuck, NamesOf, CutKeys;
    var more := Stuck(NamesOf(d, CutKeys(d.packages, id, cut)), d.disk, stuck);
    TaggedSize(id, more);
    assert StuckAt(d, cuts[id := cut], stuck) == StuckAt(d, cuts, stuck) + Tagged(id, more);
    assert StuckAt(d, cuts, stuck) !! Tagged(id, more);
  }

  /** One more extension visited, and what it leaves counted. */
  lemma RetriesOneMore(remaining: nat, d: Durable, dryRun: bool, cuts: map<string, set<string>>, stuck: set<string>,
                       s: Durable, id: string, cut: set<string>, forgets: bool, e: Durable, more: nat)
    requires Retries(remaining, d, dryRun, cuts, stuck, s) && id !in cuts
    requires CutKeys(s.packages, id, cut) == CutKeys(d.packages, id, cut)
    requires e == if dryRun || cut == {} then s else Removed(s, CutKeys(s.packages, id, cut), stuck, forgets)
    requires more == if dryRun || cut == {} then 0
                     else |Stuck(NamesOf(s, CutKeys(s.packages, id, cut)), s.disk, stuck)|
    ensures Retries(remaining + more, d, dryRun, cuts[id := cut], stuck, e)
  {
    hide Stuck, NamesOf, StuckAt, Removed, StuckStays;
    var keys := CutKeys(d.packages, id, cut);
    StuckOneMore(d, cuts, stuck, id, cut);
    StillStuck(d, s, stuck, keys);
    if cut == {} {
      NothingIsStuck(d, stuck, keys);
    } else if !dryRun {
      RemovalLeavesStuck(d, s, stuck, keys, forgets);
    }
  }

  lemma NothingIsStuck(d: Durable, stuck: set<string>, keys: set<Key>)
    requires keys == {}
    ensures Stuck(NamesOf(d, keys), d.disk, stuck) == {}
  {
  }

  /** One extension visited, with the versions cut counted in the report. */
  method Visit(db: Store, id: string, keep: nat, dryRun: bool, t: TrimReport, stuck: set<string>, forgets: bool)
    returns (ghost cut: set<string>)
    requires db.Valid()
    modifies db`packages, db`marked, db`dirty, db`files, db`ids, db`disk, db`trail, t
    ensures db.Valid() && old(db.trail) <= db.trail
    ensures IsCut(KeptVersions(old(db.packages), id), keep, cut)
    ensures db.State() ==
            if dryRun || cut == {} then old(db.State())
            else Removed(old(db.State()), CutKeys(old(db.packages), id, cut), stuck, forgets)
    ensures AllOnTheWay(old(db.State()), CutKeys(old(db.packages), id, cut), db.trail, |old(db.trail)|)
    ensures dryRun ==> db.trail == old(db.trail)
    ensures db.marked <= old(db.marked) + {id}
    ensures t.extensions == old(t.extensions) + (if cut == {} then 0 else 1)
    ensures t.versions == old(t.versions) + |cut|
    ensures t.packages == old(t.packages) + |CutKeys(old(db.packages), id, cut)|
    ensures t.remaining == old(t.remaining)
        + if dryRun || cut == {} then 0
          else |Stuck(NamesOf(old(db.State()), CutKeys(old(db.packages), id, cut)), old(db.disk), stuck)|
    ensures t.bytes == old(t.bytes)
        + SizeSum(old(db.packages), StoredAmong(old(db.packages), CutKeys(old(db.packages), id, cut)))
  {
    hide IsRun, CacheAgrees, CompareVersions, IsCut, OnTheWay, AllOnTheWay, Removed, Lists, KeptVersions, CutKeys,
      Targets, SizeSum, StoredAmong, StoredBytes, MarksOnly, Stuck, NamesOf;
    ghost var d := db.State();
    var packages := db.List(id);
    var targets;
    targets, cut := Beyond(packages, keep);
    CutOfListing(packages, d, id, keep, cut);
    ReportFacts(packages, d.packages, id, cut);
    NothingOnTheWay(d, CutKeys(d.packages, id, cut), db.trail);
    t.Add(targets);
    if !dryRun && |targets| > 0 {
      var remaining := Remove(db, targets, stuck, forgets);
      t.remaining := t.remaining + remaining;
      TargetsMark(packages, d.packages, id, cut, targets, old(db.marked), db.marked);
    }
  }

  lemma TargetsMark(out: seq<Record>, packages: Packages, id: string, cut: set<string>, targets: seq<Record>,
                    before: set<string>, after: set<string>)
    requires Lists(out, packages, id) && targets == Targets(out, cut) && MarksOnly(before, after, targets)
    ensures after <= before + {id}
  {
    forall i | i in after && i !in before ensures i == id {
      var p :| p in targets && p.key.id == i;
    }
  }

  lemma TaggedCuts(cuts: map<string, set<string>>, id: string, cut: set<string>)
    requires id !in cuts
    ensures |CutVersions(cuts[id := cut])| == |CutVersions(cuts)| + |cut|
  {
    TaggedSize(id, cut);
    assert CutVersions(cuts[id := cut]) == CutVersions(cuts) + Tagged(id, cut);
    assert CutVersions(cuts) !! Tagged(id, cut);
  }

  lemma TrimmedBytes(packages: Packages, cuts: map<string, set<string>>, id: string, cut: set<string>)
    requires id !in cuts
    ensures var more := CutKeys(packages, id, cut);
      SizeSum(packages, StoredAmong(packages, TrimmedKeys(packages, cuts[id := cut]))) ==
      SizeSum(packages, StoredAmong(packages, TrimmedKeys(packages, cuts)))
          + SizeSum(packages, StoredAmong(packages, more))
  {
    hide SizeSum;
    TrimmedOneMore(packages, cuts, id, cut);
    var a, b := StoredAmong(packages, TrimmedKeys(packages, cuts)), StoredAmong(packages, CutKeys(packages, id, cut));
    assert StoredAmong(packages, TrimmedKeys(packages, cuts[id := cut])) == a + b;
    SizeSumJoins(packages, a, b);
  }

  lemma VisitLeavesRest(before: Packages, now: Packages, rows: map<string, Summary>, done: set<string>, id: string,
                        cut: set<string>)
    requires RestIntact(before, now, rows, done)
    ensures RestIntact(before, now, rows, done + {id})
    ensures RestIntact(before, MarkedDeleted(now, CutKeys(now, id, cut)), rows, done + {id})
  {
    hide RowAgrees;
    var after := MarkedDeleted(now, CutKeys(now, id, cut));
    forall other | other !in done + {id} ensures Part(after, other) == Part(before, other) {
      assert Part(after, other) == Part(now, other);
    }
  }

  /** A refresh in the middle changes nothing that matters. */
  lemma RefreshLeavesRest(before: Packages, now: Packages, rows: map<string, Summary>, done: set<string>)
    requires forall id | id !in done :: Part(now, id) == Part(before, id)
    requires CacheAgrees(now, rows, {})
    ensures RestIntact(before, now, rows, done)
  {
    hide Part, Summarizes;
    forall id | id !in done ensures RowAgrees(before, rows, id) {
      assert RowAgrees(now, rows, id);
    }
  }

  /** One more extension visited. */
  lemma VisitStep(d: Durable, keep: nat, dryRun: bool, done: set<string>, cuts: map<string, set<string>>, s: Durable,
                  rows: map<string, Summary>, marked: set<string>,
                  id: string, cut: set<string>, stuck: set<string>, forgets: bool, e: Durable, now: set<string>)
    requires Visited(d, keep, dryRun, done, cuts, s, rows, marked) && id !in done && id !in d.limits && keep > 0
    requires dryRun || d.keep == keep
    requires IsCut(KeptVersions(s.packages, id), keep, cut) && now <= marked + {id}
    requires e == if dryRun || cut == {} then s else Removed(s, CutKeys(s.packages, id, cut), stuck, forgets)
    ensures Visited(d, keep, dryRun, done + {id}, cuts[id := cut], e, rows, now)
    ensures CutKeys(s.packages, id, cut) == CutKeys(d.packages, id, cut) && s.packages.Keys == d.packages.Keys
    ensures IsCut(KeptVersions(d.packages, id), keep, cut)
  {
    hide IsCut, KeptVersions, CutKeys, RestIntact, MarkedDeleted, CompareVersions;
    PartsKeepAt(d.packages, s.packages, rows, done, id);
    VisitLeavesRest(d.packages, s.packages, rows, done, id, cut);
    if !dryRun {
      assert TrimsTo(s, id, cut, stuck, forgets, e);
      TrimStep(d, cuts, done, s, id, cut, stuck, forgets, e);
    }
  }

  lemma PartsKeepAt(before: Packages, now: Packages, rows: map<string, Summary>, done: set<string>, id: string)
    requires RestIntact(before, now, rows, done) && id !in done
    ensures KeptVersions(now, id) == KeptVersions(before, id)
    ensures forall cut :: CutKeys(now, id, cut) == CutKeys(before, id, cut)
    ensures forall cut :: StoredAmong(now, CutKeys(now, id, cut)) == StoredAmong(before, CutKeys(before, id, cut))
    ensures forall k | k in before && k.id == id :: k in now && now[k] == before[k]
  {
    PartsKeep(before, now, id);
    assert forall k | k in before && k.id == id :: k in Part(before, id) && Part(before, id)[k] == before[k];
    assert forall k | k in Part(now, id) :: k in now && now[k] == Part(now, id)[k];
  }

  lemma VisitReports(d: Durable, keep: nat, cuts: map<string, set<string>>, now: Packages, id: string, cut: set<string>,
                     rows: map<string, Summary>)
    requires RestIntact(d.packages, now, rows, cuts.Keys) && id !in cuts
    ensures var keys := CutKeys(d.packages, id, cut);
      && CutKeys(now, id, cut) == keys
      && SizeSum(now, StoredAmong(now, keys)) == SizeSum(d.packages, StoredAmong(d.packages, keys))
      && |TrimmedKeys(d.packages, cuts[id := cut])| == |TrimmedKeys(d.packages, cuts)| + |keys|
      && |CutVersions(cuts[id := cut])| == |CutVersions(cuts)| + |cut|
      && SizeSum(d.packages, StoredAmong(d.packages, TrimmedKeys(d.packages, cuts[id := cut]))) ==
         SizeSum(d.packages, StoredAmong(d.packages, TrimmedKeys(d.packages, cuts)))
             + SizeSum(d.packages, StoredAmong(d.packages, keys))
      && |cuts[id := cut]| == |cuts| + 1
  {
    hide SizeSum, RestIntact, TrimmedKeys, CutVersions, KeptVersions;
    PartsKeepAt(d.packages, now, rows, cuts.Keys, id);
    TrimmedOneMore(d.packages, cuts, id, cut);
    TaggedCuts(cuts, id, cut);
    TrimmedBytes(d.packages, cuts, id, cut);
    var stored := StoredAmong(d.packages, CutKeys(d.packages, id, cut));
    SizeSumFrames(d.packages, now, stored);
    assert cuts[id := cut].Keys == cuts.Keys + {id};
    assert |cuts| == |cuts.Keys|;
  }

  /** The extensions a limit concerns, in the order they are visited. */
  ghost predicate Concerned(d: Durable, keep: nat, dryRun: bool, order: seq<string>) {
    && keep > 0 && (dryRun || d.keep == keep) && Ascending(order)
    && forall id | id in order :: id !in d.limits && |KeptVersions(d.packages, id)| > keep
  }

  lemma NextInOrder(order: seq<string>, m: nat)
    requires Ascending(order) && m < |order|
    ensures order[m] !in Elements(order[..m]) && Elements(order[..m + 1]) == Elements(order[..m]) + {order[m]}
  {
    forall j | 0 <= j < m ensures order[j] != order[m] {
      TextOrder(order[j], order[m]);
    }
    assert order[..m + 1] == order[..m] + [order[m]];
  }

  /** A refresh nobody writes during. */
  method RefreshAlone(db: Store)
    requires db.Valid()
    modifies db`packages, db`summaries, db`marked
    ensures db.Valid() && db.State() == old(db.State()) && db.marked == {}
  {
    hide IsRun, Store.Consistent;
    var _ := RefreshSummaries(db, []);
  }

  /** Another refresh of the cache may come between two visits. */
  method MaybeRefresh(db: Store, keep: nat, dryRun: bool, ghost d: Durable, ghost done: set<string>,
                      ghost cuts: map<string, set<string>>)
    requires db.Valid() && Visited(d, keep, dryRun, done, cuts, db.State(), db.summaries, db.marked)
    modifies db`packages, db`summaries, db`marked
    ensures db.Valid() && db.State() == old(db.State())
    ensures Visited(d, keep, dryRun, done, cuts, db.State(), db.summaries, db.marked)
  {
    hide IsRun, IsInjective, CacheAgrees, TrimsSoFar, IsCut, Part, RowAgrees;
    var now := *;
    if now {
      RefreshAlone(db);
      RefreshLeavesRest(d.packages, db.packages, db.summaries, done);
    }
  }

  /** The next extension of the order is visited. */
  method VisitNext(db: Store, id: string, keep: nat, dryRun: bool, t: TrimReport, stuck: set<string>, forgets: bool,
                   ghost d: Durable, ghost order: seq<string>, ghost m: nat, ghost before: map<string, set<string>>)
    returns (ghost cuts: map<string, set<string>>)
    requires db.Valid() && Concerned(d, keep, dryRun, order) && m < |order| && id == order[m]
    requires Visited(d, keep, dryRun, Elements(order[..m]), before, db.State(), db.summaries, db.marked)
    requires ReportsAll(t, d.packages, before) && Retries(t.remaining, d, dryRun, before, stuck, db.State())
    modifies db`packages, db`marked, db`dirty, db`files, db`ids, db`disk, db`trail, t
    ensures db.Valid() && old(db.trail) <= db.trail
    ensures Visited(d, keep, dryRun, Elements(order[..m + 1]), cuts, db.State(), db.summaries, db.marked)
    ensures ReportsAll(t, d.packages, cuts) && Retries(t.remaining, d, dryRun, cuts, stuck, db.State())
    ensures StaysDeletable(old(db.State()), db.State(), db.trail, |old(db.trail)|)
    ensures dryRun ==> db.trail == old(db.trail)
  {
    hide IsRun, Store.Consistent, IsCut, OnTheWay, AllOnTheWay, Removed, TrimsSoFar, KeptVersions, CutKeys,
      RestIntact, SizeSum, StoredAmong, TrimmedKeys, CutVersions, Visited, StaysDeletable, Retries, Stuck, NamesOf;
    ghost var s, done, marked, counted := db.State(), Elements(order[..m]), db.marked, t.remaining;
    VisitedFacts(d, keep, dryRun, done, before, s, db.summaries, marked);
    NextInOrder(order, m);
    ghost var cut := Visit(db, id, keep, dryRun, t, stuck, forgets);
    VisitStep(d, keep, dryRun, done, before, s, db.summaries, marked, id, cut, stuck, forgets, db.State(), db.marked);
    VisitReports(d, keep, before, s.packages, id, cut, db.summaries);
    CutIsEmptyWithinLimit(KeptVersions(d.packages, id), keep, cut);
    cuts := before[id := cut];
    RetriesOneMore(counted, d, dryRun, before, stuck, s, id, cut, forgets, db.State(), t.remaining - counted);
    CutKeysAreKnown(s.packages, id, cut);
    RemovalStaysDeletable(s, CutKeys(s.packages, id, cut), stuck, forgets, !(dryRun || cut == {}), db.State(), db.trail,
                          |old(db.trail)|);
  }

  lemma VisitedFacts(d: Durable, keep: nat, dryRun: bool, done: set<string>, cuts: map<string, set<string>>,
                     s: Durable, rows: map<string, Summary>, marked: set<string>)
    requires Visited(d, keep, dryRun, done, cuts, s, rows, marked)
    ensures cuts.Keys == done && RestIntact(d.packages, s.packages, rows, done) && s.limits == d.limits
  {
  }

  /** By the characters of their IDs: the extensions without a limit of their own that have more versions than keep. */
  ghost predicate VisitsInOrder(visited: seq<string>, packages: Packages, limits: map<string, nat>, keep: nat) {
    && (forall i, j | 0 <= i < j < |visited| :: TextBefore(visited[i], visited[j]))
    && forall id :: id in visited <==>
         id !in limits
         && |set k | k in packages && k.id == id && packages[k].status != Deleted :: k.version| > keep
  }

  lemma OrderMeans(packages: Packages, limits: map<string, nat>, keep: nat)
    ensures VisitsInOrder(InOrder(Over(packages, limits, keep)), packages, limits, keep)
  {
    hide InOrder, Over, TextBefore;
    AscendingMeans(InOrder(Over(packages, limits, keep)));
    OverMeans(packages, limits, keep);
  }

  /**
   Visits every extension that follows the library default and has more than keep versions, one at a time in
   ID order, a page of at most a thousand IDs at a time.
   */
  method ExtensionsOver(db: Store, keep: nat, dryRun: bool, t: TrimReport, stuck: set<string>, forgets: bool)
    returns (ghost visited: seq<string>, ghost cuts: map<string, set<string>>)
    requires db.Valid() && keep > 0 && (dryRun || db.keep == keep) && forall k | k in db.packages :: k.id != ""
    requires t.extensions == t.versions == t.packages == t.bytes == t.remaining == 0
    modifies db`packages, db`marked, db`summaries, db`dirty, db`files, db`ids, db`disk, db`trail, t
    ensures db.Valid() && old(db.trail) <= db.trail
    ensures visited == InOrder(Over(old(db.packages), old(db.limits), keep))
    ensures VisitsInOrder(visited, old(db.packages), old(db.limits), keep)
    ensures Visited(old(db.State()), keep, dryRun, Elements(visited), cuts, db.State(), db.summaries, db.marked)
    ensures ReportsAll(t, old(db.packages), cuts)
    ensures t.remaining == if dryRun then 0 else |StuckAt(old(db.State()), cuts, stuck)|
    ensures StaysDeletable(old(db.State()), db.State(), db.trail, |old(db.trail)|)
    ensures dryRun ==> db.trail == old(db.trail)
  {
    hide IsRun, Store.Consistent, RestIntact, ReportsAll, Concerned, InOrder, Over, Visited, Visiting, Listed,
      StaysDeletable, Retries, StuckAt, VisitsInOrder;
    ghost var d, from := db.State(), |db.trail|;
    NothingHappened(d, db.trail);
    RefreshAlone(db);
    ghost var order := InOrder(Over(d.packages, d.limits, keep));
    ghost var m: nat;
    m, cuts := 0, map[];
    var after := "";
    Beginning(db, d, keep, dryRun, order, t);
    NothingToRetry(d, dryRun, stuck);
    while true
      invariant m <= |order| && Visiting(order, m, after)
      invariant db.Valid() && old(db.trail) <= db.trail
      invariant Visited(d, keep, dryRun, Elements(order[..m]), cuts, db.State(), db.summaries, db.marked)
      invariant ReportsAll(t, d.packages, cuts) && Retries(t.remaining, d, dryRun, cuts, stuck, db.State())
      invariant StaysDeletable(d, db.State(), db.trail, from) && (dryRun ==> db.trail == old(db.trail))
      decreases |order| - m
    {
      VisitedFacts(d, keep, dryRun, Elements(order[..m]), cuts, db.State(), db.summaries, db.marked);
      NextPage(d.packages, db.packages, db.summaries, d.limits, keep, order, m, after);
      var ids := InOrder(Listed(db.summaries, db.limits, keep, after));
      if |ids| == 0 {
        break;
      }
      if |ids| > 1000 {
        ids := ids[..1000];
      }
      ghost var s, was := db.State(), db.trail;
      cuts := VisitPage(db, ids, keep, dryRun, t, stuck, forgets, d, order, m, cuts);
      ServiceGoesOn(d, s, db.State(), was, db.trail, from);
      after := ids[|ids| - 1];
      m := m + |ids|;
      PageVisited(order, m, after);
    }
    visited := order;
    OrderMeans(d.packages, d.limits, keep);
    assert t.remaining == if dryRun then 0 else |StuckAt(d, cuts, stuck)| by {
      RetriesMean(t.remaining, d, dryRun, cuts, stuck, db.State());
    }
    assert order[..m] == order;
  }

  method VisitPage(db: Store, ids: seq<string>, keep: nat, dryRun: bool, t: TrimReport, stuck: set<string>,
                   forgets: bool,
                   ghost d: Durable, ghost order: seq<string>, ghost m: nat, ghost before: map<string, set<string>>)
    returns (ghost cuts: map<string, set<string>>)
    requires db.Valid() && Concerned(d, keep, dryRun, order) && m <= |order| && ids <= order[m..]
    requires Visited(d, keep, dryRun, Elements(order[..m]), before, db.State(), db.summaries, db.marked)
    requires ReportsAll(t, d.packages, before) && Retries(t.remaining, d, dryRun, before, stuck, db.State())
    modifies db`packages, db`marked, db`summaries, db`dirty, db`files, db`ids, db`disk, db`trail, t
    ensures db.Valid() && old(db.trail) <= db.trail
    ensures Visited(d, keep, dryRun, Elements(order[..m + |ids|]), cuts, db.State(), db.summaries, db.marked)
    ensures ReportsAll(t, d.packages, cuts) && Retries(t.remaining, d, dryRun, cuts, stuck, db.State())
    ensures StaysDeletable(old(db.State()), db.State(), db.trail, |old(db.trail)|)
    ensures dryRun ==> db.trail == old(db.trail)
  {
    hide IsRun, Store.Consistent, RestIntact, ReportsAll, Concerned, Visited, StaysDeletable, Retries;
    ghost var s, from := db.State(), |db.trail|;
    NothingHappened(s, db.trail);
    cuts := before;
    for i := 0 to |ids|
      invariant db.Valid() && old(db.trail) <= db.trail
      invariant Visited(d, keep, dryRun, Elements(order[..m + i]), cuts, db.State(), db.summaries, db.marked)
      invariant ReportsAll(t, d.packages, cuts) && Retries(t.remaining, d, dryRun, cuts, stuck, db.State())
      invariant StaysDeletable(s, db.State(), db.trail, from) && (dryRun ==> db.trail == old(db.trail))
    {
      ghost var e, was := db.State(), db.trail;
      MaybeRefresh(db, keep, dryRun, d, Elements(order[..m + i]), cuts);
      cuts := VisitNext(db, ids[i], keep, dryRun, t, stuck, forgets, d, order, m + i, cuts);
      ServiceGoesOn(s, e, db.State(), was, db.trail, from);
    }
  }

  lemma PageVisited(order: seq<string>, m: nat, after: string)
    requires 0 < m <= |order| && after == order[m - 1]
    ensures Visiting(order, m, after)
  {
  }

  lemma Beginning(db: Store, d: Durable, keep: nat, dryRun: bool, order: seq<string>, t: TrimReport)
    requires db.Consistent() && db.marked == {} && db.State() == d && order == InOrder(Over(d.packages, d.limits, keep))
    requires keep > 0 && (dryRun || d.keep == keep)
    requires t.extensions == t.versions == t.packages == t.bytes == 0
    ensures Visiting(order, 0, "") && Concerned(d, keep, dryRun, order)
    ensures Visited(d, keep, dryRun, Elements(order[..0]), map[], d, db.summaries, {})
    ensures ReportsAll(t, d.packages, map[])
  {
    hide Part, Summarizes, RowAgrees, InOrder, SizeSum, RestIntact, KeptVersions;
    assert Elements(order[..0]) == {};
    NoTrims(d);
    RefreshLeavesRest(d.packages, d.packages, db.summaries, {});
    NothingReported(d, t);
    OverConcerns(d, keep);
  }

  lemma NothingToRetry(d: Durable, dryRun: bool, stuck: set<string>)
    ensures Retries(0, d, dryRun, map[], stuck, d)
  {
    assert StuckAt(d, map[], stuck) == {};
  }

  lemma RetriesMean(remaining: nat, d: Durable, dryRun: bool, cuts: map<string, set<string>>, stuck: set<string>,
                    s: Durable)
    requires Retries(remaining, d, dryRun, cuts, stuck, s)
    ensures remaining == if dryRun then 0 else |StuckAt(d, cuts, stuck)|
  {
  }

  lemma OverConcerns(d: Durable, keep: nat)
    ensures forall id | id in Over(d.packages, d.limits, keep) ::
        id !in d.limits && |KeptVersions(d.packages, id)| > keep
  {
    hide KeptVersions;
  }

  lemma NothingReported(d: Durable, t: TrimReport)
    requires t.extensions == t.versions == t.packages == t.bytes == 0
    ensures ReportsAll(t, d.packages, map[])
  {
    NoTrims(d);
    assert CutVersions(map[]) == {};
    assert StoredAmong(d.packages, {}) == {};
  }

  // Setting the limit

  /** Applied completely, the limit leaves every extension that follows it within it. */
  lemma LimitIsApplied(d: Durable, keep: nat, cuts: map<string, set<string>>, s: Durable, rows: map<string, Summary>,
                       marked: set<string>, id: string)
    requires keep > 0 && d.keep == keep && id !in d.limits
    requires Visited(d, keep, false, Over(d.packages, d.limits, keep), cuts, s, rows, marked)
    ensures WithinLimit(s, id)
  {
    hide RestIntact, CompareVersions, KeptVersions, Trimmed;
    if id in cuts {
      TrimmedCutsExactly(d.packages, cuts, id);
      SizeAfterCut(KeptVersions(d.packages, id), keep, cuts[id]);
    } else {
      TrimmedKeepsOthers(d.packages, cuts, id);
      OtherwiseWithin(d.packages, d.limits, keep, id);
    }
  }

  lemma SizeAfterCut(versions: set<string>, keep: nat, cut: set<string>)
    requires keep > 0 && IsCut(versions, keep, cut)
    ensures |versions - cut| <= keep
  {
    hide CompareVersions;
  }

  lemma TrimmedCutsExactly(packages: Packages, cuts: map<string, set<string>>, id: string)
    requires id in cuts
    ensures KeptVersions(Trimmed(packages, cuts), id) == KeptVersions(packages, id) - cuts[id]
  {
    forall k | k in packages && k.id == id
      ensures Trimmed(packages, cuts)[k].status.Deleted? <==> packages[k].status.Deleted? || k.version in cuts[id]
    {
    }
  }

  lemma OtherwiseWithin(packages: Packages, limits: map<string, nat>, keep: nat, id: string)
    requires id !in limits && id !in Over(packages, limits, keep)
    ensures |KeptVersions(packages, id)| <= keep
  {
    if KeptVersions(packages, id) != {} {
      var v :| v in KeptVersions(packages, id);
      var k :| k in packages && k.id == id && !packages[k].status.Deleted? && k.version == v;
      assert |KeptVersions(packages, k.id)| <= keep;
    }
  }

  /** What a change of the library's limit cuts, and the state e it leaves. */
  ghost predicate LimitsTo(d: Durable, keep: nat, dryRun: bool, cuts: map<string, set<string>>, e: Durable) {
    && cuts.Keys == (if keep == 0 then {} else Over(d.packages, d.limits, keep))
    && (forall id | id in cuts :: IsCut(KeptVersions(d.packages, id), keep, cuts[id]))
    && (dryRun ==> e == d)
    && (!dryRun ==>
          && TrimsSoFar(d.(keep := keep), cuts, cuts.Keys, e)
          && forall id | id !in e.limits :: WithinLimit(e, id))
  }

  /**
   Changes the library's limit and trims every extension that follows it. A dry run changes nothing and reports the
   same.
   */
  method SetLibraryLimit(db: Store, keep: nat, dryRun: bool, stuck: set<string>, forgets: bool)
    returns (t: TrimReport, ghost cuts: map<string, set<string>>)
    requires db.Valid() && forall k | k in db.packages :: k.id != ""
    modifies db
    ensures db.Valid() && old(db.trail) <= db.trail && fresh(t)
    ensures ReportsAll(t, old(db.packages), cuts)
    ensures t.remaining == if dryRun then 0 else |StuckAt(old(db.State()), cuts, stuck)|
    ensures LimitsTo(old(db.State()), keep, dryRun, cuts, db.State())
    ensures StaysDeletable(old(db.State()), db.State(), db.trail, |old(db.trail)|)
    ensures dryRun ==> db.trail == old(db.trail)
  {
    hide IsRun, Store.Consistent, IsCut, KeptVersions, ReportsAll, Over, InOrder, TrimsSoFar, StaysDeletable, StuckAt,
      LimitsTo, WithinLimit, Visited;
    ghost var s, was := db.State(), db.trail;
    NothingHappened(s, was);
    if !dryRun {
      db.SetKeepDefault(keep);
      LimitStaysDeletable(s, keep, was, db.trail);
    }
    ghost var limitedAt := db.trail;
    ghost var d := db.State();
    t := new TrimReport();
    cuts := map[];
    NothingReported(d, t);
    NoTrims(d);
    NothingToRetry(s, dryRun, stuck);
    RetriesMean(0, s, dryRun, map[], stuck, s);
    if keep == 0 {
      NoLimitMet(s, dryRun);
      return;
    }
    ghost var visited;
    visited, cuts := ExtensionsOver(db, keep, dryRun, t, stuck, forgets);
    ServiceGoesOn(s, d, db.State(), limitedAt, db.trail, |was|);
    SameStuck(s, keep, cuts, stuck);
    assert Elements(visited) == Over(d.packages, d.limits, keep);
    LimitMet(s, d, keep, dryRun, cuts, db.State(), db.summaries, db.marked);
  }

  lemma NoLimitMet(d: Durable, dryRun: bool)
    ensures LimitsTo(d, 0, dryRun, map[], if dryRun then d else d.(keep := 0))
  {
    NoTrims(d.(keep := 0));
  }

  lemma LimitMet(s: Durable, d: Durable, keep: nat, dryRun: bool, cuts: map<string, set<string>>, e: Durable,
                 rows: map<string, Summary>, marked: set<string>)
    requires keep > 0 && d == if dryRun then s else s.(keep := keep)
    requires Visited(d, keep, dryRun, Over(d.packages, d.limits, keep), cuts, e, rows, marked)
    ensures LimitsTo(s, keep, dryRun, cuts, e)
  {
    hide IsCut, KeptVersions, Over, WithinLimit, RestIntact;
    if !dryRun {
      SameLimits(d, cuts, e);
      forall id | id !in e.limits ensures WithinLimit(e, id) {
        LimitIsApplied(d, keep, cuts, e, rows, marked, id);
      }
    }
  }

  lemma SameStuck(d: Durable, keep: nat, cuts: map<string, set<string>>, stuck: set<string>)
    ensures StuckAt(d.(keep := keep), cuts, stuck) == StuckAt(d, cuts, stuck)
  {
    assert forall keys :: NamesOf(d.(keep := keep), keys) == NamesOf(d, keys);
  }

  lemma LimitStaysDeletable(d: Durable, keep: nat, u: seq<Event>, t: seq<Event>)
    requires t == u + [Event(SetKeepDefault(keep), d.(keep := keep))]
    ensures StaysDeletable(d, d.(keep := keep), t, |u|)
  {
    hide InService;
    forall standing | Deletable(standing, d)
      ensures Deletable(standing, d.(keep := keep)) && AllInService(standing, t, |u|)
    {
      StepStaysInService(standing, d, SetKeepDefault(keep));
    }
  }

  lemma SameLimits(d: Durable, cuts: map<string, set<string>>, s: Durable)
    requires TrimsSoFar(d, cuts, cuts.Keys, s)
    ensures s.limits == d.limits && s.keep == d.keep
  {
  }

  /** One cut for each extension of a limit, as both a preview and its application find them. */
  ghost predicate CutsFor(packages: Packages, keep: nat, cuts: map<string, set<string>>) {
    forall id | id in cuts :: IsCut(KeptVersions(packages, id), keep, cuts[id])
  }

  /**
   What a preview reports is what any later application deletes exactly when no version it would cut ties with
   one it would keep.
   */
  lemma PreviewIsExact(packages: Packages, keep: nat, preview: map<string, set<string>>)
    requires CutsFor(packages, keep, preview)
    ensures (forall id | id in preview :: Untied(KeptVersions(packages, id), preview[id])) <==>
            forall applied | CutsFor(packages, keep, applied) && applied.Keys == preview.Keys :: applied == preview
  {
    hide Untied, IsCut, KeptVersions;
    if forall id | id in preview :: Untied(KeptVersions(packages, id), preview[id]) {
      forall applied | CutsFor(packages, keep, applied) && applied.Keys == preview.Keys ensures applied == preview {
        forall id | id in preview ensures applied[id] == preview[id] {
          UntiedCutIsUnique(KeptVersions(packages, id), keep, preview[id], applied[id]);
        }
      }
    } else {
      var id :| id in preview && !Untied(KeptVersions(packages, id), preview[id]);
      CutIsUniqueExactly(KeptVersions(packages, id), keep, preview[id]);
      var other :| IsCut(KeptVersions(packages, id), keep, other) && other != preview[id];
      var applied := preview[id := other];
      assert CutsFor(packages, keep, applied) && applied.Keys == preview.Keys && applied[id] != preview[id];
    }
  }

  /** Whatever ties do, preview and application count the same extensions and versions. */
  lemma {:induction false} PreviewCounts(packages: Packages, keep: nat, preview: map<string, set<string>>,
                                         applied: map<string, set<string>>)
    requires CutsFor(packages, keep, preview) && CutsFor(packages, keep, applied) && applied.Keys == preview.Keys
    ensures |applied| == |preview| && |CutVersions(applied)| == |CutVersions(preview)|
    decreases |preview.Keys|
  {
    hide IsCut, KeptVersions, CutVersions;
    assert |applied| == |applied.Keys| && |preview| == |preview.Keys|;
    if preview.Keys == {} {
      assert preview == map[] && applied == map[];
    } else {
      var id :| id in preview;
      var a, b := preview - {id}, applied - {id};
      PreviewCounts(packages, keep, a, b);
      TaggedCuts(a, id, preview[id]);
      TaggedCuts(b, id, applied[id]);
      assert preview == a[id := preview[id]] && applied == b[id := applied[id]];
      CutsHaveOneSize(KeptVersions(packages, id), keep, preview[id], applied[id]);
    }
  }

  /** The cuts made on the way are those a function picks from each extension's records as they are at its visit. */
  ghost predicate PickedOnTheWay(packages: Packages, pick: Packages -> set<string>, order: seq<string>,
                                 cuts: map<string, set<string>>) {
    && cuts.Keys == Elements(order)
    && forall m | 0 <= m < |order| ::
         cuts[order[m]] == pick(Part(Trimmed(packages, Restricted(cuts, Elements(order[..m]))), order[m]))
  }

  /** A trim of other extensions leaves an extension's records as they were. */
  lemma TrimmedLeavesPart(packages: Packages, cuts: map<string, set<string>>, id: string)
    requires id !in cuts
    ensures Part(Trimmed(packages, cuts), id) == Part(packages, id)
  {
  }

  /**
   If what is cut of an extension is a function of its records, ties included, then what a preview reports is what its
   application deletes, although the application has trimmed other extensions by the time it visits one.
   */
  lemma SamePickSameReport(packages: Packages, pick: Packages -> set<string>, order: seq<string>,
                           preview: map<string, set<string>>, applied: map<string, set<string>>,
                           t: TrimReport, u: TrimReport)
    requires Ascending(order) && preview.Keys == Elements(order)
    requires forall id | id in preview :: preview[id] == pick(Part(packages, id))
    requires PickedOnTheWay(packages, pick, order, applied)
    requires ReportsAll(t, packages, preview) && ReportsAll(u, packages, applied)
    ensures preview == applied
    ensures t.extensions == u.extensions && t.versions == u.versions && t.packages == u.packages && t.bytes == u.bytes
  {
    hide Part, Trimmed;
    forall id | id in preview ensures preview[id] == applied[id] {
      var m :| 0 <= m < |order| && order[m] == id;
      NextInOrder(order, m);
      TrimmedLeavesPart(packages, Restricted(applied, Elements(order[..m])), id);
    }
  }

  lemma CutsHaveOneSize(versions: set<string>, keep: nat, a: set<string>, b: set<string>)
    requires IsCut(versions, keep, a) && IsCut(versions, keep, b)
    ensures |a| == |b|
  {
    if keep > 0 {
      SameSizeCuts(versions, keep, a, b);
    }
  }

  /**
   Applying a limit lowers the stored bytes by exactly what it reports, and raises the deleted bytes by the sizes of
   all it cuts.
   */
  lemma TrimsConserveBytes(packages: Packages, cuts: map<string, set<string>>)
    ensures var after, keys := Trimmed(packages, cuts), TrimmedKeys(packages, cuts);
      && TotalBytes(after) + SizeSum(packages, StoredAmong(packages, keys)) == TotalBytes(packages)
      && DeletedBytes(after) == DeletedBytes(packages) + SizeSum(packages, keys)
  {
    hide SizeSum, TotalBytes, DeletedBytes;
    var keys := TrimmedKeys(packages, cuts);
    assert Trimmed(packages, cuts) == MarkedDeleted(packages, keys);
    assert keys <= NotDeletedKeys(packages);
    BytesAreConserved(packages, keys);
  }
}
